/** What a disconnect does for the connection it belongs to (internal/hooks/disconnect.go:60-96), and what a
    connect banks for the session it displaces (internal/hooks/connect.go:211-230). */
module FinalBanking {
  import opened Wrappers
  import opened Counter
  import opened Markers
  import opened Hooks
  import opened AccountingRuns
  import opened Isolation
  import opened ScanFailures
  import Names
  import Text

  /** The number that a byte count of the environment denotes; texts that are no 64-bit number count as none. */
  predicate Denotes(v: string, n: nat) {
    var s := Text.TrimSpace(v);
    if Text.AllDigits(s) && Text.Value(s, 10) < 0x1_0000_0000_0000_0000 then n == Text.Value(s, 10) else n == 0
  }

  function BytesOf(s: Option<UsageSession>): nat { if s.Some? then s.value.bytes else 0 }

  /** The bytes of a session once it is closed with a last count: a closed session keeps its own. */
  function FinalBytes(s: Option<UsageSession>, last: nat): nat {
    if s.Some? && s.value.closed then s.value.bytes else if BytesOf(s) < last then last else BytesOf(s)
  }

  /** There is room in the total for what a closing call would add. */
  predicate Fits(files: Files, cn: string, id: string, last: nat) {
    TotalOf(files, cn) + FinalBytes(EntryOf(files, cn, id), last) - BytesOf(EntryOf(files, cn, id)) < 0x1_0000_0000_0000_0000
  }

  /** The entry of id is closed with its final bytes, and the total has grown by what they add. */
  predicate ClosedWith(before: Files, after: Files, cn: string, id: string, last: nat) {
    var prior, entry := EntryOf(before, cn, id), EntryOf(after, cn, id);
    && entry.Some? && entry.value.closed && entry.value.bytes == FinalBytes(prior, last)
    && TotalOf(after, cn) == TotalOf(before, cn) + FinalBytes(prior, last) - BytesOf(prior)
  }

  lemma RecordStateCloses(st: UsageState, id: string, last: u64)
    ensures var prior := EntryIn(Ok(st), id);
      var room := st.total + FinalBytes(prior, last) - BytesOf(prior) < U64;
      var r := RecordState(st, id, last, true);
      && (r.Some? <==> room)
      && (r.Some? ==>
            && EntryIn(Ok(r.value), id).Some? && EntryIn(Ok(r.value), id).value.closed
            && EntryIn(Ok(r.value), id).value.bytes == FinalBytes(prior, last)
            && r.value.total == st.total + FinalBytes(prior, last) - BytesOf(prior))
  {
  }

  lemma EntryAnyEpoch(files: Files, cn: string, id: string, epoch: string)
    requires ReadFile(files, cn, "").Ok?
    ensures ReadFile(files, cn, epoch).Ok?
    ensures var st := Upgraded(ReadFile(files, cn, epoch).value, epoch);
      EntryIn(Ok(st), id) == EntryOf(files, cn, id) && st.total == TotalOf(files, cn)
  {
    hide ReadFile;
    EpochIsApart(files, cn, epoch);
  }

  lemma RecordGoesThrough(files: Files, cn: string, id: string, last: u64, epoch: string)
    requires Names.SafeCN(cn) == Some(cn) && id != "" && ReadFile(files, cn, epoch).Ok?
    ensures var st := RecordState(Upgraded(ReadFile(files, cn, epoch).value, epoch), id, last, true);
      var (files', r) := Record(files, cn, id, last, true, epoch, WORKING);
      (r.Ok? <==> st.Some?) && (r.Err? ==> files' == files)
  {
    hide RecordState, ReadFile, Encode, Upgraded, Names.SafeCN, Names.StoreKey, Text.TrimSpace;
  }

  /** A closing call on a readable counter with a working disk. */
  lemma RecordCloses(files: Files, cn: string, id: string, last: u64, epoch: string)
    requires Names.SafeCN(cn) == Some(cn) && id != "" && epoch != "" && ReadFile(files, cn, "").Ok?
    ensures var (files', r) := Record(files, cn, id, last, true, epoch, WORKING);
      && (r.Ok? <==> Fits(files, cn, id, last))
      && (r.Ok? ==> ClosedWith(files, files', cn, id, last))
      && (r.Err? ==> files' == files)
  {
    hide RecordState, ReadFile, Record, EntryIn, Upgraded, FinalBytes, BytesOf, TotalOf, Names.SafeCN, Names.StoreKey,
      Text.TrimSpace, Encode;
    EntryAnyEpoch(files, cn, id, epoch);
    RecordStateCloses(Upgraded(ReadFile(files, cn, epoch).value, epoch), id, last);
    RecordGoesThrough(files, cn, id, last, epoch);
    var (files', r) := Record(files, cn, id, last, true, epoch, WORKING);
    if r.Ok? {
      RecordedIs(files, cn, id, last, epoch, WORKING);
      ReadTotal(files', cn);
    }
  }

  lemma ReadTotal(files: Files, cn: string)
    requires ReadFile(files, cn, "").Ok?
    ensures TotalOf(files, cn) == ReadFile(files, cn, "").value.total
  {
    hide ReadFile;
  }

  // ----- the disconnect of a connection closes its session ---------------------------------------------

  /** Nothing that the disconnect d knows speaks against the connect c: start, address and port are the same
      or missing. */
  predicate SameConnection(c: AccountingRuns.Step, d: Env)
    requires c.Connecting?
  {
    && (StartIn(d.timeUnix).None? || StartIn(d.timeUnix).value == StartOf(c))
    && (d.trustedIP == "" || c.e.trustedIP == "" || d.trustedIP == c.e.trustedIP)
    && (d.trustedPort == "" || c.e.trustedPort == "" || d.trustedPort == c.e.trustedPort)
  }

  /** The file system lets the hook do all it wants with the marker file f. */
  predicate Works(x: Faults, f: string) {
    x.dirOk && x.lockOk && x.writeOk && x.usage == WORKING && f !in x.stuck && f !in x.unseen && f !in x.unread
  }

  lemma StoreKeyAcceptable(cn: string)
    requires Names.StoreKey(cn)
    ensures Acceptable(cn) && cn != "" && Names.SafeCN(cn) == Some(cn)
  {
  }

  lemma DenotesCounter(v: string, n: nat)
    requires Denotes(v, n)
    ensures ByteCounter(v) == n
  {
    hide Text.TrimSpace, Text.Value, Text.AllDigits;
  }

  /** A disconnect that its marker accepts. */
  lemma MatchedDisconnect(n: Node, d: Env, arg: string, epoch: string, x: Faults, rx: nat, tx: nat)
    requires Names.StoreKey(HookCN(d, arg)) && epoch != "" && Denotes(d.bytesReceived, rx) && Denotes(d.bytesSent, tx)
    requires var f := HookKey(HookCN(d, arg), d);
      && f in n.sessions && Works(x, f) && MarkerId(n.sessions[f], f) != ""
      && DisconnectMatches(n.sessions[f], f, d.trustedIP, d.trustedPort, KnownStart(d.timeUnix))
    requires ReadFile(n.usage, HookCN(d, arg), "").Ok?
    ensures var cn, f, n' := HookCN(d, arg), HookKey(HookCN(d, arg), d), DisconnectStep(n, d, arg, epoch, x);
      var id, last := MarkerId(n.sessions[f], f), (rx + tx) % 0x1_0000_0000_0000_0000;
      if Fits(n.usage, cn, id, last)
      then n'.sessions == n.sessions - {f} && ClosedWith(n.usage, n'.usage, cn, id, last)
      else n' == n
  {
    hide *;
    var cn, f := HookCN(d, arg), HookKey(HookCN(d, arg), d);
    var id, last := MarkerId(n.sessions[f], f), Wrapped(rx, tx);
    StoreKeyAcceptable(cn);
    ClosingStep(n, d, arg, epoch, x, rx, tx);
    RecordCloses(n.usage, cn, id, last, epoch);
  }

  /** The sum of two counts in 64-bit arithmetic. */
  function Wrapped(rx: nat, tx: nat): (n: u64)
    ensures n == (rx + tx) % 0x1_0000_0000_0000_0000
  {
    (rx + tx) % U64
  }

  /** Such a disconnect makes one closing call, and removes the marker if it goes through. */
  lemma ClosingStep(n: Node, d: Env, arg: string, epoch: string, x: Faults, rx: nat, tx: nat)
    requires Names.StoreKey(HookCN(d, arg)) && Denotes(d.bytesReceived, rx) && Denotes(d.bytesSent, tx)
    requires var f := HookKey(HookCN(d, arg), d);
      && f in n.sessions && Works(x, f)
      && DisconnectMatches(n.sessions[f], f, d.trustedIP, d.trustedPort, KnownStart(d.timeUnix))
    ensures var cn, f, n' := HookCN(d, arg), HookKey(HookCN(d, arg), d), DisconnectStep(n, d, arg, epoch, x);
      var (files, r) := Record(n.usage, cn, MarkerId(n.sessions[f], f), Wrapped(rx, tx), true, epoch, WORKING);
      if r.Ok? then n'.sessions == n.sessions - {f} && n'.usage == files else n' == n
  {
    hide *;
    StoreKeyAcceptable(HookCN(d, arg));
    DenotesCounter(d.bytesReceived, rx);
    DenotesCounter(d.bytesSent, tx);
    WrappedIs(rx, tx);
    StepWithBytes(n, d, arg, epoch, x, Wrapped(rx, tx));
  }

  lemma WrappedIs(rx: u64, tx: u64)
    ensures Wrapped(rx, tx) == WrapAdd(rx, tx)
  {
  }

  lemma StepWithBytes(n: Node, d: Env, arg: string, epoch: string, x: Faults, last: u64)
    requires Acceptable(HookCN(d, arg)) && HookCN(d, arg) != "" && last == WrapAdd(ByteCounter(d.bytesReceived), ByteCounter(d.bytesSent))
    requires var f := HookKey(HookCN(d, arg), d);
      && f in n.sessions && Works(x, f)
      && DisconnectMatches(n.sessions[f], f, d.trustedIP, d.trustedPort, KnownStart(d.timeUnix))
    ensures var cn, f, n' := HookCN(d, arg), HookKey(HookCN(d, arg), d), DisconnectStep(n, d, arg, epoch, x);
      var (files, r) := Record(n.usage, cn, MarkerId(n.sessions[f], f), last, true, epoch, WORKING);
      if r.Ok? then n'.sessions == n.sessions - {f} && n'.usage == files else n' == n
  {
    hide DisconnectMatches, MarkerId, HookKey, HookCN, Acceptable, ByteCounter, KnownStart, Record, WithoutLegacy, WrapAdd;
  }

  lemma SameIsNotDifferent(c: AccountingRuns.Step, d: Env)
    requires c.Connecting?
    ensures SameConnection(c, d) <==> !ProvablyDifferent(c, d)
  {
    hide StartIn, StartOf;
  }

  /** MAIN: in every run, take a marker that connect i installed and a disconnect of the same user at its key that
      nothing tells apart from connect i. On a working disk it removes the marker, closes the session that connect
      i drew with the larger of the bytes counted so far and the two counts of its environment, and adds just what
      is new to the total; if the total has no room for that, it changes nothing. */
  lemma OwnDisconnectCloses(ns: seq<Node>, ss: seq<AccountingRuns.Step>, i: nat, k: nat, f: string, rx: nat, tx: nat)
    requires IsRun(ns, ss) && i < |ss| && k < |ss| && ss[i].Connecting? && ss[k].Disconnecting?
    requires f in ns[k].sessions && Installs(ss[i], f, ns[k].sessions[f])
    requires f == HookKey(HookCN(ss[k].e, ss[k].arg), ss[k].e) && Works(ss[k].x, f)
    requires Names.StoreKey(HookCN(ss[k].e, ss[k].arg)) && SameConnection(ss[i], ss[k].e)
    requires Denotes(ss[k].e.bytesReceived, rx) && Denotes(ss[k].e.bytesSent, tx)
    requires ReadFile(ns[k].usage, HookCN(ss[k].e, ss[k].arg), "").Ok?
    ensures var cn, id, last := HookCN(ss[k].e, ss[k].arg), f + "." + ss[i].a.gen, (rx + tx) % 0x1_0000_0000_0000_0000;
      if Fits(ns[k].usage, cn, id, last)
      then ns[k + 1].sessions == ns[k].sessions - {f} && ClosedWith(ns[k].usage, ns[k + 1].usage, cn, id, last)
      else ns[k + 1] == ns[k]
  {
    assert StepAt(ns, ss, i) && StepAt(ns, ss, k);
    hide IsRun, Regular, Next, Installs, SameConnection, Denotes, Works, Fits, ClosedWith, ReadFile, HookKey, HookCN, MarkerId,
      DisconnectMatches, KnownStart, ProvablyDifferent, Names.StoreKey;
    DisconnectIsRegular(ns[k], ss[k]);
    InstalledEvidence(ns[i], ss[i], f, ns[k].sessions[f]);
    SameIsNotDifferent(ss[i], ss[k].e);
    MatchedExactly(ns[i], ss[i], f, ns[k].sessions[f], ss[k].e);
    MatchedDisconnect(ns[k], ss[k].e, ss[k].arg, ss[k].epoch, ss[k].x, rx, tx);
  }

  /** MAIN: so does any disconnect that finds a marker of the time before generations under its key. */
  lemma LegacyDisconnectCloses(n: Node, d: Env, arg: string, epoch: string, x: Faults, rx: nat, tx: nat)
    requires Names.StoreKey(HookCN(d, arg)) && epoch != "" && Denotes(d.bytesReceived, rx) && Denotes(d.bytesSent, tx)
    requires var f := HookKey(HookCN(d, arg), d);
      f in n.sessions && Works(x, f) && !HasGeneration(if n.sessions[f].sessionID != "" then n.sessions[f].sessionID else f)
    requires ReadFile(n.usage, HookCN(d, arg), "").Ok?
    ensures var cn, f, n' := HookCN(d, arg), HookKey(HookCN(d, arg), d), DisconnectStep(n, d, arg, epoch, x);
      var id := if n.sessions[f].sessionID != "" then n.sessions[f].sessionID else f;
      var last := (rx + tx) % 0x1_0000_0000_0000_0000;
      if Fits(n.usage, cn, id, last)
      then n'.sessions == n.sessions - {f} && ClosedWith(n.usage, n'.usage, cn, id, last)
      else n' == n
  {
    hide Denotes, HookKey, HookCN, KnownStart, Fits, ClosedWith, ReadFile, Names.StoreKey, DisconnectStep, HasGeneration;
    MatchedDisconnect(n, d, arg, epoch, x, rx, tx);
  }
}
