/** Runs of the hooks, the poll and the purge against the history of one user's counter: no session id comes
    back after its receipt was dropped, so every session is counted exactly once. */
module HookHistory {
  import opened Wrappers
  import opened Counter
  import opened CounterHistory
  import opened Hooks
  import opened AccountingRuns
  import opened HookCalls
  import opened Isolation
  import opened Sums
  import Markers
  import Names
  import Text

  // ----- which calls a step makes --------------------------------------------------------------------

  /** Only the two retiring steps prune, and they do nothing else; no step resets. */
  predicate OfKind(s: AccountingRuns.Step, op: Op) {
    if s.Retiring? || s.Sweeping? then op.PruneTo? else op.Rec? || op.BankBy?
  }

  lemma InOn(o: string, cn: string, c: Call, d: Call)
    requires d in On(o, cn, c)
    ensures d == c && Names.SafeCN(o) == Some(cn)
  {
    hide Names.SafeCN;
  }

  /** The call books a row of the poll. */
  predicate BooksRow(c: Call, row: Row, o: string, cands: seq<Candidate>, updatedAt: int, epoch: string, cn: string) {
    && c.op.Rec? && !c.op.closed && c.epoch == epoch
    && RowId(row, cands, updatedAt) == Some(c.op.id) && Names.SafeCN(o) == Some(cn)
  }

  lemma {:induction false} BookCallOrigin(usage: Files, o: string, cands: seq<Candidate>, rows: seq<Row>, updatedAt: int,
                                          epoch: string, disk: Disk, cn: string, c: Call) returns (row: Row)
    requires c in BookCalls(usage, o, cands, rows, updatedAt, epoch, disk, cn)
    ensures row in rows && BooksRow(c, row, o, cands, updatedAt, epoch, cn)
    decreases |rows|
  {
    hide Record, RowId, On, Names.SafeCN;
    match RowId(rows[0], cands, updatedAt)
    case None => row := BookCallOrigin(usage, o, cands, rows[1..], updatedAt, epoch, disk, cn, c);
    case Some(id) =>
      var usage' := Record(usage, o, id, WrapAdd(rows[0].bytesReceived, rows[0].bytesSent), false, epoch, disk).0;
      var first := BookingCall(rows[0], id, epoch, disk);
      if c in On(o, cn, first) {
        InOn(o, cn, first, c);
        row := rows[0];
      } else {
        row := BookCallOrigin(usage', o, cands, rows[1..], updatedAt, epoch, disk, cn, c);
      }
  }

  lemma {:induction false} RetireCallKind(usage: Files, present: Presence, order: seq<string>, failing: set<string>, cn: string,
                                          c: Call)
    requires c in RetireCalls(usage, present, order, failing, cn)
    ensures c.op.PruneTo?
    decreases |order|
  {
    hide Prune, On, PresentIn;
    var first := PruneCall(order[0], present, failing);
    if c in On(order[0], cn, first) { InOn(order[0], cn, first, c); }
    else {
      var usage' := Prune(usage, order[0], PresentIn(present, order[0]), PruneDisk(order[0], failing)).0;
      RetireCallKind(usage', present, order[1..], failing, cn, c);
    }
  }

  lemma {:induction false} SweepCallKind(present: Presence, order: seq<string>, failing: set<string>, cn: string, c: Call)
    requires c in SweepCalls(present, order, failing, cn)
    ensures c.op.PruneTo?
    decreases |order|
  {
    hide On, PresentIn;
    var first := PruneCall(order[0], present, failing);
    if c in On(order[0], cn, first) { InOn(order[0], cn, first, c); }
    else { SweepCallKind(present, order[1..], failing, cn, c); }
  }

  lemma HookCallKind(n: Node, e: Env, arg: string, a: Arrival, epoch: string, x: Faults, cn: string, c: Call)
    requires c in ConnectCalls(n, e, arg, a, epoch, x, cn) || c in DisconnectCalls(n, e, arg, epoch, x, cn)
    ensures c.op.Rec? && c.epoch == epoch
  {
    hide HookKey, HookCN, Allowed, ReachesCounter, Names.SafeCN, PoolBytes, LiveRows, Names.StoreKey, MarkerId, ByteCounter;
  }

  lemma EffectKind(n: Node, s: AccountingRuns.Step, cn: string, c: Call)
    requires c in Effects(n, s, cn) && Regular(n, s)
    ensures OfKind(s, c.op) && (c.op.Rec? || c.op.BankBy? ==> c.epoch != "")
  {
    hide ConnectCalls, DisconnectCalls, BookCalls, RetireCalls, SweepCalls, Candidates, PollPresence, PurgePresence, AllReadable,
      Seen, Names.SafeCN, NewMarker, AllTrimmed, Names.StoreKey, RowId, On;
    match s
    case Connecting(e, arg, a, epoch, x) => HookCallKind(n, e, arg, a, epoch, x, cn, c);
    case Disconnecting(e, arg, epoch, x) =>
      HookCallKind(n, e, arg, Arrival(true, None, [], Verified, 0, ""), epoch, x, cn, c);
    case Booking(o, listing, rows, updatedAt, epoch, disk) =>
      var _ := BookCallOrigin(n.usage, o, Candidates(n.sessions, listing, o), rows, updatedAt, epoch, disk, cn, c);
    case Retiring(live, read, order, failing) =>
      RetireCallKind(n.usage, PollPresence(Seen(n.sessions, read), live, order), order, failing, cn, c);
    case Sweeping(rescan, order, failing) =>
      SweepCallKind(PurgePresence(Seen(n.sessions, rescan.value), order), order, failing, cn, c);
    case Banking(o, delta, epoch, disk) => InOn(o, cn, Call(BankBy(delta), epoch, disk), c);
  }

  // ----- the ids that a step records --------------------------------------------------------------------

  /** A marker file that a hook finds under its own key belongs to the hook's user. */
  predicate OwnKey(n: Node, s: AccountingRuns.Step) {
    s.Connecting? || s.Disconnecting? ==>
      var key := HookKey(HookCN(s.e, s.arg), s.e);
      key in n.sessions ==> n.sessions[key].commonName == HookCN(s.e, s.arg)
  }

  ghost predicate FromMarker(n: Node, cn: string, id: string) { exists f :: Carries(n.sessions, f, cn, id) }

  predicate FromRow(s: AccountingRuns.Step, id: string) { s.Booking? && exists r :: r in s.rows && DerivedId(r) == id }

  lemma KeyIsVisible(cn: string, e: Env)
    requires Names.StoreKey(cn)
    ensures Visible(HookKey(cn, e))
  {
    hide HookKey;
    KeyIsNamed(cn, e);
    assert HookKey(cn, e)[0] == cn[0] != '.';
  }

  lemma KeyCarries(n: Node, e: Env, arg: string, cn: string)
    requires HookKey(HookCN(e, arg), e) in n.sessions && Names.StoreKey(cn) && cn == HookCN(e, arg)
    requires n.sessions[HookKey(cn, e)].commonName == cn
    ensures var key := HookKey(cn, e); FromMarker(n, cn, MarkerId(n.sessions[key], key))
  {
    hide HookKey, HookCN, MarkerId, Visible, Names.StoreKey;
    var key := HookKey(cn, e);
    KeyIsVisible(cn, e);
    assert Carries(n.sessions, key, cn, MarkerId(n.sessions[key], key));
  }

  lemma AcceptableIsExact(o: string, cn: string)
    requires Acceptable(o) && Names.SafeCN(o) == Some(cn)
    ensures o == cn && Names.StoreKey(cn)
  {
  }

  /** What closes is the session of a marker on disk. */
  lemma ClosingEffect(n: Node, s: AccountingRuns.Step, cn: string, c: Call) returns (f: string)
    requires c in Effects(n, s, cn) && c.op.Rec? && c.op.closed && Regular(n, s)
    ensures HasId(n, f, c.op.id)
  {
    hide BookCalls, RetireCalls, SweepCalls, Candidates, PollPresence, PurgePresence, AllReadable, Seen, HookKey, HookCN,
      Acceptable, DisconnectMatches, Names.SafeCN, PoolBytes, LiveRows, NewMarker, AllTrimmed, Names.StoreKey, Admits, ByteCounter,
      KnownStart, Regular, On;
    EffectKind(n, s, cn, c);
    match s
    case Connecting(e, arg, a, epoch, x) =>
      f := HookKey(HookCN(e, arg), e);
      InConnectCalls(n, e, arg, a, epoch, x, cn, c);
    case Disconnecting(e, arg, epoch, x) =>
      f := HookKey(HookCN(e, arg), e);
      InDisconnectCalls(n, e, arg, epoch, x, cn, c);
    case Booking(o, listing, rows, updatedAt, epoch, disk) =>
      var _ := BookCallOrigin(n.usage, o, Candidates(n.sessions, listing, o), rows, updatedAt, epoch, disk, cn, c);
      f := "";
    case Banking(o, delta, epoch, disk) =>
      InOn(o, cn, Call(BankBy(delta), epoch, disk), c);
      f := "";
  }

  lemma InConnectCalls(n: Node, e: Env, arg: string, a: Arrival, epoch: string, x: Faults, cn: string, c: Call)
    requires c in ConnectCalls(n, e, arg, a, epoch, x, cn)
    ensures var key := HookKey(HookCN(e, arg), e);
      && key in n.sessions && c.op.Rec? && c.op.id == MarkerId(n.sessions[key], key)
      && HookCN(e, arg) == cn && Names.StoreKey(cn)
  {
    hide HookKey, HookCN, Acceptable, Names.SafeCN, PoolBytes, LiveRows, Names.StoreKey, Admits, On;
    var key := HookKey(HookCN(e, arg), e);
    var bytes := PoolBytes(LiveRows(a.rows, HookCN(e, arg)), e.poolIP).value;
    InOn(HookCN(e, arg), cn, ClosingCall(n.sessions[key].sessionID, bytes, epoch, x.usage), c);
    AcceptableIsExact(HookCN(e, arg), cn);
  }

  lemma InDisconnectCalls(n: Node, e: Env, arg: string, epoch: string, x: Faults, cn: string, c: Call)
    requires c in DisconnectCalls(n, e, arg, epoch, x, cn)
    ensures var key := HookKey(HookCN(e, arg), e);
      && key in n.sessions && c.op.Rec? && c.op.id == MarkerId(n.sessions[key], key)
      && HookCN(e, arg) == cn && Names.StoreKey(cn)
  {
    hide HookKey, HookCN, Acceptable, DisconnectMatches, Names.SafeCN, Names.StoreKey, On, MarkerId, ByteCounter, KnownStart;
    var key := HookKey(HookCN(e, arg), e);
    InOn(HookCN(e, arg), cn, ClosingCall(MarkerId(n.sessions[key], key),
                                         WrapAdd(ByteCounter(e.bytesReceived), ByteCounter(e.bytesSent)), epoch, x.usage), c);
    AcceptableIsExact(HookCN(e, arg), cn);
  }

  lemma {:induction false} CandidateOrigin(s: Sessions, listing: seq<string>, o: string, i: nat) returns (f: string)
    requires i < |Candidates(s, listing, o)|
    ensures f in s && Visible(f) && Candidates(s, listing, o)[i] == ToCandidate(f, s[f])
    ensures Candidates(s, listing, o)[i].commonName == o
    decreases |listing|
  {
    hide ToCandidate, Visible;
    var front := Candidates(s, listing[..|listing| - 1], o);
    if i < |front| { f := CandidateOrigin(s, listing[..|listing| - 1], o, i); }
    else { f := listing[|listing| - 1]; }
  }

  /** A visible marker named after its user is attributed to that user. */
  lemma NamedCandidate(s: Sessions, f: string)
    requires f in s && NamedAfterUser(f, s[f]) && Visible(f)
    ensures ToCandidate(f, s[f]).commonName == s[f].commonName
  {
    assert "" + "." == ".";
  }

  lemma TrimmedSafe(o: string, cn: string)
    requires Text.TrimSpace(o) == o && Names.SafeCN(o) == Some(cn)
    ensures o == cn
  {
  }

  lemma BookedId(n: Node, o: string, listing: seq<string>, row: Row, updatedAt: int, cn: string, id: string)
    requires AllNamed(n.sessions) && TrimmedNames(n.sessions) && Names.SafeCN(o) == Some(cn)
    requires RowId(row, Candidates(n.sessions, listing, o), updatedAt) == Some(id)
    ensures FromMarker(n, cn, id) || id == DerivedId(row)
  {
    hide Candidates, Choose, Names.SafeCN, Text.TrimSpace, Visible, NamedAfterUser, MarkerId;
    var cands := Candidates(n.sessions, listing, o);
    if Choose(row, cands, updatedAt).Some? {
      var f := CandidateOrigin(n.sessions, listing, o, Choose(row, cands, updatedAt).value);
      NamedIn(n.sessions, f);
      NamedCandidate(n.sessions, f);
      TrimmedSafe(o, cn);
      assert Carries(n.sessions, f, cn, id);
    }
  }

  /** What a step records for cn is the session of a marker of cn, or an open session named by its row. */
  lemma RecordingEffect(n: Node, s: AccountingRuns.Step, cn: string, c: Call)
    requires c in Effects(n, s, cn) && c.op.Rec? && Regular(n, s)
    requires AllNamed(n.sessions) && TrimmedNames(n.sessions) && OwnKey(n, s)
    ensures FromMarker(n, cn, c.op.id) || FromRow(s, c.op.id)
  {
    hide BookCalls, RetireCalls, SweepCalls, ConnectCalls, DisconnectCalls, Candidates, PollPresence, PurgePresence, AllReadable,
      Seen, Names.SafeCN, AllNamed, TrimmedNames, FromMarker, Regular, On, OwnKey, DerivedId, RowId;
    EffectKind(n, s, cn, c);
    match s
    case Connecting(_, _, _, _, _) =>
      InConnectCalls(n, s.e, s.arg, s.a, s.epoch, s.x, cn, c);
      OwnKeyCarries(n, s, cn, c.op.id);
    case Disconnecting(_, _, _, _) =>
      InDisconnectCalls(n, s.e, s.arg, s.epoch, s.x, cn, c);
      OwnKeyCarries(n, s, cn, c.op.id);
    case Booking(o, listing, rows, updatedAt, epoch, disk) =>
      var row := BookCallOrigin(n.usage, o, Candidates(n.sessions, listing, o), rows, updatedAt, epoch, disk, cn, c);
      BookedId(n, o, listing, row, updatedAt, cn, c.op.id);
    case Banking(o, delta, epoch, disk) => InOn(o, cn, Call(BankBy(delta), epoch, disk), c);
  }

  lemma OwnKeyCarries(n: Node, s: AccountingRuns.Step, cn: string, id: string)
    requires (s.Connecting? || s.Disconnecting?) && OwnKey(n, s) && HookCN(s.e, s.arg) == cn && Names.StoreKey(cn)
    requires var key := HookKey(cn, s.e); key in n.sessions && id == MarkerId(n.sessions[key], key)
    ensures FromMarker(n, cn, id)
  {
    hide HookKey, HookCN, MarkerId, FromMarker, Names.StoreKey;
    KeyCarries(n, s.e, s.arg, cn);
  }

  // ----- the calls of a run ------------------------------------------------------------------------------

  /** The calls that the first j steps make on the counter of cn. */
  function CallsOf(ns: seq<Node>, ss: seq<AccountingRuns.Step>, j: nat, cn: string): seq<Call>
    requires |ns| == |ss| + 1 && j < |ns|
  {
    if j == 0 then [] else CallsOf(ns, ss, j - 1, cn) + Effects(ns[j - 1], ss[j - 1], cn)
  }

  /** The history of the counter after j steps. */
  function WorldAt(ns: seq<Node>, ss: seq<AccountingRuns.Step>, j: nat, cn: string, base: u64): World
    requires |ns| == |ss| + 1 && j < |ns|
  {
    Play(base, "", Ops(CallsOf(ns, ss, j, cn)))
  }

  /** A counter that does not exist yet, or a legacy one. */
  predicate StartsAt(files: Files, cn: string, base: u64) {
    if cn in files then files[cn] == Digits(base) else base == 0
  }

  /** A run, seen from the counter of cn. */
  predicate Started(ns: seq<Node>, ss: seq<AccountingRuns.Step>, cn: string, base: u64) {
    IsRun(ns, ss) && Names.StoreKey(cn) && StartsAt(ns[0].usage, cn, base)
  }

  lemma StartedIsRun(ns: seq<Node>, ss: seq<AccountingRuns.Step>, cn: string, base: u64)
    requires Started(ns, ss, cn, base)
    ensures IsRun(ns, ss) && |ns| == |ss| + 1 && Names.StoreKey(cn) && Names.SafeCN(cn) == Some(cn)
  {
    hide StepAt, StartsAt;
  }

  lemma {:induction false} RunIsCalls(ns: seq<Node>, ss: seq<AccountingRuns.Step>, j: nat, cn: string)
    requires IsRun(ns, ss) && j < |ns| && Names.StoreKey(cn)
    ensures SameFile(ns[j].usage, PerformAll(ns[0].usage, cn, CallsOf(ns, ss, j, cn)), cn)
  {
    hide SameFile, PerformAll, Effects, Next, Regular, Names.StoreKey;
    if j == 0 {
      NoCalls(ns[0].usage, cn);
    } else {
      RunIsCalls(ns, ss, j - 1, cn);
      assert StepAt(ns, ss, j - 1);
      StepIsCalls(ns[j - 1], ss[j - 1], cn);
      ThenRest(ns[0].usage, ns[j - 1].usage, ns[j].usage, cn, CallsOf(ns, ss, j - 1, cn), Effects(ns[j - 1], ss[j - 1], cn));
    }
  }

  lemma CallOrigin(ns: seq<Node>, ss: seq<AccountingRuns.Step>, j: nat, cn: string, c: Call) returns (k: nat)
    requires |ns| == |ss| + 1 && j < |ns| && c in CallsOf(ns, ss, j, cn)
    ensures k < j && c in Effects(ns[k], ss[k], cn)
  {
    hide Effects;
    if c in CallsOf(ns, ss, j - 1, cn) { k := CallOrigin(ns, ss, j - 1, cn, c); } else { k := j - 1; }
  }

  /** Every call of a run is of its step's kind. */
  lemma CallKind(ns: seq<Node>, ss: seq<AccountingRuns.Step>, j: nat, cn: string, c: Call)
    requires IsRun(ns, ss) && j < |ns| && c in CallsOf(ns, ss, j, cn)
    ensures !c.op.ResetTo? && (c.op.Rec? || c.op.BankBy? ==> c.epoch != "")
  {
    hide Effects, Next, Regular, CallsOf;
    var k := CallOrigin(ns, ss, j, cn, c);
    assert StepAt(ns, ss, k);
    EffectKind(ns[k], ss[k], cn, c);
  }

  /** MAIN: over every run, the counter file follows the history of the calls that the steps make. */
  lemma RunFollowsHistory(ns: seq<Node>, ss: seq<AccountingRuns.Step>, j: nat, cn: string, base: u64)
    requires Started(ns, ss, cn, base) && j < |ns|
    ensures Stores(ns[j].usage, cn, WorldAt(ns, ss, j, cn, base).st)
  {
    hide *;
    StartedIsRun(ns, ss, cn, base);
    var calls := CallsOf(ns, ss, j, cn);
    RunEpochs(ns, ss, j, cn);
    StartIs(ns, ss, cn, base);
    FilesFollowPlay(ns[0].usage, cn, base, calls);
    RunIsCalls(ns, ss, j, cn);
    SameStores(PerformAll(ns[0].usage, cn, calls), ns[j].usage, cn, Play(base, "", Ops(calls)).st);
    WorldIs(ns, ss, j, cn, base);
  }

  lemma WorldIs(ns: seq<Node>, ss: seq<AccountingRuns.Step>, j: nat, cn: string, base: u64)
    requires |ns| == |ss| + 1 && j < |ns|
    ensures WorldAt(ns, ss, j, cn, base) == Play(base, "", Ops(CallsOf(ns, ss, j, cn)))
  {
  }

  lemma StartIs(ns: seq<Node>, ss: seq<AccountingRuns.Step>, cn: string, base: u64)
    requires Started(ns, ss, cn, base) && Names.SafeCN(cn) == Some(cn)
    ensures ns != []
    ensures var files, safe := ns[0].usage, Names.SafeCN(cn).value; if safe in files then files[safe] == Digits(base) else base == 0
  {
    hide StepAt, Names.SafeCN, Names.StoreKey;
  }

  lemma RunEpochs(ns: seq<Node>, ss: seq<AccountingRuns.Step>, j: nat, cn: string)
    requires IsRun(ns, ss) && j < |ns|
    ensures GoodEpochs(CallsOf(ns, ss, j, cn))
  {
    assert |ns| == |ss| + 1;
    hide CallsOf, IsRun;
    forall c | c in CallsOf(ns, ss, j, cn) ensures !c.op.ResetTo? && (c.op.Rec? || c.op.BankBy? ==> c.epoch != "") {
      CallKind(ns, ss, j, cn, c);
    }
  }

  lemma SameStores(a: Files, b: Files, cn: string, st: UsageState)
    requires SameFile(b, a, cn) && Names.SafeCN(cn) == Some(cn) && Stores(a, cn, st)
    ensures Stores(b, cn, st)
  {
    SameReply(a, b, cn);
    hide ReadFile, SameFile, Names.SafeCN;
  }

  lemma SameReply(a: Files, b: Files, cn: string)
    requires SameFile(b, a, cn)
    ensures ReadFile(a, cn, "") == ReadFile(b, cn, "")
  {
    hide WithMarkerKeys;
  }

  lemma ClosedIsLogged(ns: seq<Node>, ss: seq<AccountingRuns.Step>, j: nat, cn: string, base: u64, id: string)
    requires Started(ns, ss, cn, base) && j < |ns|
    ensures ClosedIn(ns[j].usage, cn, id) <==> IsClosed(WorldAt(ns, ss, j, cn, base).log, id)
  {
    hide *;
    StartedIsRun(ns, ss, cn, base);
    RunFollowsHistory(ns, ss, j, cn, base);
    SessionsMatchAlways(base, "", Ops(CallsOf(ns, ss, j, cn)));
    WorldIs(ns, ss, j, cn, base);
    StoredIsLogged(ns[j].usage, cn, WorldAt(ns, ss, j, cn, base), id);
  }

  lemma StoredIsLogged(files: Files, cn: string, w: World, id: string)
    requires Names.StoreKey(cn) && Names.SafeCN(cn) == Some(cn) && Stores(files, cn, w.st) && SessionsMatch(w.st, w.log)
    ensures ClosedIn(files, cn, id) <==> IsClosed(w.log, id)
  {
    hide ReadFile, IsClosed, High, Names.StoreKey, Names.SafeCN;
    assert SessionMatches(w.st, w.log, id);
  }

  // ----- how a step extends the log ------------------------------------------------------------------------

  predicate FromCalls(op: Op, calls: seq<Call>) { exists c :: c in calls && c.op == op }

  /** l' extends l by operations of the calls. */
  predicate Extends(l: seq<Op>, l': seq<Op>, calls: seq<Call>) {
    l <= l' && forall i :: |l| <= i < |l'| ==> FromCalls(l'[i], calls)
  }

  lemma {:induction false} OpsConcat(a: seq<Call>, b: seq<Call>)
    ensures Ops(a + b) == Ops(a) + Ops(b)
    ensures forall op :: op in Ops(b) ==> FromCalls(op, b)
  {
    hide Arrives;
    if b == [] {
      assert a + b == a;
    } else {
      var b0, c := b[..|b| - 1], b[|b| - 1];
      assert (a + b)[..|a + b| - 1] == a + b0 && (a + b)[|a + b| - 1] == c;
      OpsConcat(a, b0);
      forall op | op in Ops(b) ensures FromCalls(op, b) {
        if op in Ops(b0) { var d :| d in b0 && d.op == op; assert d in b; } else { assert c in b && c.op == op; }
      }
    }
  }

  lemma {:induction false} PlayGrows(base: u64, a: seq<Op>, b: seq<Op>)
    ensures var l, l' := Play(base, "", a).log, Play(base, "", a + b).log;
      l <= l' && forall i :: |l| <= i < |l'| ==> l'[i] in b
  {
    hide Apply;
    if b == [] {
      assert a + b == a;
    } else {
      var b0 := b[..|b| - 1];
      assert (a + b)[..|a + b| - 1] == a + b0 && (a + b)[|a + b| - 1] == b[|b| - 1];
      PlayGrows(base, a, b0);
    }
  }

  lemma LogGrows(ns: seq<Node>, ss: seq<AccountingRuns.Step>, j: nat, cn: string, base: u64)
    requires |ns| == |ss| + 1 && j < |ss|
    ensures Extends(WorldAt(ns, ss, j, cn, base).log, WorldAt(ns, ss, j + 1, cn, base).log, Effects(ns[j], ss[j], cn))
  {
    hide Play, Ops, Effects, FromCalls;
    OpsConcat(CallsOf(ns, ss, j, cn), Effects(ns[j], ss[j], cn));
    PlayGrows(base, Ops(CallsOf(ns, ss, j, cn)), Ops(Effects(ns[j], ss[j], cn)));
  }

  /** Every operation in the log of a run is a call of one of its steps. */
  lemma {:induction false} LogOrigin(ns: seq<Node>, ss: seq<AccountingRuns.Step>, j: nat, cn: string, base: u64, p: nat)
    returns (k: nat, c: Call)
    requires |ns| == |ss| + 1 && j < |ns| && p < |WorldAt(ns, ss, j, cn, base).log|
    ensures k < j && c in Effects(ns[k], ss[k], cn) && c.op == WorldAt(ns, ss, j, cn, base).log[p]
  {
    hide Play, Ops, Effects, WorldAt;
    if j == 0 {
      k, c := 0, Call(BankBy(0), "", Disk(true, true));
      EmptyLog(ns, ss, cn, base);
    } else {
      LogGrows(ns, ss, j - 1, cn, base);
      if p < |WorldAt(ns, ss, j - 1, cn, base).log| {
        k, c := LogOrigin(ns, ss, j - 1, cn, base, p);
      } else {
        assert FromCalls(WorldAt(ns, ss, j, cn, base).log[p], Effects(ns[j - 1], ss[j - 1], cn));
        k := j - 1;
        c :| c in Effects(ns[k], ss[k], cn) && c.op == WorldAt(ns, ss, j, cn, base).log[p];
      }
    }
  }

  lemma EmptyLog(ns: seq<Node>, ss: seq<AccountingRuns.Step>, cn: string, base: u64)
    requires |ns| == |ss| + 1
    ensures WorldAt(ns, ss, 0, cn, base).log == []
  {
  }

  // ----- logs whose ids do not come back ----------------------------------------------------------------------

  lemma {:induction false} ClosedWasRecorded(log: seq<Op>, id: string)
    requires IsClosed(log, id)
    ensures EverClosed(log, id)
  {
    var front, op := Front(log), Last(log);
    assert log == front + [op];
    ClosedStep(front, op, id);
    if !(Records(op, id) && op.closed) { ClosedWasRecorded(front, id); }
  }

  /** l' extends l either without drops or without records. */
  predicate OneKind(l: seq<Op>, l': seq<Op>) {
    && l <= l'
    && ((forall i :: |l| <= i < |l'| ==> l'[i].Rec? || l'[i].BankBy?) || (forall i :: |l| <= i < |l'| ==> l'[i].PruneTo?))
  }

  lemma EarlierDrop(l: seq<Op>, l': seq<Op>, k: nat, id: string)
    requires OneKind(l, l') && |l| <= k <= |l'| && ReceiptDropped(l'[..k], id) && (k < |l'| ==> l'[k].Rec?) && k < |l'|
    ensures ReceiptDropped(l, id)
  {
    var p := l'[..k];
    var i, j :| 0 <= i < j < |p| && Records(p[i], id) && p[i].closed && Drops(p[j], id);
    assert p[j] == l'[j] && p[i] == l'[i];
    assert l[i] == l'[i] && l[j] == l'[j];
  }

  lemma NoReuseGrows(l: seq<Op>, l': seq<Op>)
    requires NoReuse(l) && OneKind(l, l')
    requires forall i :: |l| <= i < |l'| && l'[i].Rec? ==> !ReceiptDropped(l, l'[i].id)
    ensures NoReuse(l')
  {
    hide ReceiptDropped, OneKind;
    assert l <= l' by { PrefixOf(l, l'); }
    forall k | 0 <= k < |l'| && l'[k].Rec? ensures !ReceiptDropped(l'[..k], l'[k].id) {
      if k < |l| { assert l'[..k] == l[..k] && l'[k] == l[k]; }
      else if ReceiptDropped(l'[..k], l'[k].id) { EarlierDrop(l, l', k, l'[k].id); }
    }
  }

  lemma PrefixOf(l: seq<Op>, l': seq<Op>)
    requires OneKind(l, l')
    ensures l <= l'
  {
  }

  /** A step after which a receipt is dropped found it closed. */
  lemma DropNeedsClosed(l: seq<Op>, l': seq<Op>, id: string)
    requires OneKind(l, l') && ReceiptDropped(l', id)
    ensures EverClosed(l, id)
  {
    var i, j :| 0 <= i < j < |l'| && Records(l'[i], id) && l'[i].closed && Drops(l'[j], id);
    if i < |l| { assert l[i] == l'[i]; }
  }

  // ----- what is asked of a run -----------------------------------------------------------------------------

  /** Every marker of cn that the step leaves on disk was read by its scan, or its id was live. */
  predicate ReadsMarkers(after: Node, s: AccountingRuns.Step, cn: string) {
    forall f :: f in after.sessions && after.sessions[f].commonName == cn ==>
      Scans(s, f, cn, MarkerId(after.sessions[f], f))
  }

  /** The session ids in use carry generations. */
  predicate AllGenerations(s: Sessions) { forall f :: f in s ==> HasGeneration(MarkerId(s[f], f)) }

  /** The rows that a poll books started at a time of fewer than 16 digits. */
  predicate ShortStarts(s: AccountingRuns.Step) {
    s.Booking? ==> forall r :: r in s.rows ==> |Text.FormatInt(r.connectedAt)| < 16
  }

  predicate Orderly(ns: seq<Node>, ss: seq<AccountingRuns.Step>, k: nat, cn: string)
    requires |ns| == |ss| + 1 && k < |ss|
  {
    && (ss[k].Connecting? ==> DrawnOnce(ns, ss, k))
    && OwnKey(ns[k], ss[k]) && ReadsMarkers(ns[k + 1], ss[k], cn) && ShortStarts(ss[k])
  }

  /** A run from markers as connects write them and a new or legacy counter, in which connects draw fresh ids,
      hooks find only their own user's markers under their keys, and scans read the markers of cn. */
  predicate Setting(ns: seq<Node>, ss: seq<AccountingRuns.Step>, cn: string, base: u64) {
    && Started(ns, ss, cn, base)
    && AllNamed(ns[0].sessions) && TrimmedNames(ns[0].sessions) && AllGenerations(ns[0].sessions)
    && forall k :: 0 <= k < |ss| ==> Orderly(ns, ss, k, cn)
  }

  lemma SettingIsStarted(ns: seq<Node>, ss: seq<AccountingRuns.Step>, cn: string, base: u64)
    requires Setting(ns, ss, cn, base)
    ensures Started(ns, ss, cn, base) && |ns| == |ss| + 1 && IsRun(ns, ss)
  {
    hide StepAt, Orderly, StartsAt, Names.StoreKey;
  }

  // ----- where closed ids come from ---------------------------------------------------------------------------

  /** A closed id was carried by a marker at some earlier step. */
  lemma ClosedCarrier(ns: seq<Node>, ss: seq<AccountingRuns.Step>, j: nat, cn: string, base: u64, id: string)
    returns (k: nat, f: string)
    requires IsRun(ns, ss) && j < |ns| && EverClosed(WorldAt(ns, ss, j, cn, base).log, id)
    ensures k < j && HasId(ns[k], f, id)
  {
    hide WorldAt, Effects, Next, Regular;
    var log := WorldAt(ns, ss, j, cn, base).log;
    var p :| 0 <= p < |log| && Records(log[p], id) && log[p].closed;
    var c;
    k, c := LogOrigin(ns, ss, j, cn, base, p);
    assert StepAt(ns, ss, k);
    f := ClosingEffect(ns[k], ss[k], cn, c);
  }

  /** No marker carries an id before the connect that draws it. */
  lemma NotCarriedBefore(ns: seq<Node>, ss: seq<AccountingRuns.Step>, i: nat, k: nat, f: string)
    requires IsRun(ns, ss) && i <= k < |ss| && ss[k].Connecting? && DrawnOnce(ns, ss, k)
    ensures !HasId(ns[i], f, NewId(ss[k]))
  {
    hide Next, Regular, NewId, MarkerId, Installs;
    if HasId(ns[i], f, NewId(ss[k])) {
      var l := MarkerOrigin(ns, ss, i, f);
      if l < i {
        assert StepAt(ns, ss, l);
        InstalledId(ns[l], ss[l], f, ns[i].sessions[f]);
      }
    }
  }

  lemma InstalledId(n: Node, s: AccountingRuns.Step, f: string, m: Markers.Marker)
    requires Regular(n, s) && Installs(s, f, m)
    ensures s.Connecting? && MarkerId(m, f) == NewId(s)
  {
    hide Regular, NewId, MarkerId, InstalledMarker;
    InstalledIsNew(n, s, f, m);
  }

  lemma ClosedIsCarried(ns: seq<Node>, ss: seq<AccountingRuns.Step>, j: nat, cn: string, base: u64, id: string)
    returns (k: nat, f: string)
    requires Started(ns, ss, cn, base) && j < |ns|
    requires ClosedIn(ns[j].usage, cn, id)
    ensures k < j && HasId(ns[k], f, id)
  {
    hide *;
    StartedIsRun(ns, ss, cn, base);
    ClosedIsLogged(ns, ss, j, cn, base, id);
    ClosedWasRecorded(WorldAt(ns, ss, j, cn, base).log, id);
    k, f := ClosedCarrier(ns, ss, j, cn, base, id);
  }

  lemma OrderlyAt(ns: seq<Node>, ss: seq<AccountingRuns.Step>, k: nat, cn: string, base: u64)
    requires Setting(ns, ss, cn, base) && k < |ss|
    ensures Orderly(ns, ss, k, cn)
  {
  }

  /** No connect draws an id that was closed before. */
  lemma DrawnIsFresh(ns: seq<Node>, ss: seq<AccountingRuns.Step>, i: nat, k: nat, cn: string, base: u64)
    requires Setting(ns, ss, cn, base) && i <= k < |ss|
    ensures FreshAt(ns, ss, cn, i, k)
  {
    assert Started(ns, ss, cn, base) && IsRun(ns, ss);
    OrderlyAt(ns, ss, k, cn, base);
    hide IsRun, NewId, ClosedIn, HasId, Setting, Started, DrawnOnce;
    if ss[k].Connecting? && ClosedIn(ns[i].usage, cn, NewId(ss[k])) {
      var k', f := ClosedIsCarried(ns, ss, i, cn, base, NewId(ss[k]));
      NotCarriedBefore(ns, ss, k', k, f);
    }
  }

  /** Every id that was ever closed carries a generation. */
  lemma ClosedHasGeneration(ns: seq<Node>, ss: seq<AccountingRuns.Step>, j: nat, cn: string, base: u64, id: string)
    requires Setting(ns, ss, cn, base) && j < |ns| && EverClosed(WorldAt(ns, ss, j, cn, base).log, id)
    ensures HasGeneration(id)
  {
    hide WorldAt, Next, Regular, MarkerId, EverClosed, Installs, HasGeneration, IsGeneration, Orderly;
    var k, f := ClosedCarrier(ns, ss, j, cn, base, id);
    var l := MarkerOrigin(ns, ss, k, f);
    if l < k {
      assert StepAt(ns, ss, l);
      InstalledEvidence(ns[l], ss[l], f, ns[k].sessions[f]);
      InstalledFile(ss[l], f, ns[k].sessions[f]);
      GenerationSplit(f, ss[l].a.gen);
    }
  }

  lemma InstalledFile(s: AccountingRuns.Step, f: string, m: Markers.Marker)
    requires Installs(s, f, m)
    ensures s.Connecting? && f != ""
  {
    hide InstalledMarker;
  }

  /** The id made from a row has no generation. */
  lemma DerivedHasNone(row: Row)
    requires |Text.FormatInt(row.connectedAt)| < 16
    ensures !HasGeneration(DerivedId(row))
  {
    var head, tail := row.commonName + "." + row.virtualAddress + "." + row.clientID, Text.FormatInt(row.connectedAt);
    NumberHasNoDot(row.connectedAt);
    assert DerivedId(row) == head + ['.'] + tail;
    Text.LastIndexConcat(head, '.', tail);
    Text.Around(head, '.', tail);
  }

  lemma NumberHasNoDot(n: int)
    ensures '.' !in Text.FormatInt(n)
  {
    var digits := Text.Render(if n < 0 then -n else n, 10);
    assert forall c :: c in digits ==> Text.IsDigit(c);
  }

  // ----- no id comes back ---------------------------------------------------------------------------------------

  /** After j steps no id was recorded again after its receipt was dropped. */
  predicate Clean(ns: seq<Node>, ss: seq<AccountingRuns.Step>, j: nat, cn: string, base: u64)
    requires |ns| == |ss| + 1 && j < |ns|
  {
    NoReuse(WorldAt(ns, ss, j, cn, base).log)
  }

  predicate CleanTo(ns: seq<Node>, ss: seq<AccountingRuns.Step>, j: nat, cn: string, base: u64)
    requires |ns| == |ss| + 1 && j < |ns|
  {
    forall i :: 0 <= i <= j ==> Clean(ns, ss, i, cn, base)
  }

  lemma StepIsOneKind(ns: seq<Node>, ss: seq<AccountingRuns.Step>, j: nat, cn: string, base: u64)
    requires IsRun(ns, ss) && j < |ss|
    ensures OneKind(WorldAt(ns, ss, j, cn, base).log, WorldAt(ns, ss, j + 1, cn, base).log)
  {
    hide WorldAt, Effects, Next, Regular;
    var l, l' := WorldAt(ns, ss, j, cn, base).log, WorldAt(ns, ss, j + 1, cn, base).log;
    LogGrows(ns, ss, j, cn, base);
    assert StepAt(ns, ss, j);
    forall i | |l| <= i < |l'| ensures OfKind(ss[j], l'[i]) {
      assert FromCalls(l'[i], Effects(ns[j], ss[j], cn));
      var c :| c in Effects(ns[j], ss[j], cn) && c.op == l'[i];
      EffectKind(ns[j], ss[j], cn, c);
    }
  }

  lemma DropShows(l: seq<Op>, l': seq<Op>, id: string)
    requires OneKind(l, l') && NoReuse(l) && NoReuse(l') && ReceiptDropped(l', id) && !ReceiptDropped(l, id)
    ensures IsClosed(l, id) && !IsClosed(l', id)
  {
    hide OneKind, NoReuse, ReceiptDropped, EverClosed, IsClosed, IsFirstCloseMax;
    DropNeedsClosed(l, l', id);
    SingleGeneration(l, id);
    SingleGeneration(l', id);
  }

  /** A receipt that was dropped went at some step. */
  lemma {:induction false} DroppedAtStep(ns: seq<Node>, ss: seq<AccountingRuns.Step>, m: nat, cn: string, base: u64, id: string)
    returns (k: nat)
    requires Started(ns, ss, cn, base) && m < |ns|
    requires CleanTo(ns, ss, m, cn, base) && ReceiptDropped(WorldAt(ns, ss, m, cn, base).log, id)
    ensures k < m && ClosedIn(ns[k].usage, cn, id) && !ClosedIn(ns[k + 1].usage, cn, id)
  {
    hide *;
    StartedIsRun(ns, ss, cn, base);
    EmptyLog(ns, ss, cn, base);
    NothingDropped(id);
    k := 0;
    if m > 0 {
      CleanFront(ns, ss, m, cn, base);
      if ReceiptDropped(WorldAt(ns, ss, m - 1, cn, base).log, id) {
        k := DroppedAtStep(ns, ss, m - 1, cn, base, id);
      } else {
        k := m - 1;
        StepIsOneKind(ns, ss, k, cn, base);
        DropShows(WorldAt(ns, ss, k, cn, base).log, WorldAt(ns, ss, m, cn, base).log, id);
        ClosedIsLogged(ns, ss, k, cn, base, id);
        ClosedIsLogged(ns, ss, m, cn, base, id);
      }
    }
  }

  lemma CleanFront(ns: seq<Node>, ss: seq<AccountingRuns.Step>, m: nat, cn: string, base: u64)
    requires |ns| == |ss| + 1 && 0 < m < |ns| && CleanTo(ns, ss, m, cn, base)
    ensures CleanTo(ns, ss, m - 1, cn, base)
    ensures NoReuse(WorldAt(ns, ss, m - 1, cn, base).log) && NoReuse(WorldAt(ns, ss, m, cn, base).log)
  {
    hide NoReuse, WorldAt;
    assert Clean(ns, ss, m - 1, cn, base) && Clean(ns, ss, m, cn, base);
  }

  lemma NothingDropped(id: string)
    ensures !ReceiptDropped([], id)
  {
  }

  /** A marker whose id was closed in state i was there ever since. */
  lemma {:induction false} CarriedBack(ns: seq<Node>, ss: seq<AccountingRuns.Step>, i: nat, k: nat, m: nat, f: string,
                                       cn: string, base: u64, id: string)
    requires Setting(ns, ss, cn, base) && i <= k <= m < |ns|
    requires ClosedIn(ns[i].usage, cn, id) && Carries(ns[m].sessions, f, cn, id)
    ensures Carries(ns[k].sessions, f, cn, id)
    decreases m
  {
    assert IsRun(ns, ss);
    if k < m {
      CarriedBefore(ns, ss, i, m - 1, f, cn, base, id);
      CarriedBack(ns, ss, i, k, m - 1, f, cn, base, id);
    }
  }

  lemma CarriedBefore(ns: seq<Node>, ss: seq<AccountingRuns.Step>, i: nat, k: nat, f: string, cn: string, base: u64, id: string)
    requires Setting(ns, ss, cn, base) && i <= k < |ss|
    requires ClosedIn(ns[i].usage, cn, id) && Carries(ns[k + 1].sessions, f, cn, id)
    ensures Carries(ns[k].sessions, f, cn, id)
  {
    assert StepAt(ns, ss, k) && IsRun(ns, ss);
    hide Setting, IsRun, Next, Regular, ClosedIn, NewId, MarkerId, Installs, Visible;
    MarkerBefore(ns, ss, k, f);
    DrawnIsFresh(ns, ss, i, k, cn, base);
    if Installs(ss[k], f, ns[k + 1].sessions[f]) {
      InstalledId(ns[k], ss[k], f, ns[k + 1].sessions[f]);
      InstalledUser(ns[k], ss[k], f, ns[k + 1].sessions[f]);
    }
  }

  lemma InstalledUser(n: Node, s: AccountingRuns.Step, f: string, m: Markers.Marker)
    requires Regular(n, s) && Installs(s, f, m)
    ensures s.Connecting? && m.commonName == HookCN(s.e, s.arg)
  {
    hide Regular, NewId, MarkerId, InstalledMarker;
    InstalledIsNew(n, s, f, m);
  }

  lemma ReadScans(after: Node, s: AccountingRuns.Step, f: string, cn: string, id: string)
    requires ReadsMarkers(after, s, cn) && Carries(after.sessions, f, cn, id)
    ensures Scans(s, f, cn, id)
  {
    hide Scans, MarkerId;
  }

  /** A step keeps the receipt of a marker that it leaves. */
  lemma KeptByStep(ns: seq<Node>, ss: seq<AccountingRuns.Step>, k: nat, f: string, cn: string, base: u64, id: string)
    requires Setting(ns, ss, cn, base) && k < |ss|
    requires ClosedIn(ns[k].usage, cn, id) && Carries(ns[k + 1].sessions, f, cn, id)
    ensures ClosedIn(ns[k + 1].usage, cn, id)
  {
    assert StepAt(ns, ss, k) && IsRun(ns, ss) && TrimmedNames(ns[0].sessions);
    hide Setting, IsRun, Next, Regular, ClosedIn, Carries, TrimmedNames, ReadsMarkers, Scans, OwnKey, DrawnOnce, ShortStarts;
    OrderlyAt(ns, ss, k, cn, base);
    NamesStayTrimmed(ns, ss, k);
    ReadScans(ns[k + 1], ss[k], f, cn, id);
    StepKeeps(ns[k], ss[k], f, cn, id);
  }

  /** The receipt of a marker on disk was never dropped. */
  lemma CarriedIsUndropped(ns: seq<Node>, ss: seq<AccountingRuns.Step>, m: nat, f: string, cn: string, base: u64, id: string)
    requires Setting(ns, ss, cn, base) && m < |ns| && CleanTo(ns, ss, m, cn, base) && Carries(ns[m].sessions, f, cn, id)
    ensures !ReceiptDropped(WorldAt(ns, ss, m, cn, base).log, id)
  {
    hide *;
    SettingIsStarted(ns, ss, cn, base);
    if ReceiptDropped(WorldAt(ns, ss, m, cn, base).log, id) {
      var k := DroppedAtStep(ns, ss, m, cn, base, id);
      CarriedBack(ns, ss, k, k + 1, m, f, cn, base, id);
      KeptByStep(ns, ss, k, f, cn, base, id);
    }
  }

  lemma DroppedWasClosed(log: seq<Op>, id: string)
    requires ReceiptDropped(log, id)
    ensures EverClosed(log, id)
  {
  }

  /** The id made from a row was never closed, so its receipt was never dropped. */
  lemma DerivedIsUndropped(ns: seq<Node>, ss: seq<AccountingRuns.Step>, j: nat, cn: string, base: u64, id: string)
    requires Setting(ns, ss, cn, base) && j < |ss| && ShortStarts(ss[j]) && FromRow(ss[j], id)
    ensures !ReceiptDropped(WorldAt(ns, ss, j, cn, base).log, id)
  {
    assert |ns| == |ss| + 1;
    hide Setting, WorldAt, ReceiptDropped, EverClosed, HasGeneration, DerivedId, Text.FormatInt;
    var r :| r in ss[j].rows && DerivedId(r) == id;
    DerivedHasNone(r);
    if ReceiptDropped(WorldAt(ns, ss, j, cn, base).log, id) {
      DroppedWasClosed(WorldAt(ns, ss, j, cn, base).log, id);
      ClosedHasGeneration(ns, ss, j, cn, base, id);
    }
  }

  /** No step records an id whose receipt was dropped before. */
  lemma RecordedIsUndropped(ns: seq<Node>, ss: seq<AccountingRuns.Step>, j: nat, cn: string, base: u64, c: Call)
    requires Setting(ns, ss, cn, base) && j < |ss| && CleanTo(ns, ss, j, cn, base)
    requires c in Effects(ns[j], ss[j], cn) && c.op.Rec?
    ensures !ReceiptDropped(WorldAt(ns, ss, j, cn, base).log, c.op.id)
  {
    hide *;
    SettingIsStarted(ns, ss, cn, base);
    EffectOrigin(ns, ss, j, cn, base, c);
    if FromMarker(ns[j], cn, c.op.id) {
      var f := Carrier(ns[j], cn, c.op.id);
      CarriedIsUndropped(ns, ss, j, f, cn, base, c.op.id);
    } else {
      DerivedIsUndropped(ns, ss, j, cn, base, c.op.id);
    }
  }

  lemma Carrier(n: Node, cn: string, id: string) returns (f: string)
    requires FromMarker(n, cn, id)
    ensures Carries(n.sessions, f, cn, id)
  {
    hide Carries;
    f :| Carries(n.sessions, f, cn, id);
  }

  lemma EffectOrigin(ns: seq<Node>, ss: seq<AccountingRuns.Step>, j: nat, cn: string, base: u64, c: Call)
    requires Setting(ns, ss, cn, base) && j < |ss| && c in Effects(ns[j], ss[j], cn) && c.op.Rec?
    ensures FromMarker(ns[j], cn, c.op.id) || (FromRow(ss[j], c.op.id) && ShortStarts(ss[j]))
  {
    assert IsRun(ns, ss) && StepAt(ns, ss, j) && AllNamed(ns[0].sessions) && TrimmedNames(ns[0].sessions);
    hide Setting, Started, IsRun, Effects, Regular, Next, AllNamed, TrimmedNames, FromRow, FromMarker, OwnKey, ReadsMarkers,
      DrawnOnce, ShortStarts;
    OrderlyAt(ns, ss, j, cn, base);
    MarkersStayNamed(ns, ss, j);
    NamesStayTrimmed(ns, ss, j);
    RecordingEffect(ns[j], ss[j], cn, c);
  }

  lemma StepStaysClean(ns: seq<Node>, ss: seq<AccountingRuns.Step>, j: nat, cn: string, base: u64)
    requires Setting(ns, ss, cn, base) && j < |ss| && CleanTo(ns, ss, j, cn, base)
    ensures Clean(ns, ss, j + 1, cn, base)
  {
    assert IsRun(ns, ss) && |ns| == |ss| + 1;
    var l, l' := WorldAt(ns, ss, j, cn, base).log, WorldAt(ns, ss, j + 1, cn, base).log;
    LogGrows(ns, ss, j, cn, base);
    StepIsOneKind(ns, ss, j, cn, base);
    assert Clean(ns, ss, j, cn, base);
    hide Setting, IsRun, WorldAt, ReceiptDropped, CleanTo, Effects, NoReuse, OneKind;
    forall i | |l| <= i < |l'| && l'[i].Rec? ensures !ReceiptDropped(l, l'[i].id) {
      assert FromCalls(l'[i], Effects(ns[j], ss[j], cn));
      var c :| c in Effects(ns[j], ss[j], cn) && c.op == l'[i];
      RecordedIsUndropped(ns, ss, j, cn, base, c);
    }
    NoReuseGrows(l, l');
  }

  /** MAIN: in every run of connects, disconnects, polls, purges and banked deltas, no session id is recorded
      again after its receipt was dropped. */
  lemma {:induction false} HooksNeverReuse(ns: seq<Node>, ss: seq<AccountingRuns.Step>, j: nat, cn: string, base: u64)
    requires Setting(ns, ss, cn, base) && j < |ns|
    ensures CleanTo(ns, ss, j, cn, base) && NoReuse(WorldAt(ns, ss, j, cn, base).log)
  {
    hide *;
    SettingIsStarted(ns, ss, cn, base);
    if j == 0 {
      EmptyLog(ns, ss, cn, base);
      NothingReused();
      CleanAtStart(ns, ss, cn, base);
    } else {
      HooksNeverReuse(ns, ss, j - 1, cn, base);
      StepStaysClean(ns, ss, j - 1, cn, base);
      CleanOneMore(ns, ss, j, cn, base);
      CleanFront(ns, ss, j, cn, base);
    }
  }

  lemma CleanAtStart(ns: seq<Node>, ss: seq<AccountingRuns.Step>, cn: string, base: u64)
    requires |ns| == |ss| + 1 && NoReuse(WorldAt(ns, ss, 0, cn, base).log)
    ensures CleanTo(ns, ss, 0, cn, base)
  {
    hide NoReuse, WorldAt;
  }

  lemma CleanOneMore(ns: seq<Node>, ss: seq<AccountingRuns.Step>, j: nat, cn: string, base: u64)
    requires |ns| == |ss| + 1 && 0 < j < |ns| && CleanTo(ns, ss, j - 1, cn, base) && Clean(ns, ss, j, cn, base)
    ensures CleanTo(ns, ss, j, cn, base)
  {
    hide Clean;
  }

  lemma NothingReused()
    ensures NoReuse([])
  {
  }

  // ----- every session counts once -------------------------------------------------------------------------------

  lemma {:induction false} NothingZeroed(base: u64, ops: seq<Op>)
    requires forall op :: op in ops ==> !op.ResetTo?
    ensures Play(base, "", ops).zeroed == 0
  {
    hide Apply;
    if ops != [] { NothingZeroed(base, ops[..|ops| - 1]); }
  }

  lemma RunNeverZeroes(ns: seq<Node>, ss: seq<AccountingRuns.Step>, j: nat, cn: string, base: u64)
    requires IsRun(ns, ss) && j < |ns|
    ensures WorldAt(ns, ss, j, cn, base).zeroed == 0
  {
    var calls := CallsOf(ns, ss, j, cn);
    assert [] + calls == calls;
    OpsConcat([], calls);
    hide CallsOf, IsRun, Play, Ops;
    forall op | op in Ops(calls) ensures !op.ResetTo? {
      assert FromCalls(op, calls);
      var c :| c in calls && c.op == op;
      CallKind(ns, ss, j, cn, c);
    }
    NothingZeroed(base, Ops(calls));
  }

  /** MAIN: so after every such run the counter of cn can be read, and its total is what it started from, the
      banked deltas, and for every session id the maximum recorded up to and including its first closing. */
  lemma RunsCountEachIdOnce(ns: seq<Node>, ss: seq<AccountingRuns.Step>, j: nat, cn: string, base: u64, maxima: map<string, nat>)
    requires Setting(ns, ss, cn, base) && j < |ns|
    requires var log := WorldAt(ns, ss, j, cn, base).log;
      maxima.Keys == Ids(log) && forall id :: id in maxima ==> IsFirstCloseMax(log, id, maxima[id])
    ensures var r := ReadFile(ns[j].usage, cn, "");
      r.Ok? && r.value.total == base + Banked(WorldAt(ns, ss, j, cn, base).log) + Sum(maxima)
  {
    assert Started(ns, ss, cn, base) && IsRun(ns, ss) && |ns| == |ss| + 1;
    assert Names.SafeCN(cn) == Some(cn);
    hide Setting, Started, IsRun, Play, Ops, CallsOf, ReadFile, NoReuse, IsFirstCloseMax, Names.SafeCN, Names.StoreKey, CleanTo;
    HooksNeverReuse(ns, ss, j, cn, base);
    RunNeverZeroes(ns, ss, j, cn, base);
    RunFollowsHistory(ns, ss, j, cn, base);
    EachIdCountsItsMaximumOnce(base, "", Ops(CallsOf(ns, ss, j, cn)), maxima);
  }

  // ----- runs without dots in user names ----------------------------------------------------------------------

  predicate Undotted(s: Sessions) { forall f :: f in s ==> '.' !in s[f].commonName }

  predicate UndottedHook(s: AccountingRuns.Step) { s.Connecting? || s.Disconnecting? ==> '.' !in HookCN(s.e, s.arg) }

  lemma UndottedStep(n: Node, s: AccountingRuns.Step)
    requires Regular(n, s) && Undotted(n.sessions) && UndottedHook(s)
    ensures Undotted(Next(n, s).sessions)
  {
    hide Next, Regular, Installs;
    var after := Next(n, s).sessions;
    forall f | f in after ensures '.' !in after[f].commonName {
      MarkersAfter(n, s, f);
      if Installs(s, f, after[f]) { InstalledUser(n, s, f, after[f]); }
    }
  }

  lemma UndottedIsOwn(n: Node, s: AccountingRuns.Step)
    requires AllNamed(n.sessions) && Undotted(n.sessions) && UndottedHook(s)
    ensures OwnKey(n, s)
  {
    hide HookKey, HookCN, NamedAfterUser;
    if s.Connecting? || s.Disconnecting? {
      var cn, key := HookCN(s.e, s.arg), HookKey(HookCN(s.e, s.arg), s.e);
      KeyIsNamed(cn, s.e);
      if key in n.sessions { UndottedOwnKey(key, n.sessions[key], cn); }
    }
  }

  /** While no user name has a dot, every hook finds only its own user's marker under its key. */
  lemma {:induction false} UndottedKeysAreOwn(ns: seq<Node>, ss: seq<AccountingRuns.Step>, j: nat)
    requires IsRun(ns, ss) && AllNamed(ns[0].sessions) && Undotted(ns[0].sessions) && j < |ns|
    requires forall k :: 0 <= k < |ss| ==> UndottedHook(ss[k])
    ensures Undotted(ns[j].sessions) && (j < |ss| ==> OwnKey(ns[j], ss[j]))
  {
    hide Next, Regular, Undotted, UndottedHook, AllNamed, OwnKey;
    if j > 0 {
      UndottedKeysAreOwn(ns, ss, j - 1);
      assert StepAt(ns, ss, j - 1);
      UndottedStep(ns[j - 1], ss[j - 1]);
    }
    MarkersStayNamed(ns, ss, j);
    if j < |ss| { UndottedIsOwn(ns[j], ss[j]); }
  }

  /** The step's scan, if it has one, reads every marker on disk. */
  predicate FullScan(n: Node, s: AccountingRuns.Step) {
    && (s.Retiring? ==> n.sessions.Keys <= s.read)
    && (s.Sweeping? && s.rescan.Some? ==> n.sessions.Keys <= s.rescan.value)
  }

  lemma FullScanReads(n: Node, s: AccountingRuns.Step, cn: string)
    requires FullScan(n, s)
    ensures ReadsMarkers(Next(n, s), s, cn)
  {
    hide ConnectStep, DisconnectStep, PollBook, PurgeRemove, Bank, Retire, RetireAll, PollPresence, PurgePresence, AllReadable,
      MarkerId, PresentIn;
  }

  /** Two connects never draw the same id. */
  predicate DistinctIds(ss: seq<AccountingRuns.Step>) {
    forall k, l :: 0 <= k < |ss| && 0 <= l < |ss| && k != l && ss[k].Connecting? && ss[l].Connecting? ==> NewId(ss[l]) != NewId(ss[k])
  }

  /** From an empty node, while no user name has a dot and every scan reads every marker, all that is asked of a
      run holds for every user. */
  lemma EmptyNodeIsSetting(ns: seq<Node>, ss: seq<AccountingRuns.Step>, cn: string)
    requires IsRun(ns, ss) && ns[0] == Node(map[], map[]) && DistinctIds(ss) && Names.StoreKey(cn)
    requires forall k :: 0 <= k < |ss| ==> UndottedHook(ss[k]) && ShortStarts(ss[k]) && FullScan(ns[k], ss[k])
    ensures Setting(ns, ss, cn, 0)
  {
    hide Next, Regular, UndottedHook, ShortStarts, FullScan, OwnKey, ReadsMarkers, NewId, Names.StoreKey;
    forall k | 0 <= k < |ss| ensures Orderly(ns, ss, k, cn) {
      assert StepAt(ns, ss, k);
      UndottedKeysAreOwn(ns, ss, k);
      FullScanReads(ns[k], ss[k], cn);
    }
  }
}
