/** Which generation a disconnect or a poll touches, over whole runs. */
module Isolation {
  import opened Wrappers
  import opened Counter
  import opened Markers
  import opened Hooks
  import opened AccountingRuns
  import Names
  import Text

  // ----- a disconnect touches only its own generation ------------------------------------------------

  lemma MarkerBefore(ns: seq<Node>, ss: seq<Step>, k: nat, f: string)
    requires IsRun(ns, ss) && k < |ss| && f in ns[k + 1].sessions
    ensures (f in ns[k].sessions && ns[k + 1].sessions[f] == ns[k].sessions[f]) || Installs(ss[k], f, ns[k + 1].sessions[f])
  {
    hide Next, Regular, Installs;
    assert StepAt(ns, ss, k);
    MarkersAfter(ns[k], ss[k], f);
  }

  /** Every marker on disk was there at the start or is exactly what some connect of the run installed. */
  lemma {:induction false} MarkerOrigin(ns: seq<Node>, ss: seq<Step>, k: nat, f: string) returns (i: nat)
    requires IsRun(ns, ss) && k < |ns| && f in ns[k].sessions
    ensures i <= k
    ensures if i == k then f in ns[0].sessions && ns[0].sessions[f] == ns[k].sessions[f]
            else Installs(ss[i], f, ns[k].sessions[f])
  {
    hide StepAt, Installs;
    if k == 0 { return 0; }
    MarkerBefore(ns, ss, k - 1, f);
    if Installs(ss[k - 1], f, ns[k].sessions[f]) { return k - 1; }
    i := MarkerOrigin(ns, ss, k - 1, f);
    if i == k - 1 { i := k; }
  }

  /** The connection start that a text of the environment names, if it names one. */
  function StartIn(v: string): Option<int> {
    match Text.ParseInt64(Text.TrimSpace(v))
    case Some(n) => if n > 0 then Some(n) else None
    case None => None
  }

  /** The start that a connect writes down: the environment's, else its clock. */
  function StartOf(c: Step): int
    requires c.Connecting?
  {
    if StartIn(c.e.timeUnix).Some? then StartIn(c.e.timeUnix).value else c.a.now
  }

  lemma StartsRead(v: string, now: int)
    ensures KnownStart(v) == if StartIn(v).Some? then StartIn(v).value else 0
    ensures StartOrNow(v, now) == if StartIn(v).Some? then StartIn(v).value else now
  {
  }

  /** Any one piece of evidence, known on both sides, that a disconnect and a connect belong to different
      connections. */
  predicate ProvablyDifferent(c: Step, d: Env)
    requires c.Connecting?
  {
    || (StartIn(d.timeUnix).Some? && StartIn(d.timeUnix).value != StartOf(c))
    || (c.e.trustedIP != "" && d.trustedIP != "" && c.e.trustedIP != d.trustedIP)
    || (c.e.trustedPort != "" && d.trustedPort != "" && c.e.trustedPort != d.trustedPort)
  }

  /** An installed marker carries the evidence of its connection. */
  lemma InstalledEvidence(n: Node, c: Step, f: string, m: Marker)
    requires Regular(n, c) && Installs(c, f, m)
    ensures m.trustedIP == c.e.trustedIP && m.trustedPort == c.e.trustedPort
    ensures m.connectionStarted == StartOf(c) > 0
    ensures IsGeneration(c.a.gen) && MarkerId(m, f) == f + "." + c.a.gen
  {
    hide InstalledMarker, HookKey;
    InstalledIsNew(n, c, f, m);
    StartsRead(c.e.timeUnix, c.a.now);
  }

  /** MAIN: a disconnect is matched with the marker that a connect installed exactly when nothing known on both
      sides tells the two connections apart. */
  lemma MatchedExactly(n: Node, c: Step, f: string, m: Marker, d: Env)
    requires Regular(n, c) && Installs(c, f, m) && f != ""
    ensures DisconnectMatches(m, f, d.trustedIP, d.trustedPort, KnownStart(d.timeUnix)) <==> !ProvablyDifferent(c, d)
  {
    hide Regular, InstalledMarker, HookKey, IsGeneration, HasGeneration, StartOf, KnownStart, MarkerId, StartIn;
    StartsRead(d.timeUnix, 0);
    StartIsPositive(d.timeUnix);
    InstalledEvidence(n, c, f, m);
    GenerationSplit(f, c.a.gen);
  }

  lemma StartIsPositive(v: string)
    ensures StartIn(v).Some? ==> StartIn(v).value > 0
  {
  }

  /** A disconnect ignores a marker that a provably different connection installed. */
  lemma DifferentIsRejected(n: Node, c: Step, f: string, m: Marker, d: Env)
    requires Regular(n, c) && Installs(c, f, m) && ProvablyDifferent(c, d) && f != ""
    ensures !DisconnectMatches(m, f, d.trustedIP, d.trustedPort, KnownStart(d.timeUnix))
  {
    hide *;
    MatchedExactly(n, c, f, m, d);
  }

  function EntryOf(files: Files, cn: string, id: string): Option<UsageSession> {
    EntryIn(ReadFile(files, cn, ""), id)
  }

  function EntryIn(r: Reply, id: string): Option<UsageSession> {
    if r.Ok? && id in r.value.sessions then Some(r.value.sessions[id]) else None
  }

  lemma RecordKeepsOthers(st: UsageState, id': string, bytes: u64, closed: bool, id: string)
    requires id != id' && RecordState(st, id', bytes, closed).Some?
    ensures EntryIn(Ok(RecordState(st, id', bytes, closed).value), id) == EntryIn(Ok(st), id)
  {
  }

  lemma RecordTouchesOneEntry(files: Files, cn': string, id': string, bytes: u64, closed: bool, epoch: string, disk: Disk,
                              cn: string, id: string)
    requires epoch != "" && id != id' && Names.StoreKey(cn)
    ensures EntryOf(Record(files, cn', id', bytes, closed, epoch, disk).0, cn, id) == EntryOf(files, cn, id)
  {
    var (files', r) := Record(files, cn', id', bytes, closed, epoch, disk);
    if r.Ok? {
      RecordReadsBack(files, cn', id', bytes, closed, epoch, disk, "");
      if Names.SafeCN(cn') == Some(cn) {
        RecordKeepsOthers(Upgraded(ReadFile(files, cn, epoch).value, epoch), id', bytes, closed, id);
      }
    }
  }

  // ----- what a disconnect removes -------------------------------------------------------------------

  /** The disconnect is acted on at all. */
  predicate Acts(e: Env, arg: string, x: Faults) {
    HookCN(e, arg) != "" && Acceptable(HookCN(e, arg)) && x.dirOk && x.lockOk
  }

  /** It finds no marker under its key and cleans up legacy names instead. */
  predicate FallsBack(n: Node, e: Env, arg: string, x: Faults) {
    var key := HookKey(HookCN(e, arg), e);
    Acts(e, arg, x) && (key !in n.sessions || key in x.unseen)
  }

  /** The clean-up removes the file f. */
  predicate Cleans(n: Node, e: Env, arg: string, x: Faults, f: string) {
    && FallsBack(n, e, arg, x) && f !in x.stuck
    && LegacyName(f, HookCN(e, arg), PoolKey(e.poolIP), Names.Sanitize(OrUnknown(e.trustedIP)),
                  Names.Sanitize(OrUnknown(e.trustedPort)))
  }

  /** It closes the session of the marker under its key and removes that marker. */
  predicate Closes(n: Node, e: Env, arg: string, epoch: string, x: Faults) {
    var cn, key := HookCN(e, arg), HookKey(HookCN(e, arg), e);
    && Acts(e, arg, x) && key in n.sessions && key !in x.unseen && key !in x.unread && key !in x.stuck
    && DisconnectMatches(n.sessions[key], key, e.trustedIP, e.trustedPort, KnownStart(e.timeUnix))
    && Record(n.usage, cn, MarkerId(n.sessions[key], key), WrapAdd(ByteCounter(e.bytesReceived), ByteCounter(e.bytesSent)),
              true, epoch, x.usage).1.Ok?
  }

  /** A marker goes by exactly one of the two ways. */
  lemma DisconnectRemoves(n: Node, e: Env, arg: string, epoch: string, x: Faults, f: string)
    requires f in n.sessions
    ensures var after := DisconnectStep(n, e, arg, epoch, x).sessions;
      && (f !in after <==> Cleans(n, e, arg, x, f) || (Closes(n, e, arg, epoch, x) && f == HookKey(HookCN(e, arg), e)))
      && (f in after ==> after[f] == n.sessions[f])
  {
    hide Record, LegacyName, DisconnectMatches, Acceptable, HookKey, ByteCounter, MarkerId, KnownStart, PoolKey;
  }

  /** A disconnect changes no entry but that of the marker under its key. */
  lemma DisconnectTouchesOneEntry(n: Node, e: Env, arg: string, epoch: string, x: Faults, cn: string, id: string)
    requires epoch != "" && Names.StoreKey(cn)
    requires var f := HookKey(HookCN(e, arg), e); f in n.sessions ==> MarkerId(n.sessions[f], f) != id
    ensures EntryOf(DisconnectStep(n, e, arg, epoch, x).usage, cn, id) == EntryOf(n.usage, cn, id)
  {
    hide Record, EntryOf, WithoutLegacy, DisconnectMatches, Acceptable, HookKey, ByteCounter, MarkerId, KnownStart,
      Names.StoreKey;
    var dcn := HookCN(e, arg);
    var f := HookKey(dcn, e);
    if f in n.sessions {
      RecordTouchesOneEntry(n.usage, dcn, MarkerId(n.sessions[f], f),
                            WrapAdd(ByteCounter(e.bytesReceived), ByteCounter(e.bytesSent)), true, epoch, x.usage, cn, id);
    }
  }

  /** A disconnect that the marker under its key refuses changes no counter. */
  lemma MismatchKeepsCounters(n: Node, e: Env, arg: string, epoch: string, x: Faults)
    requires var f := HookKey(HookCN(e, arg), e);
      f in n.sessions && !DisconnectMatches(n.sessions[f], f, e.trustedIP, e.trustedPort, KnownStart(e.timeUnix))
    ensures DisconnectStep(n, e, arg, epoch, x).usage == n.usage && !Closes(n, e, arg, epoch, x)
  {
    hide Record, WithoutLegacy, DisconnectMatches, Acceptable, HookKey, ByteCounter, MarkerId, KnownStart;
  }

  /** The ids that connects draw are drawn once, and none is on disk at the start. */
  predicate DrawnOnce(ns: seq<Node>, ss: seq<Step>, i: nat)
    requires |ns| == |ss| + 1 && i < |ss| && ss[i].Connecting?
  {
    && (forall l :: 0 <= l < |ss| && l != i && ss[l].Connecting? ==> NewId(ss[l]) != NewId(ss[i]))
    && (forall g :: g in ns[0].sessions ==> MarkerId(ns[0].sessions[g], g) != NewId(ss[i]))
  }

  /** A marker that carries the id drawn at step i is the one that step i installed. */
  lemma CarrierIsInstalled(ns: seq<Node>, ss: seq<Step>, i: nat, k: nat, f: string)
    requires IsRun(ns, ss) && i < |ss| && k < |ns| && ss[i].Connecting? && DrawnOnce(ns, ss, i)
    requires f in ns[k].sessions && MarkerId(ns[k].sessions[f], f) == NewId(ss[i])
    ensures Installs(ss[i], f, ns[k].sessions[f])
  {
    hide Next, Regular, InstalledMarker, HookKey, NewId, MarkerId;
    var l := MarkerOrigin(ns, ss, k, f);
    if l < k {
      assert StepAt(ns, ss, l);
      InstalledIsNew(ns[l], ss[l], f, ns[k].sessions[f]);
    }
  }

  /** MAIN: in every run, a delayed disconnect of a provably different connection changes no counter entry of
      the generation that connect i installed, and removes that generation's marker, whatever its name, exactly
      when it falls back to cleaning up legacy names and the marker has one. */
  lemma GenerationsAreIsolated(ns: seq<Node>, ss: seq<Step>, i: nat, k: nat, cn: string)
    requires IsRun(ns, ss) && i < |ss| && k < |ss| && ss[i].Connecting? && ss[k].Disconnecting?
    requires DrawnOnce(ns, ss, i) && ProvablyDifferent(ss[i], ss[k].e) && Names.StoreKey(cn)
    ensures EntryOf(ns[k + 1].usage, cn, NewId(ss[i])) == EntryOf(ns[k].usage, cn, NewId(ss[i]))
    ensures forall f :: HasId(ns[k], f, NewId(ss[i])) ==>
      if Cleans(ns[k], ss[k].e, ss[k].arg, ss[k].x, f) then f !in ns[k + 1].sessions
      else f in ns[k + 1].sessions && ns[k + 1].sessions[f] == ns[k].sessions[f]
  {
    hide Regular, Installs, ConnectStep, DisconnectStep, PollBook, PollRetire, PurgeRetire, Bank, ProvablyDifferent,
      DrawnOnce, HookKey,
      EntryOf, Cleans, Closes;
    var e, arg := ss[k].e, ss[k].arg;
    var key := HookKey(HookCN(e, arg), e);
    assert StepAt(ns, ss, k);
    DisconnectIsRegular(ns[k], ss[k]);
    if HasId(ns[k], key, NewId(ss[i])) {
      CarrierIsInstalled(ns, ss, i, k, key);
      MismatchIsIgnored(ns, ss, i, k, key);
    } else {
      DisconnectTouchesOneEntry(ns[k], e, arg, ss[k].epoch, ss[k].x, cn, NewId(ss[i]));
    }
    forall f | HasId(ns[k], f, NewId(ss[i]))
      ensures if Cleans(ns[k], e, arg, ss[k].x, f) then f !in ns[k + 1].sessions
              else f in ns[k + 1].sessions && ns[k + 1].sessions[f] == ns[k].sessions[f]
    {
      DisconnectRemoves(ns[k], e, arg, ss[k].epoch, ss[k].x, f);
    }
  }

  /** The marker in the file f carries the id. */
  predicate HasId(n: Node, f: string, id: string) { f in n.sessions && MarkerId(n.sessions[f], f) == id }

  lemma DisconnectIsRegular(n: Node, s: Step)
    requires s.Disconnecting? && Regular(n, s)
    ensures s.epoch != "" && Next(n, s) == DisconnectStep(n, s.e, s.arg, s.epoch, s.x)
  {
    hide DisconnectStep, ConnectStep, PollBook, PollRetire, PurgeRetire, Bank;
  }

  lemma MismatchIsIgnored(ns: seq<Node>, ss: seq<Step>, i: nat, k: nat, f: string)
    requires IsRun(ns, ss) && i < |ss| && k < |ss| && ss[i].Connecting? && ss[k].Disconnecting?
    requires ProvablyDifferent(ss[i], ss[k].e) && f == HookKey(HookCN(ss[k].e, ss[k].arg), ss[k].e) && f != ""
    requires f in ns[k].sessions && Installs(ss[i], f, ns[k].sessions[f])
    ensures ns[k + 1].usage == ns[k].usage && !Closes(ns[k], ss[k].e, ss[k].arg, ss[k].epoch, ss[k].x)
  {
    hide Regular, Installs, ConnectStep, DisconnectStep, PollBook, PollRetire, PurgeRetire, Bank, ProvablyDifferent,
      DisconnectMatches,
      HookKey, Closes;
    assert StepAt(ns, ss, i) && StepAt(ns, ss, k);
    DifferentIsRejected(ns[i], ss[i], f, ns[k].sessions[f], ss[k].e);
    MismatchKeepsCounters(ns[k], ss[k].e, ss[k].arg, ss[k].epoch, ss[k].x);
  }

  // ----- what a poll books, and to whom ---------------------------------------------------------------

  /** Some row of the snapshot has the i-th marker as its choice. */
  predicate ChosenBy(rows: seq<Row>, cands: seq<Candidate>, updatedAt: int, i: int) {
    exists r :: r in rows && IsChoice(r, cands, updatedAt, i)
  }

  /** MAIN: a poll of a user who has markers changes an entry only if it is that of a marker that is the
      newest eligible one for some row, so never of one stamped at or after the snapshot. */
  lemma {:induction false} PollAttribution(usage: Files, ids: set<string>, cn': string, cands: seq<Candidate>, rows: seq<Row>,
                                           updatedAt: int, epoch: string, disk: Disk, cn: string, id: string)
    requires epoch != "" && Names.StoreKey(cn) && cands != []
    requires EntryOf(BookRows(usage, ids, cn', cands, rows, updatedAt, epoch, disk).0, cn, id) != EntryOf(usage, cn, id)
    ensures exists i :: ChosenBy(rows, cands, updatedAt, i) && 0 <= i < |cands| && cands[i].sessionID == id
                        && !(updatedAt > 0 && Stamp(cands[i]) > 0 && updatedAt <= Stamp(cands[i]))
    decreases |rows|
  {
    hide EntryOf, Record, IsChoice, Choose;
    if rows != [] {
      var row, chosen := rows[0], Choose(rows[0], cands, updatedAt);
      ChooseIsBest(row, cands, updatedAt);
      if chosen.Some? {
        var id', bytes := cands[chosen.value].sessionID, WrapAdd(row.bytesReceived, row.bytesSent);
        var (usage', r) := Record(usage, cn', id', bytes, false, epoch, disk);
        if id' == id {
          assert ChosenBy(rows, cands, updatedAt, chosen.value);
          ChoiceIsOlder(row, cands, updatedAt, chosen.value);
        } else {
          RecordTouchesOneEntry(usage, cn', id', bytes, false, epoch, disk, cn, id);
          PollAttribution(usage', ids + {id'}, cn', cands, rows[1..], updatedAt, epoch, disk, cn, id);
        }
      } else {
        PollAttribution(usage, ids, cn', cands, rows[1..], updatedAt, epoch, disk, cn, id);
      }
    }
  }

  lemma ChoiceIsOlder(row: Row, cands: seq<Candidate>, updatedAt: int, i: int)
    requires IsChoice(row, cands, updatedAt, i)
    ensures 0 <= i < |cands| && !(updatedAt > 0 && Stamp(cands[i]) > 0 && updatedAt <= Stamp(cands[i]))
  {
  }

  // ----- which markers of other users a disconnect can remove ----------------------------------------------

  /** w, extended by a dot, begins the name u.tail. */
  predicate Leads(w: string, u: string, tail: string) {
    || w == u || Text.HasPrefix(u, w + ".")
    || (Text.HasPrefix(w, u + ".") && Text.HasPrefix(tail, w[|u| + 1..] + "."))
  }

  lemma LeadsExactly(w: string, u: string, tail: string)
    ensures Text.HasPrefix(u + "." + tail, w + ".") <==> Leads(w, u, tail)
  {
    var f, p := u + "." + tail, w + ".";
    if |w| < |u| {
      assert f[..|p|] == u[..|p|];
    } else if |w| == |u| {
      assert f[..|u|] == u && f[|u|] == '.' && p[..|w|] == w;
    } else {
      LeadsFurther(w, u, tail);
    }
  }

  lemma LeadsFurther(w: string, u: string, tail: string)
    requires |w| > |u|
    ensures Text.HasPrefix(u + "." + tail, w + ".") <==> Leads(w, u, tail)
  {
    var f, p, r := u + "." + tail, w + ".", w[|u| + 1..] + ".";
    assert p == w[..|u| + 1] + r && f == (u + ".") + tail;
    SamePrefix(w[..|u| + 1], r, u + ".", tail);
    assert Text.HasPrefix(w, u + ".") <==> w[..|u| + 1] == u + ".";
  }

  /** Two texts cut at the same place begin alike exactly when both pieces do. */
  lemma SamePrefix(a: string, b: string, c: string, d: string)
    requires |a| == |c|
    ensures Text.HasPrefix(c + d, a + b) <==> a == c && Text.HasPrefix(d, b)
  {
    assert (a + b)[..|a|] == a && (c + d)[..|c|] == c;
    assert (a + b)[|a|..] == b && (c + d)[|c|..] == d;
    if Text.HasPrefix(c + d, a + b) {
      assert forall i :: 0 <= i < |a| ==> a[i] == (a + b)[i] == (c + d)[i] == c[i];
      assert forall i :: 0 <= i < |b| ==> b[i] == (a + b)[|a| + i] == (c + d)[|a| + i] == d[i];
    }
  }

  /** The pool, after a dot, ends the name u.tail. */
  predicate Trails(pool: string, u: string, tail: string) {
    || pool == tail || Text.HasSuffix(tail, "." + pool)
    || (Text.HasSuffix(pool, "." + tail) && Text.HasSuffix(u, "." + pool[..|pool| - |tail| - 1]))
  }

  lemma TrailsExactly(pool: string, u: string, tail: string)
    ensures Text.HasSuffix(u + "." + tail, "." + pool) <==> Trails(pool, u, tail)
  {
    var f, p := u + "." + tail, "." + pool;
    if |pool| < |tail| {
      assert f[|f| - |p|..] == tail[|tail| - |p|..];
    } else if |pool| == |tail| {
      assert f[|f| - |p|..] == "." + tail;
      assert ("." + tail)[1..] == tail && ("." + pool)[1..] == pool;
    } else {
      TrailsFurther(pool, u, tail);
    }
  }

  lemma TrailsFurther(pool: string, u: string, tail: string)
    requires |pool| > |tail|
    ensures Text.HasSuffix(u + "." + tail, "." + pool) <==> Trails(pool, u, tail)
  {
    var head, end := pool[..|pool| - |tail| - 1], pool[|pool| - |tail| - 1..];
    assert "." + pool == ("." + head) + end && u + "." + tail == u + ("." + tail);
    SameSuffix(u, "." + tail, "." + head, end);
    assert Text.HasSuffix(pool, "." + tail) <==> end == "." + tail;
  }

  lemma SameSuffix(a: string, b: string, c: string, d: string)
    requires |b| == |d|
    ensures Text.HasSuffix(a + b, c + d) <==> b == d && Text.HasSuffix(a, c)
  {
    if |c| <= |a| {
      var s := (a + b)[|a + b| - |c + d|..];
      assert s == a[|a| - |c|..] + b;
      assert (c + d)[..|c|] == c && (c + d)[|c|..] == d;
      assert s[..|c|] == a[|a| - |c|..] && s[|c|..] == b;
    }
  }

  /** The clean-up of cn reaches the marker u.tail. */
  predicate Reaches(cn: string, pool: string, ip: string, port: string, u: string, tail: string) {
    || Leads(cn + "." + ip + "." + port, u, tail)
    || (pool != "" && Leads(cn, u, tail) && Trails(pool, u, tail))
  }

  lemma ReachesExactly(cn: string, pool: string, ip: string, port: string, u: string, tail: string)
    ensures LegacyName(u + "." + tail, cn, pool, ip, port) <==> Reaches(cn, pool, ip, port, u, tail)
  {
    hide Leads, Trails, Text.HasPrefix, Text.HasSuffix;
    LeadsExactly(cn + "." + ip + "." + port, u, tail);
    LeadsExactly(cn, u, tail);
    TrailsExactly(pool, u, tail);
  }

  /** A marker file is named after its user, as every connect names it. */
  predicate NamedAfterUser(f: string, m: Marker) { Text.HasPrefix(f, m.commonName + ".") }

  function Tail(f: string, m: Marker): string
    requires NamedAfterUser(f, m)
  {
    f[|m.commonName| + 1..]
  }

  predicate AllNamed(s: Sessions) { forall f :: f in s ==> NamedAfterUser(f, s[f]) }

  lemma NamesStep(n: Node, s: Step)
    requires Regular(n, s) && AllNamed(n.sessions)
    ensures AllNamed(Next(n, s).sessions)
  {
    hide Next, Regular, InstalledMarker, NewId, HookCN;
    var after := Next(n, s).sessions;
    forall f | f in after ensures NamedAfterUser(f, after[f]) {
      MarkersAfter(n, s, f);
      if Installs(s, f, after[f]) {
        InstalledIsNew(n, s, f, after[f]);
        KeyIsNamed(HookCN(s.e, s.arg), s.e);
      }
    }
  }

  lemma KeyIsNamed(cn: string, e: Env)
    ensures Text.HasPrefix(HookKey(cn, e), cn + ".")
  {
    var ip, port := Names.Sanitize(OrUnknown(e.trustedIP)), Names.Sanitize(OrUnknown(e.trustedPort));
    var key := HookKey(cn, e);
    assert key == cn + "." + PoolKey(e.poolIP) || key == (cn + ".") + ("noip." + ip + "." + port);
  }

  /** In every run from markers named after their users, all markers stay so. */
  lemma {:induction false} MarkersStayNamed(ns: seq<Node>, ss: seq<Step>, j: nat)
    requires IsRun(ns, ss) && AllNamed(ns[0].sessions) && j < |ns|
    ensures AllNamed(ns[j].sessions)
  {
    hide Next, Regular, AllNamed;
    if j > 0 {
      MarkersStayNamed(ns, ss, j - 1);
      assert StepAt(ns, ss, j - 1);
      NamesStep(ns[j - 1], ss[j - 1]);
    }
  }

  /** Another user's marker that the file system would let go. */
  predicate OfOther(n: Node, f: string, cn: string, x: Faults) {
    f in n.sessions && f !in x.stuck && n.sessions[f].commonName != cn
  }

  /** The disconnect leaves every removable marker of another user on disk. */
  predicate SparesOthers(n: Node, e: Env, arg: string, epoch: string, x: Faults) {
    forall f :: f in n.sessions && OfOther(n, f, HookCN(e, arg), x) ==> f in DisconnectStep(n, e, arg, epoch, x).sessions
  }

  /** The clean-up of this disconnect would reach the marker in the file f, going by the names. */
  predicate InReach(e: Env, arg: string, f: string, m: Marker)
    requires NamedAfterUser(f, m)
  {
    Reaches(HookCN(e, arg), PoolKey(e.poolIP), Names.Sanitize(OrUnknown(e.trustedIP)), Names.Sanitize(OrUnknown(e.trustedPort)),
            m.commonName, Tail(f, m))
  }

  lemma CleansExactly(n: Node, e: Env, arg: string, x: Faults, f: string)
    requires f in n.sessions && NamedAfterUser(f, n.sessions[f])
    ensures Cleans(n, e, arg, x, f) <==> FallsBack(n, e, arg, x) && f !in x.stuck && InReach(e, arg, f, n.sessions[f])
  {
    hide FallsBack, LegacyName, Reaches, HookCN, PoolKey, Names.Sanitize;
    var m := n.sessions[f];
    assert f == m.commonName + "." + Tail(f, m);
    ReachesExactly(HookCN(e, arg), PoolKey(e.poolIP), Names.Sanitize(OrUnknown(e.trustedIP)),
                   Names.Sanitize(OrUnknown(e.trustedPort)), m.commonName, Tail(f, m));
  }

  /** MAIN: any disconnect, whichever branch it takes, leaves all removable markers of other users on disk
      exactly when no such marker's user and pool address are in reach of a clean-up that it falls back to,
      and no other user's marker is under its own key when it closes that. */
  lemma OthersSparedExactly(n: Node, e: Env, arg: string, epoch: string, x: Faults)
    requires AllNamed(n.sessions)
    ensures SparesOthers(n, e, arg, epoch, x) <==>
      && (FallsBack(n, e, arg, x) ==>
            forall f :: f in n.sessions && OfOther(n, f, HookCN(e, arg), x) ==> !InReach(e, arg, f, n.sessions[f]))
      && (Closes(n, e, arg, epoch, x) ==> n.sessions[HookKey(HookCN(e, arg), e)].commonName == HookCN(e, arg))
  {
    hide DisconnectStep, Cleans, FallsBack, InReach, HookKey, HookCN, NamedAfterUser;
    forall f | f in n.sessions
      ensures f !in x.stuck ==> (f in DisconnectStep(n, e, arg, epoch, x).sessions <==>
        !(FallsBack(n, e, arg, x) && InReach(e, arg, f, n.sessions[f]))
        && !(Closes(n, e, arg, epoch, x) && f == HookKey(HookCN(e, arg), e)))
    {
      DisconnectRemoves(n, e, arg, epoch, x, f);
      CleansExactly(n, e, arg, x, f);
    }
  }

  // ----- names that are safe, and names that are not --------------------------------------------------------

  lemma DotInPrefix(s: string, p: string)
    ensures Text.HasPrefix(s, p) && '.' in p ==> '.' in s
  {
    if Text.HasPrefix(s, p) && '.' in p {
      var i :| 0 <= i < |p| && p[i] == '.';
      assert s[i] == '.';
    }
  }

  lemma UndottedNeverLeads(w: string, u: string, tail: string)
    requires '.' !in w && '.' !in u && w != u
    ensures !Leads(w, u, tail)
  {
    assert (w + ".")[|w|] == '.' && (u + ".")[|u|] == '.';
    DotInPrefix(u, w + ".");
    DotInPrefix(w, u + ".");
  }

  lemma UndottedHead(cn: string, rest: string, u: string, tail: string)
    requires '.' !in cn && '.' !in u && cn != u
    ensures !Leads(cn + "." + rest, u, tail)
  {
    var w := cn + "." + rest;
    assert w[|cn|] == '.';
    DotInPrefix(u, w + ".");
    if Text.HasPrefix(w, u + ".") { SameHead(cn, rest, u, w[|u| + 1..]); }
  }

  /** A text has only one undotted part before its first dot. */
  lemma SameHead(a: string, b: string, c: string, d: string)
    requires '.' !in a && '.' !in c && a + "." + b == c + "." + d
    ensures a == c
  {
    Text.CutConcat(a, '.', b);
    Text.CutConcat(c, '.', d);
  }

  lemma UndottedOutOfReach(cn: string, pool: string, ip: string, port: string, u: string, tail: string)
    requires '.' !in cn && '.' !in u && cn != u
    ensures !Reaches(cn, pool, ip, port, u, tail)
  {
    hide Leads, Trails;
    UndottedNeverLeads(cn, u, tail);
    UndottedHead(cn, ip + "." + port, u, tail);
    assert cn + "." + (ip + "." + port) == cn + "." + ip + "." + port;
  }

  lemma UndottedOwnKey(key: string, m: Marker, cn: string)
    requires NamedAfterUser(key, m) && Text.HasPrefix(key, cn + ".") && '.' !in cn && '.' !in m.commonName
    ensures m.commonName == cn
  {
    assert key == cn + "." + key[|cn| + 1..] && key == m.commonName + "." + Tail(key, m);
    SameHead(cn, key[|cn| + 1..], m.commonName, Tail(key, m));
  }

  /** MAIN: while no user name has a dot, no disconnect removes another user's marker. */
  lemma UndottedNamesAreSafe(n: Node, e: Env, arg: string, epoch: string, x: Faults)
    requires AllNamed(n.sessions) && '.' !in HookCN(e, arg)
    requires forall f :: f in n.sessions ==> '.' !in n.sessions[f].commonName
    ensures SparesOthers(n, e, arg, epoch, x)
  {
    var cn, key := HookCN(e, arg), HookKey(HookCN(e, arg), e);
    KeyIsNamed(cn, e);
    if key in n.sessions { UndottedOwnKey(key, n.sessions[key], cn); }
    hide Acts, FallsBack, HookKey, HookCN, Reaches, SparesOthers, Record, DisconnectMatches, PoolKey, Names.Sanitize,
      NamedAfterUser,
      AllNamed, Text.HasPrefix;
    forall f | f in n.sessions && OfOther(n, f, cn, x) ensures NamedAfterUser(f, n.sessions[f]) && !InReach(e, arg, f, n.sessions[f]) {
      NamedIn(n.sessions, f);
      var m := n.sessions[f];
      UndottedOutOfReach(cn, PoolKey(e.poolIP), Names.Sanitize(OrUnknown(e.trustedIP)), Names.Sanitize(OrUnknown(e.trustedPort)),
                         m.commonName, Tail(f, m));
    }
    OthersSparedExactly(n, e, arg, epoch, x);
  }

  lemma NamedIn(s: Sessions, f: string)
    requires AllNamed(s) && f in s
    ensures NamedAfterUser(f, s[f])
  {
  }

  /** A disconnect of cn that finds no marker under its own key removes the marker of the user cn.rest at the
      same pool address. */
  lemma LongerNameIsRemoved(n: Node, e: Env, arg: string, epoch: string, x: Faults, rest: string)
    requires FallsBack(n, e, arg, x) && PoolKey(e.poolIP) != ""
    requires var f := HookCN(e, arg) + "." + rest + "." + PoolKey(e.poolIP);
      && OfOther(n, f, HookCN(e, arg), x) && n.sessions[f].commonName == HookCN(e, arg) + "." + rest
    ensures HookCN(e, arg) + "." + rest + "." + PoolKey(e.poolIP) !in DisconnectStep(n, e, arg, epoch, x).sessions
    ensures !SparesOthers(n, e, arg, epoch, x)
  {
    hide FallsBack, HookCN, PoolKey, DisconnectStep, Closes, Names.Sanitize;
    var cn, pool := HookCN(e, arg), PoolKey(e.poolIP);
    var u := cn + "." + rest;
    var f := u + "." + pool;
    assert Text.HasPrefix(u, cn + ".") by { assert u == (cn + ".") + rest; }
    NameIsReached(n, e, arg, epoch, x, u, pool);
  }

  /** And so does one of u.r for the marker of the user u, when the shared pool address begins with r. */
  lemma ShorterNameIsRemoved(n: Node, e: Env, arg: string, epoch: string, x: Faults, u: string, r: string)
    requires FallsBack(n, e, arg, x) && HookCN(e, arg) == u + "." + r && Text.HasPrefix(PoolKey(e.poolIP), r + ".")
    requires var f := u + "." + PoolKey(e.poolIP);
      OfOther(n, f, HookCN(e, arg), x) && n.sessions[f].commonName == u
    ensures u + "." + PoolKey(e.poolIP) !in DisconnectStep(n, e, arg, epoch, x).sessions
    ensures !SparesOthers(n, e, arg, epoch, x)
  {
    hide FallsBack, HookCN, PoolKey, DisconnectStep, Closes, Names.Sanitize;
    var cn, pool := HookCN(e, arg), PoolKey(e.poolIP);
    assert Text.HasPrefix(cn, u + ".") && cn[|u| + 1..] == r;
    NameIsReached(n, e, arg, epoch, x, u, pool);
  }

  lemma NameIsReached(n: Node, e: Env, arg: string, epoch: string, x: Faults, u: string, pool: string)
    requires FallsBack(n, e, arg, x) && pool == PoolKey(e.poolIP) != "" && Leads(HookCN(e, arg), u, pool)
    requires var f := u + "." + pool; OfOther(n, f, HookCN(e, arg), x) && n.sessions[f].commonName == u
    ensures u + "." + pool !in DisconnectStep(n, e, arg, epoch, x).sessions
    ensures !SparesOthers(n, e, arg, epoch, x)
  {
    hide FallsBack, HookCN, PoolKey, DisconnectStep, Closes, Leads, Names.Sanitize;
    var f := u + "." + pool;
    assert f == (u + ".") + pool && NamedAfterUser(f, n.sessions[f]) && Tail(f, n.sessions[f]) == pool;
    CleansExactly(n, e, arg, x, f);
    DisconnectRemoves(n, e, arg, epoch, x, f);
  }
}
