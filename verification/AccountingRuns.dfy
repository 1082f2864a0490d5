/** Accounting over whole runs: receipts outlive the markers that could replay them. */
module AccountingRuns {
  import opened Wrappers
  import opened Counter
  import opened Markers
  import opened Hooks
  import Names
  import Text

  datatype Step =
    | Connecting(e: Env, arg: string, a: Arrival, epoch: string, x: Faults)
    | Disconnecting(e: Env, arg: string, epoch: string, x: Faults)
    | Booking(cn: string, listing: seq<string>, rows: seq<Row>, updatedAt: int, epoch: string, disk: Disk)
    | Retiring(live: Presence, read: set<string>, order: seq<string>, failing: set<string>)
    | Removing(snapshot: Option<seq<Row>>, now: int, ttl: int, stuck: set<string>)
    | Sweeping(rescan: Option<set<string>>, order: seq<string>, failing: set<string>)
    | Banking(cn: string, delta: u64, epoch: string, disk: Disk)
    | Vanishing(f: string)  // a marker removed by anything else

  function Next(n: Node, s: Step): Node {
    match s
    case Connecting(e, arg, a, epoch, x) => ConnectStep(n, e, arg, a, epoch, x).0
    case Disconnecting(e, arg, epoch, x) => DisconnectStep(n, e, arg, epoch, x)
    case Booking(cn, listing, rows, updatedAt, epoch, disk) => PollBook(n, cn, listing, rows, updatedAt, epoch, disk)
    case Retiring(live, read, order, failing) => PollRetire(n, live, read, order, failing)
    case Removing(snapshot, now, ttl, stuck) => PurgeRemove(n, snapshot, now, ttl, stuck)
    case Sweeping(rescan, order, failing) => PurgeRetire(n, rescan, order, failing)
    case Banking(cn, delta, epoch, disk) => n.(usage := Bank(n.usage, cn, delta, epoch, disk).0)
    case Vanishing(f) => n.(sessions := n.sessions - {f})
  }

  function NewId(s: Step): string
    requires s.Connecting?
  {
    HookKey(HookCN(s.e, s.arg), s.e) + "." + s.a.gen
  }

  /** What the system around the steps guarantees: fresh epochs are not empty, connects carry one-line
      addresses, a generation and a clock, and the prunes visit names as
      the source collects them: counter files, and owners of removed markers (AffectedAreTrimmed). */
  predicate Regular(n: Node, s: Step) {
    match s
    case Connecting(e, arg, a, epoch, x) =>
      epoch != "" && IsGeneration(a.gen) && 0 < a.now <= Text.INT64_MAX && Writable(NewMarker(HookCN(e, arg), e, a))
    case Disconnecting(e, arg, epoch, x) => epoch != ""
    case Booking(cn, listing, rows, updatedAt, epoch, disk) => epoch != ""
    case Retiring(live, read, order, failing) => forall o :: o in order ==> Names.StoreKey(o)
    case Removing(snapshot, now, ttl, stuck) => true
    case Sweeping(rescan, order, failing) => AllTrimmed(order)
    case Banking(cn, delta, epoch, disk) => epoch != ""
    case Vanishing(f) => true
  }

  predicate AllTrimmed(order: seq<string>) { forall o :: o in order ==> Text.TrimSpace(o) == o }

  predicate StepAt(ns: seq<Node>, ss: seq<Step>, k: nat)
    requires k < |ss| && |ns| == |ss| + 1
  {
    Regular(ns[k], ss[k]) && ns[k + 1] == Next(ns[k], ss[k])
  }

  predicate IsRun(ns: seq<Node>, ss: seq<Step>) {
    |ns| == |ss| + 1 && forall k :: 0 <= k < |ss| ==> StepAt(ns, ss, k)
  }

  /** The counter of cn holds a closed receipt for id. */
  predicate ClosedIn(files: Files, cn: string, id: string) {
    Names.StoreKey(cn) &&
    var r := ReadFile(files, cn, "");
    r.Ok? && id in r.value.sessions && r.value.sessions[id].closed
  }

  // ----- what each call keeps ---------------------------------------------------------------------

  lemma ClosedAfterWrite(files: Files, safe: string, st: UsageState, cn: string, id: string)
    requires st.version == COUNTER_VERSION && st.epoch != ""
    requires ClosedIn(files, cn, id)
    requires safe == cn ==> id in st.sessions && st.sessions[id].closed
    ensures ClosedIn(files[safe := Encode(st)], cn, id)
  {
  }

  lemma RecordKeeps(files: Files, cn': string, id': string, bytes: u64, closed: bool, epoch: string, disk: Disk,
                    cn: string, id: string)
    requires epoch != "" && ClosedIn(files, cn, id)
    ensures ClosedIn(Record(files, cn', id', bytes, closed, epoch, disk).0, cn, id)
  {
    var (files', r) := Record(files, cn', id', bytes, closed, epoch, disk);
    if r.Ok? { ClosedAfterWrite(files, Names.SafeCN(cn').value, r.value, cn, id); }
  }

  lemma BankKeeps(files: Files, cn': string, delta: u64, epoch: string, disk: Disk, cn: string, id: string)
    requires epoch != "" && ClosedIn(files, cn, id)
    ensures ClosedIn(Bank(files, cn', delta, epoch, disk).0, cn, id)
  {
    if Names.SafeCN(cn').Some? && ReadFile(files, Names.SafeCN(cn').value, epoch).Ok? {
      var r := ReadFile(files, Names.SafeCN(cn').value, epoch);
      var st := BankState(Upgraded(r.value, epoch), delta);
      if st.Some? { ClosedAfterWrite(files, Names.SafeCN(cn').value, st.value, cn, id); }
    }
  }

  lemma PruneKeeps(files: Files, cn': string, present: set<string>, disk: Disk, cn: string, id: string)
    requires ClosedIn(files, cn, id)
    requires Names.SafeCN(cn') == Some(cn) ==> id in present
    ensures ClosedIn(Prune(files, cn', present, disk).0, cn, id)
  {
    if Names.SafeCN(cn').Some? && ReadFile(files, Names.SafeCN(cn').value, "").Ok? {
      var r := ReadFile(files, Names.SafeCN(cn').value, "");
      if PruneState(r.value, present) != r.value {
        ClosedAfterWrite(files, Names.SafeCN(cn').value, PruneState(r.value, present), cn, id);
      }
    }
  }

  lemma {:induction false} BookRowsKeeps(files: Files, ids: set<string>, cn': string, cands: seq<Candidate>, rows: seq<Row>,
                                         updatedAt: int, epoch: string, disk: Disk, cn: string, id: string)
    requires epoch != "" && ClosedIn(files, cn, id)
    ensures ClosedIn(BookRows(files, ids, cn', cands, rows, updatedAt, epoch, disk).0, cn, id)
    decreases |rows|
  {
    if rows != [] {
      match RowId(rows[0], cands, updatedAt)
      case None => BookRowsKeeps(files, ids, cn', cands, rows[1..], updatedAt, epoch, disk, cn, id);
      case Some(rid) =>
        var bytes := WrapAdd(rows[0].bytesReceived, rows[0].bytesSent);
        RecordKeeps(files, cn', rid, bytes, false, epoch, disk, cn, id);
        var files' := Record(files, cn', rid, bytes, false, epoch, disk).0;
        BookRowsKeeps(files', ids + {rid}, cn', cands, rows[1..], updatedAt, epoch, disk, cn, id);
    }
  }

  /** Every prune in the order that is aimed at cn finds id present. */
  predicate Protects(present: Presence, order: seq<string>, cn: string, id: string) {
    forall o :: o in order && Names.SafeCN(o) == Some(cn) ==> id in PresentIn(present, o)
  }

  lemma {:induction false} RetireKeeps(files: Files, present: Presence, order: seq<string>, failing: set<string>,
                                       cn: string, id: string)
    requires ClosedIn(files, cn, id) && Protects(present, order, cn, id)
    ensures ClosedIn(Retire(files, present, order, failing), cn, id)
    ensures ClosedIn(RetireAll(files, present, order, failing), cn, id)
    decreases |order|
  {
    if order != [] {
      assert order[0] in order;
      PruneKeeps(files, order[0], PresentIn(present, order[0]), Disk(true, order[0] !in failing), cn, id);
      var files' := Prune(files, order[0], PresentIn(present, order[0]), Disk(true, order[0] !in failing)).0;
      assert Protects(present, order[1..], cn, id);
      RetireKeeps(files', present, order[1..], failing, cn, id);
    }
  }

  // ----- receipts outlive their markers -------------------------------------------------------------

  /** A visible marker of cn that a disconnect would close under id. */
  predicate Carries(s: Sessions, f: string, cn: string, id: string) {
    f in s && Visible(f) && s[f].commonName == cn && MarkerId(s[f], f) == id
  }

  predicate TrimmedNames(s: Sessions) {
    forall f :: f in s ==> Text.TrimSpace(s[f].commonName) == s[f].commonName
  }

  lemma PresentWhileCarried(s: Sessions, f: string, cn: string, id: string)
    requires Carries(s, f, cn, id) && Names.StoreKey(cn)
    ensures id in PollPresent(s, cn) && id in PurgePresent(s, cn)
  {
  }

  lemma NewMarkerIsRead(s: Step, n: Node)
    requires s.Connecting? && Regular(n, s)
    ensures var cn := HookCN(s.e, s.arg);
      && InstalledMarker(cn, s.e, s.a) == Reread(NewMarker(cn, s.e, s.a))
      && InstalledMarker(cn, s.e, s.a).commonName == cn
      && InstalledMarker(cn, s.e, s.a).sessionID == NewId(s) != ""
  {
    ReadWrittenMarker(NewMarker(HookCN(s.e, s.arg), s.e, s.a));
  }

  lemma InstallKeeps(n: Node, cn': string, key: string, m: Marker, poolIP: string, rows: seq<Row>, epoch: string,
                     x: Faults, cn: string, id: string)
    requires epoch != "" && ClosedIn(n.usage, cn, id)
    ensures ClosedIn(Install(n, cn', key, m, poolIP, rows, epoch, x).0.usage, cn, id)
  {
    hide ClosedIn, Record, PoolBytes;
    var bytes := PoolBytes(rows, poolIP);
    if key in n.sessions && bytes.Some? {
      RecordKeeps(n.usage, cn', n.sessions[key].sessionID, bytes.value, true, epoch, x.usage, cn, id);
    }
  }

  lemma ConnectKeeps(n: Node, e: Env, arg: string, a: Arrival, epoch: string, x: Faults, cn: string, id: string)
    requires epoch != "" && ClosedIn(n.usage, cn, id)
    ensures ClosedIn(ConnectStep(n, e, arg, a, epoch, x).0.usage, cn, id)
  {
    hide InstalledMarker, Install, ClosedIn, Admits, LiveRows, HookKey, Acceptable;
    var ccn := HookCN(e, arg);
    InstallKeeps(n, ccn, HookKey(ccn, e), InstalledMarker(ccn, e, a), e.poolIP, LiveRows(a.rows, ccn), epoch, x, cn, id);
  }

  lemma DisconnectKeeps(n: Node, e: Env, arg: string, epoch: string, x: Faults, cn: string, id: string)
    requires epoch != "" && ClosedIn(n.usage, cn, id)
    ensures ClosedIn(DisconnectStep(n, e, arg, epoch, x).usage, cn, id)
  {
    hide ClosedIn, Record, WithoutLegacy, DisconnectMatches, Acceptable, HookKey, ByteCounter, MarkerId;
    var dcn := HookCN(e, arg);
    var key := HookKey(dcn, e);
    if key in n.sessions {
      RecordKeeps(n.usage, dcn, MarkerId(n.sessions[key], key),
                  WrapAdd(ByteCounter(e.bytesReceived), ByteCounter(e.bytesSent)), true, epoch, x.usage, cn, id);
    }
  }

  /** A step's marker scan, if it has one, reads the file f or finds the id live. */
  predicate Scans(s: Step, f: string, cn: string, id: string) {
    match s
    case Retiring(live, read, _, _) => f in read || id in PresentIn(live, cn)
    case Sweeping(rescan, _, _) => rescan.Some? ==> f in rescan.value
    case _ => true
  }

  lemma PollRetireKeeps(n: Node, live: Presence, read: set<string>, order: seq<string>, failing: set<string>, f: string,
                        cn: string, id: string)
    requires forall o :: o in order ==> Names.StoreKey(o)
    requires f in read || id in PresentIn(live, cn)
    requires ClosedIn(n.usage, cn, id) && Carries(PollRetire(n, live, read, order, failing).sessions, f, cn, id)
    ensures ClosedIn(PollRetire(n, live, read, order, failing).usage, cn, id)
  {
    var present := PollPresence(Seen(n.sessions, read), live, order);
    if f in read {
      SeenCarries(n.sessions, read, f, cn, id);
      PresentWhileCarried(Seen(n.sessions, read), f, cn, id);
    }
    forall o | o in order && Names.SafeCN(o) == Some(cn) ensures id in PresentIn(present, o) {
      assert Names.SafeCN(o) == Some(o);
    }
    RetireKeeps(n.usage, present, order, failing, cn, id);
  }

  lemma SeenCarries(s: Sessions, read: set<string>, f: string, cn: string, id: string)
    requires Carries(s, f, cn, id) && f in read
    ensures Carries(Seen(s, read), f, cn, id)
  {
  }

  lemma TrimmedIsExact(order: seq<string>, o: string, cn: string)
    requires AllTrimmed(order) && o in order && Names.SafeCN(o) == Some(cn)
    ensures o == cn
  {
  }

  lemma SweepProtects(seen: Sessions, order: seq<string>, f: string, cn: string, id: string)
    requires AllTrimmed(order) && Carries(seen, f, cn, id) && Names.StoreKey(cn)
    ensures Protects(PurgePresence(seen, order), order, cn, id)
  {
    hide Carries, AllTrimmed, PurgePresent, Names.SafeCN, Names.StoreKey;
    PresentWhileCarried(seen, f, cn, id);
    forall o | o in order && Names.SafeCN(o) == Some(cn) ensures id in PresentIn(PurgePresence(seen, order), o) {
      TrimmedIsExact(order, o, cn);
    }
  }

  lemma SweepKeeps(n: Node, read: Option<set<string>>, order: seq<string>, failing: set<string>, f: string, cn: string, id: string)
    requires AllTrimmed(order) && ClosedIn(n.usage, cn, id) && (read.Some? ==> f in read.value)
    requires Carries(PurgeRetire(n, read, order, failing).sessions, f, cn, id)
    ensures ClosedIn(PurgeRetire(n, read, order, failing).usage, cn, id)
  {
    assert Names.StoreKey(cn);
    hide Carries, AllTrimmed, PurgePresence, Seen, RetireAll, ClosedIn, Protects, Names.StoreKey;
    if read.Some? {
      var seen := Seen(n.sessions, read.value);
      SeenCarries(n.sessions, read.value, f, cn, id);
      SweepProtects(seen, order, f, cn, id);
      RetireKeeps(n.usage, PurgePresence(seen, order), order, failing, cn, id);
    }
  }

  /** The owners of markers whose names are trimmed are trimmed names. */
  lemma AffectedAreTrimmed(s: Sessions, gone: set<string>, order: seq<string>)
    requires TrimmedNames(s) && forall o :: o in order ==> o in Affected(s, gone)
    ensures AllTrimmed(order)
  {
    forall o | o in order ensures Text.TrimSpace(o) == o {
      var g :| g in gone && g in s && s[g].commonName == o;
    }
  }

  /** A purge on its own is a removal and, if it had a snapshot, a sweep in the names of the owners. */
  lemma PurgeIsTwoSteps(n: Node, rows: seq<Row>, now: int, ttl: int, stuck: set<string>, read: Option<set<string>>,
                        order: seq<string>, failing: set<string>)
    requires TrimmedNames(n.sessions)
    requires forall o :: o in order ==> o in Affected(n.sessions, StaleFiles(n.sessions, LivePools(rows), now, ttl, stuck))
    ensures var removal, sweep := Removing(Some(rows), now, ttl, stuck), Sweeping(read, order, failing);
      && Regular(n, removal) && Regular(Next(n, removal), sweep)
      && Next(Next(n, removal), sweep) == PurgeStep(n, Some(rows), now, ttl, stuck, read, order, failing)
  {
    hide StaleFiles, LivePools, TrimmedNames, Affected, PurgeRetire, AllTrimmed;
    AffectedAreTrimmed(n.sessions, StaleFiles(n.sessions, LivePools(rows), now, ttl, stuck), order);
  }

  lemma BookKeeps(n: Node, bcn: string, listing: seq<string>, rows: seq<Row>, updatedAt: int, epoch: string, disk: Disk,
                  cn: string, id: string)
    requires epoch != "" && ClosedIn(n.usage, cn, id)
    ensures ClosedIn(PollBook(n, bcn, listing, rows, updatedAt, epoch, disk).usage, cn, id)
  {
    BookRowsKeeps(n.usage, {}, bcn, Candidates(n.sessions, listing, bcn), rows, updatedAt, epoch, disk, cn, id);
  }

  /** A step keeps a receipt as long as the marker that could replay it is still there and the step's scan
      reads it. */
  lemma StepKeeps(n: Node, s: Step, f: string, cn: string, id: string)
    requires Regular(n, s) && TrimmedNames(n.sessions) && Scans(s, f, cn, id)
    requires ClosedIn(n.usage, cn, id) && Carries(Next(n, s).sessions, f, cn, id)
    ensures ClosedIn(Next(n, s).usage, cn, id)
  {
    hide ConnectStep, DisconnectStep, PollBook, PollRetire, PurgeRetire, Bank;
    hide Writable, NewMarker, StaleFiles, LivePools, AllTrimmed, ClosedIn, Carries, TrimmedNames, PresentIn;
    match s
    case Connecting(e, arg, a, epoch, x) => ConnectKeeps(n, e, arg, a, epoch, x, cn, id);
    case Disconnecting(e, arg, epoch, x) => DisconnectKeeps(n, e, arg, epoch, x, cn, id);
    case Booking(bcn, listing, rows, updatedAt, epoch, disk) =>
      BookKeeps(n, bcn, listing, rows, updatedAt, epoch, disk, cn, id);
    case Retiring(live, read, order, failing) => PollRetireKeeps(n, live, read, order, failing, f, cn, id);
    case Removing(_, _, _, _) =>
    case Sweeping(rescan, order, failing) => SweepKeeps(n, rescan, order, failing, f, cn, id);
    case Banking(bcn, delta, epoch, disk) => BankKeeps(n.usage, bcn, delta, epoch, disk, cn, id);
    case Vanishing(_) =>
  }

  /** The step is a connect that leaves the marker m in the file f. */
  predicate Installs(s: Step, f: string, m: Marker) {
    && s.Connecting? && f == HookKey(HookCN(s.e, s.arg), s.e)
    && m == InstalledMarker(HookCN(s.e, s.arg), s.e, s.a)
  }

  lemma InstallSessions(n: Node, cn: string, key: string, m: Marker, poolIP: string, rows: seq<Row>, epoch: string, x: Faults)
    ensures var after := Install(n, cn, key, m, poolIP, rows, epoch, x).0.sessions;
      after == n.sessions || after == n.sessions[key := m]
  {
    hide BankDisplaced;
  }

  lemma ConnectSessions(n: Node, e: Env, arg: string, a: Arrival, epoch: string, x: Faults)
    ensures var cn, after := HookCN(e, arg), ConnectStep(n, e, arg, a, epoch, x).0.sessions;
      after == n.sessions || after == n.sessions[HookKey(cn, e) := InstalledMarker(cn, e, a)]
  {
    hide InstalledMarker, Install, Admits, LiveRows, HookKey, Acceptable;
    var cn := HookCN(e, arg);
    InstallSessions(n, cn, HookKey(cn, e), InstalledMarker(cn, e, a), e.poolIP, LiveRows(a.rows, cn), epoch, x);
  }

  lemma DisconnectSessions(n: Node, e: Env, arg: string, epoch: string, x: Faults, f: string)
    requires f in DisconnectStep(n, e, arg, epoch, x).sessions
    ensures f in n.sessions && DisconnectStep(n, e, arg, epoch, x).sessions[f] == n.sessions[f]
  {
  }

  /** A marker after a step was there before it, or the step installed it. */
  lemma MarkersAfter(n: Node, s: Step, f: string)
    requires f in Next(n, s).sessions
    ensures (f in n.sessions && Next(n, s).sessions[f] == n.sessions[f]) || Installs(s, f, Next(n, s).sessions[f])
  {
    hide ConnectStep, DisconnectStep, BookRows, Candidates, Retire, RetireAll, StaleFiles, LivePools, PurgePresence,
      PollPresence, Bank, AllReadable;
    hide InstalledMarker;
    match s
    case Connecting(e, arg, a, epoch, x) => ConnectSessions(n, e, arg, a, epoch, x);
    case Disconnecting(e, arg, epoch, x) => DisconnectSessions(n, e, arg, epoch, x, f);
    case Booking(cn, listing, rows, updatedAt, epoch, disk) =>
    case Retiring(live, read, order, failing) =>
    case Removing(snapshot, now, ttl, stuck) =>
    case Sweeping(rescan, order, failing) =>
    case Banking(cn, delta, epoch, disk) =>
    case Vanishing(_) =>
  }

  lemma InstalledIsNew(n: Node, s: Step, f: string, m: Marker)
    requires Regular(n, s) && Installs(s, f, m)
    ensures m.commonName == HookCN(s.e, s.arg) && MarkerId(m, f) == NewId(s)
    ensures m == Reread(NewMarker(HookCN(s.e, s.arg), s.e, s.a))
  {
    NewMarkerIsRead(s, n);
  }

  lemma InstalledIsTrimmed(n: Node, s: Step, f: string, m: Marker)
    requires Regular(n, s) && Installs(s, f, m) && Names.StoreKey(HookCN(s.e, s.arg))
    ensures Text.TrimSpace(m.commonName) == m.commonName
  {
    hide Regular, Installs, Names.StoreKey;
    InstalledIsNew(n, s, f, m);
    var r := Names.SafeCN(m.commonName);
    assert r == Some(m.commonName);
  }

  lemma InstallsOnlyAcceptable(n: Node, s: Step, f: string)
    requires s.Connecting? && Next(n, s).sessions != n.sessions
    ensures Names.StoreKey(HookCN(s.e, s.arg))
  {
    assert Allowed(s.e, s.arg, s.a, s.x);
  }

  lemma TrimmedNamesStep(n: Node, s: Step)
    requires Regular(n, s) && TrimmedNames(n.sessions)
    ensures TrimmedNames(Next(n, s).sessions)
  {
    hide Next, Regular, InstalledMarker, HookKey, NewId;
    var after := Next(n, s).sessions;
    forall f | f in after ensures Text.TrimSpace(after[f].commonName) == after[f].commonName {
      MarkersAfter(n, s, f);
      if !(f in n.sessions && after[f] == n.sessions[f]) {
        InstallsOnlyAcceptable(n, s, f);
        InstalledIsTrimmed(n, s, f, after[f]);
      }
    }
  }

  /** A step that does not draw the id again hands the receipt on to the marker that carries it. */
  lemma StepOutlives(n: Node, s: Step, f: string, cn: string, id: string)
    requires Regular(n, s) && TrimmedNames(n.sessions) && Carries(Next(n, s).sessions, f, cn, id)
    requires Scans(s, f, cn, id)
    requires s.Connecting? ==> !(HookCN(s.e, s.arg) == cn && NewId(s) == id)
    requires Carries(n.sessions, f, cn, id) ==> ClosedIn(n.usage, cn, id)
    ensures ClosedIn(Next(n, s).usage, cn, id)
  {
    hide Next, Regular, InstalledMarker, ClosedIn, TrimmedNames, HookKey, NewId, Scans;
    var m := Next(n, s).sessions[f];
    MarkersAfter(n, s, f);
    if Installs(s, f, m) { InstalledIsNew(n, s, f, m); }
    StepKeeps(n, s, f, cn, id);
  }

  /** Step k, if it is a connect of cn, does not draw an id whose receipt was closed for cn in state i. */
  predicate FreshAt(ns: seq<Node>, ss: seq<Step>, cn: string, i: nat, k: nat)
    requires i < |ns| && k < |ss|
  {
    ss[k].Connecting? && HookCN(ss[k].e, ss[k].arg) == cn ==> !ClosedIn(ns[i].usage, cn, NewId(ss[k]))
  }

  /** No connect of cn draws an id whose receipt was already closed. */
  predicate FreshIds(ns: seq<Node>, ss: seq<Step>, cn: string)
    requires IsRun(ns, ss)
  {
    forall i, k :: 0 <= i <= k < |ss| ==> FreshAt(ns, ss, cn, i, k)
  }

  /** Every marker scan between two states reads the file f or finds the id live. */
  predicate ScansBetween(ss: seq<Step>, i: nat, j: nat, f: string, cn: string, id: string)
    requires j <= |ss|
  {
    forall k :: i <= k < j ==> Scans(ss[k], f, cn, id)
  }

  /** MAIN: in every run, a marker still on disk whose session was ever recorded closed still has its closed
      receipt in the counter, as long as no scan since then failed to read that marker. */
  lemma {:induction false} ReceiptsOutliveMarkers(ns: seq<Node>, ss: seq<Step>, i: nat, j: nat, f: string, cn: string, id: string)
    requires IsRun(ns, ss) && FreshIds(ns, ss, cn) && TrimmedNames(ns[0].sessions)
    requires i <= j < |ns| && ClosedIn(ns[i].usage, cn, id) && Carries(ns[j].sessions, f, cn, id)
    requires ScansBetween(ss, i, j, f, cn, id)
    ensures ClosedIn(ns[j].usage, cn, id)
    decreases j
  {
    hide StepAt, FreshAt, ClosedIn, Carries, TrimmedNames, Scans;
    if i < j {
      if Carries(ns[j - 1].sessions, f, cn, id) { ReceiptsOutliveMarkers(ns, ss, i, j - 1, f, cn, id); }
      RunStepOutlives(ns, ss, i, j - 1, f, cn, id);
    }
  }

  lemma RunStepOutlives(ns: seq<Node>, ss: seq<Step>, i: nat, k: nat, f: string, cn: string, id: string)
    requires IsRun(ns, ss) && FreshIds(ns, ss, cn) && TrimmedNames(ns[0].sessions)
    requires i <= k < |ss| && ClosedIn(ns[i].usage, cn, id) && Carries(ns[k + 1].sessions, f, cn, id)
    requires Scans(ss[k], f, cn, id)
    requires Carries(ns[k].sessions, f, cn, id) ==> ClosedIn(ns[k].usage, cn, id)
    ensures ClosedIn(ns[k + 1].usage, cn, id)
  {
    hide Next, Regular, ClosedIn, Carries, TrimmedNames, Scans;
    NamesStayTrimmed(ns, ss, k);
    assert StepAt(ns, ss, k) && FreshAt(ns, ss, cn, i, k);
    StepOutlives(ns[k], ss[k], f, cn, id);
  }

  lemma {:induction false} NamesStayTrimmed(ns: seq<Node>, ss: seq<Step>, j: nat)
    requires IsRun(ns, ss) && TrimmedNames(ns[0].sessions) && j < |ns|
    ensures TrimmedNames(ns[j].sessions)
  {
    hide Next, Regular, TrimmedNames;
    if j > 0 {
      NamesStayTrimmed(ns, ss, j - 1);
      assert StepAt(ns, ss, j - 1);
      TrimmedNamesStep(ns[j - 1], ss[j - 1]);
    }
  }

  /** Two readings count the same. */
  predicate SameCount(a: Reply, b: Reply) {
    a.Ok? && b.Ok? && a.value.total == b.value.total && a.value.sessions == b.value.sessions
  }

  /** Recording under a closed receipt changes neither the total nor any session. */
  lemma ClosedRecordIsIdle(files: Files, cn: string, id: string, bytes: u64, epoch: string, disk: Disk)
    requires epoch != "" && ClosedIn(files, cn, id)
    ensures SameCount(ReadFile(files, cn, ""), ReadFile(Record(files, cn, id, bytes, true, epoch, disk).0, cn, ""))
  {
    var st := ReadFile(files, cn, epoch).value;
    assert st.sessions[id := st.sessions[id]] == st.sessions;
    if Record(files, cn, id, bytes, true, epoch, disk).1.Ok? {
      RecordReadsBack(files, cn, id, bytes, true, epoch, disk, "");
      assert RecordState(Upgraded(st, epoch), id, bytes, true) == Some(st);
    }
  }

  /** MAIN: so a disconnect that finds such a marker adds nothing, however often it is repeated. */
  lemma ReplayAddsNothing(ns: seq<Node>, ss: seq<Step>, i: nat, j: nat, e: Env, arg: string, epoch: string, x: Faults)
    requires IsRun(ns, ss) && FreshIds(ns, ss, HookCN(e, arg)) && TrimmedNames(ns[0].sessions)
    requires i <= j < |ns| && epoch != ""
    requires var cn, s := HookCN(e, arg), ns[j].sessions;
      var f := HookKey(cn, e);
      && f in s && Carries(s, f, cn, MarkerId(s[f], f)) && ClosedIn(ns[i].usage, cn, MarkerId(s[f], f))
      && ScansBetween(ss, i, j, f, cn, MarkerId(s[f], f))
    ensures var cn := HookCN(e, arg);
      SameCount(ReadFile(ns[j].usage, cn, ""), ReadFile(DisconnectStep(ns[j], e, arg, epoch, x).usage, cn, ""))
  {
    var cn := HookCN(e, arg);
    var f := HookKey(cn, e);
    var id := MarkerId(ns[j].sessions[f], f);
    ReceiptsOutliveMarkers(ns, ss, i, j, f, cn, id);
    ClosedRecordIsIdle(ns[j].usage, cn, id, WrapAdd(ByteCounter(e.bytesReceived), ByteCounter(e.bytesSent)), epoch, x.usage);
  }
}
