/** What every step of the hooks, the poll and the purge does to one user's counter, as calls on it. */
module HookCalls {
  import opened Wrappers
  import opened Counter
  import opened CounterHistory
  import opened Hooks
  import opened AccountingRuns
  import Names

  // ----- the calls of a step -----------------------------------------------------------------------

  /** A call made under the name o concerns the counter of cn or not at all. */
  function On(o: string, cn: string, c: Call): seq<Call> { if Names.SafeCN(o) == Some(cn) then [c] else [] }

  function ClosingCall(id: string, bytes: u64, epoch: string, disk: Disk): Call { Call(Rec(id, bytes, true), epoch, disk) }

  /** A connect closes the session of a readable marker that it displaces. */
  function ConnectCalls(n: Node, e: Env, arg: string, a: Arrival, epoch: string, x: Faults, cn: string): seq<Call> {
    var ccn, key := HookCN(e, arg), HookKey(HookCN(e, arg), e);
    var bytes := PoolBytes(LiveRows(a.rows, ccn), e.poolIP);
    if Allowed(e, arg, a, x) && key in n.sessions && key !in x.unread && n.sessions[key].sessionID != "" && bytes.Some?
    then On(ccn, cn, ClosingCall(n.sessions[key].sessionID, bytes.value, epoch, x.usage))
    else []
  }

  /** Does the disconnect get as far as closing the session of the marker under its key? */
  predicate ReachesCounter(n: Node, e: Env, arg: string, x: Faults) {
    var dcn, key := HookCN(e, arg), HookKey(HookCN(e, arg), e);
    && dcn != "" && Acceptable(dcn) && x.dirOk && x.lockOk && key in n.sessions && key !in x.unseen && key !in x.unread
    && DisconnectMatches(n.sessions[key], key, e.trustedIP, e.trustedPort, KnownStart(e.timeUnix))
  }

  function DisconnectCalls(n: Node, e: Env, arg: string, epoch: string, x: Faults, cn: string): seq<Call> {
    var dcn, key := HookCN(e, arg), HookKey(HookCN(e, arg), e);
    if ReachesCounter(n, e, arg, x)
    then On(dcn, cn, ClosingCall(MarkerId(n.sessions[key], key),
                                 WrapAdd(ByteCounter(e.bytesReceived), ByteCounter(e.bytesSent)), epoch, x.usage))
    else []
  }

  function BookingCall(row: Row, id: string, epoch: string, disk: Disk): Call {
    Call(Rec(id, WrapAdd(row.bytesReceived, row.bytesSent), false), epoch, disk)
  }

  function BookCalls(usage: Files, o: string, cands: seq<Candidate>, rows: seq<Row>, updatedAt: int, epoch: string,
                     disk: Disk, cn: string): seq<Call>
    decreases |rows|
  {
    if rows == [] then []
    else match RowId(rows[0], cands, updatedAt)
      case None => BookCalls(usage, o, cands, rows[1..], updatedAt, epoch, disk, cn)
      case Some(id) =>
        var (usage', r) := Record(usage, o, id, WrapAdd(rows[0].bytesReceived, rows[0].bytesSent), false, epoch, disk);
        On(o, cn, BookingCall(rows[0], id, epoch, disk))
        + if r.Err? then [] else BookCalls(usage', o, cands, rows[1..], updatedAt, epoch, disk, cn)
  }

  function PruneDisk(o: string, failing: set<string>): Disk { Disk(true, o !in failing) }

  function PruneCall(o: string, present: Presence, failing: set<string>): Call {
    Call(PruneTo(PresentIn(present, o)), "", PruneDisk(o, failing))
  }

  function RetireCalls(usage: Files, present: Presence, order: seq<string>, failing: set<string>, cn: string): seq<Call>
    decreases |order|
  {
    if order == [] then [] else
    var (usage', err) := Prune(usage, order[0], PresentIn(present, order[0]), PruneDisk(order[0], failing));
    On(order[0], cn, PruneCall(order[0], present, failing))
    + if err.Some? then [] else RetireCalls(usage', present, order[1..], failing, cn)
  }

  function SweepCalls(present: Presence, order: seq<string>, failing: set<string>, cn: string): seq<Call>
    decreases |order|
  {
    if order == [] then []
    else On(order[0], cn, PruneCall(order[0], present, failing)) + SweepCalls(present, order[1..], failing, cn)
  }

  /** The calls that a step makes on the counter of cn, failing ones included. */
  function Effects(n: Node, s: AccountingRuns.Step, cn: string): seq<Call> {
    match s
    case Connecting(e, arg, a, epoch, x) => ConnectCalls(n, e, arg, a, epoch, x, cn)
    case Disconnecting(e, arg, epoch, x) => DisconnectCalls(n, e, arg, epoch, x, cn)
    case Booking(o, listing, rows, updatedAt, epoch, disk) =>
      BookCalls(n.usage, o, Candidates(n.sessions, listing, o), rows, updatedAt, epoch, disk, cn)
    case Retiring(live, read, order, failing) =>
      if AllReadable(n.usage)
      then RetireCalls(n.usage, PollPresence(Seen(n.sessions, read), live, order), order, failing, cn)
      else []
    case Removing(_, _, _, _) => []
    case Sweeping(rescan, order, failing) =>
      if rescan.Some? then SweepCalls(PurgePresence(Seen(n.sessions, rescan.value), order), order, failing, cn) else []
    case Banking(o, delta, epoch, disk) => On(o, cn, Call(BankBy(delta), epoch, disk))
    case Vanishing(_) => []
  }

  // ----- a step is its calls ------------------------------------------------------------------------

  predicate SameFile(a: Files, b: Files, cn: string) {
    (cn in a <==> cn in b) && (cn in a ==> a[cn] == b[cn])
  }

  lemma PerformSame(a: Files, b: Files, cn: string, c: Call)
    requires SameFile(a, b, cn) && Names.StoreKey(cn)
    ensures SameFile(Perform(a, cn, c), Perform(b, cn, c), cn)
  {
    assert Names.SafeCN(cn) == Some(cn);
    hide Names.SafeCN, Names.StoreKey, RecordState, BankState, PruneState, ResetState, WithMarkerKeys;
  }

  lemma {:induction false} PerformAllSame(a: Files, b: Files, cn: string, calls: seq<Call>)
    requires SameFile(a, b, cn) && Names.StoreKey(cn)
    ensures SameFile(PerformAll(a, cn, calls), PerformAll(b, cn, calls), cn)
  {
    hide SameFile, Perform, Names.StoreKey;
    if calls != [] {
      PerformAllSame(a, b, cn, calls[..|calls| - 1]);
      PerformSame(PerformAll(a, cn, calls[..|calls| - 1]), PerformAll(b, cn, calls[..|calls| - 1]), cn, calls[|calls| - 1]);
    }
  }

  lemma {:induction false} PerformAllConcat(files: Files, cn: string, a: seq<Call>, b: seq<Call>)
    ensures PerformAll(files, cn, a + b) == PerformAll(PerformAll(files, cn, a), cn, b)
  {
    hide Perform;
    if b == [] {
      assert a + b == a;
    } else {
      var b0 := b[..|b| - 1];
      assert (a + b)[..|a + b| - 1] == a + b0 && (a + b)[|a + b| - 1] == b[|b| - 1];
      PerformAllConcat(files, cn, a, b0);
    }
  }

  lemma PerformOne(files: Files, cn: string, c: Call)
    ensures PerformAll(files, cn, [c]) == Perform(files, cn, c) && PerformAll(files, cn, []) == files
  {
    hide Perform;
    assert [c][..0] == [];
    assert PerformAll(files, cn, [c][..0]) == files;
  }

  lemma RecordUnder(files: Files, o: string, id: string, bytes: u64, closed: bool, epoch: string, disk: Disk, cn: string)
    requires Names.StoreKey(cn)
    ensures Names.SafeCN(o) == Some(cn) ==> Record(files, o, id, bytes, closed, epoch, disk) == Record(files, cn, id, bytes, closed, epoch, disk)
    ensures Names.SafeCN(o) != Some(cn) ==> SameFile(Record(files, o, id, bytes, closed, epoch, disk).0, files, cn)
  {
    assert Names.SafeCN(cn) == Some(cn);
    hide Names.SafeCN, Names.StoreKey, RecordState, ReadFile;
  }

  lemma RecordIsCall(files: Files, o: string, id: string, bytes: u64, closed: bool, epoch: string, disk: Disk, cn: string)
    requires Names.StoreKey(cn)
    ensures SameFile(Record(files, o, id, bytes, closed, epoch, disk).0,
                     PerformAll(files, cn, On(o, cn, Call(Rec(id, bytes, closed), epoch, disk))), cn)
  {
    hide Names.SafeCN, Names.StoreKey, Record, PerformAll;
    RecordUnder(files, o, id, bytes, closed, epoch, disk, cn);
    PerformOne(files, cn, Call(Rec(id, bytes, closed), epoch, disk));
  }

  lemma PruneUnder(files: Files, o: string, present: set<string>, disk: Disk, cn: string)
    requires Names.StoreKey(cn)
    ensures Names.SafeCN(o) == Some(cn) ==> Prune(files, o, present, disk) == Prune(files, cn, present, disk)
    ensures Names.SafeCN(o) != Some(cn) ==> SameFile(Prune(files, o, present, disk).0, files, cn)
  {
    assert Names.SafeCN(cn) == Some(cn);
    hide Names.SafeCN, Names.StoreKey, PruneState, ReadFile;
  }

  lemma PruneIsCall(files: Files, o: string, present: set<string>, disk: Disk, cn: string)
    requires Names.StoreKey(cn)
    ensures SameFile(Prune(files, o, present, disk).0, PerformAll(files, cn, On(o, cn, Call(PruneTo(present), "", disk))), cn)
  {
    hide Names.SafeCN, Names.StoreKey, Prune, PerformAll;
    PruneUnder(files, o, present, disk, cn);
    PerformOne(files, cn, Call(PruneTo(present), "", disk));
  }

  lemma BankUnder(files: Files, o: string, delta: u64, epoch: string, disk: Disk, cn: string)
    requires Names.StoreKey(cn)
    ensures Names.SafeCN(o) == Some(cn) ==> Bank(files, o, delta, epoch, disk) == Bank(files, cn, delta, epoch, disk)
    ensures Names.SafeCN(o) != Some(cn) ==> SameFile(Bank(files, o, delta, epoch, disk).0, files, cn)
  {
    assert Names.SafeCN(cn) == Some(cn);
    hide Names.SafeCN, Names.StoreKey, BankState, ReadFile;
  }

  lemma BankIsCall(files: Files, o: string, delta: u64, epoch: string, disk: Disk, cn: string)
    requires Names.StoreKey(cn)
    ensures SameFile(Bank(files, o, delta, epoch, disk).0, PerformAll(files, cn, On(o, cn, Call(BankBy(delta), epoch, disk))), cn)
  {
    hide Names.SafeCN, Names.StoreKey, Bank, PerformAll;
    BankUnder(files, o, delta, epoch, disk, cn);
    PerformOne(files, cn, Call(BankBy(delta), epoch, disk));
  }

  /** One call and then the rest. */
  lemma ThenRest(files: Files, mid: Files, end: Files, cn: string, first: seq<Call>, rest: seq<Call>)
    requires Names.StoreKey(cn) && SameFile(mid, PerformAll(files, cn, first), cn)
    requires SameFile(end, PerformAll(mid, cn, rest), cn)
    ensures SameFile(end, PerformAll(files, cn, first + rest), cn)
  {
    hide PerformAll, Names.StoreKey;
    PerformAllConcat(files, cn, first, rest);
    PerformAllSame(mid, PerformAll(files, cn, first), cn, rest);
  }

  lemma {:induction false} BookIsCalls(usage: Files, ids: set<string>, o: string, cands: seq<Candidate>, rows: seq<Row>,
                                       updatedAt: int, epoch: string, disk: Disk, cn: string)
    requires Names.StoreKey(cn)
    ensures SameFile(BookRows(usage, ids, o, cands, rows, updatedAt, epoch, disk).0,
                     PerformAll(usage, cn, BookCalls(usage, o, cands, rows, updatedAt, epoch, disk, cn)), cn)
    decreases |rows|
  {
    hide Record, PerformAll, SameFile, Names.StoreKey, On, RowId;
    if rows == [] {
      NoCalls(usage, cn);
    } else {
      match RowId(rows[0], cands, updatedAt)
      case None => BookIsCalls(usage, ids, o, cands, rows[1..], updatedAt, epoch, disk, cn);
      case Some(id) =>
        var bytes := WrapAdd(rows[0].bytesReceived, rows[0].bytesSent);
        var (usage', r) := Record(usage, o, id, bytes, false, epoch, disk);
        var first := On(o, cn, BookingCall(rows[0], id, epoch, disk));
        RecordIsCall(usage, o, id, bytes, false, epoch, disk, cn);
        if r.Err? {
          assert first + [] == first;
        } else {
          var rest := BookCalls(usage', o, cands, rows[1..], updatedAt, epoch, disk, cn);
          BookIsCalls(usage', ids + {id}, o, cands, rows[1..], updatedAt, epoch, disk, cn);
          ThenRest(usage, usage', BookRows(usage', ids + {id}, o, cands, rows[1..], updatedAt, epoch, disk).0, cn, first, rest);
        }
    }
  }

  lemma NoCalls(files: Files, cn: string)
    ensures SameFile(files, PerformAll(files, cn, []), cn)
  {
  }

  lemma {:induction false} RetireIsCalls(usage: Files, present: Presence, order: seq<string>, failing: set<string>, cn: string)
    requires Names.StoreKey(cn)
    ensures SameFile(Retire(usage, present, order, failing),
                     PerformAll(usage, cn, RetireCalls(usage, present, order, failing, cn)), cn)
    decreases |order|
  {
    hide Prune, PerformAll, SameFile, Names.StoreKey, On, PresentIn;
    if order == [] {
      NoCalls(usage, cn);
    } else {
      var o, disk := order[0], Disk(true, order[0] !in failing);
      var (usage', err) := Prune(usage, o, PresentIn(present, o), disk);
      var first := On(o, cn, PruneCall(o, present, failing));
      PruneIsCall(usage, o, PresentIn(present, o), disk, cn);
      if err.Some? {
        assert first + [] == first;
      } else {
        RetireIsCalls(usage', present, order[1..], failing, cn);
        ThenRest(usage, usage', Retire(usage', present, order[1..], failing), cn, first,
                 RetireCalls(usage', present, order[1..], failing, cn));
      }
    }
  }

  lemma {:induction false} SweepIsCalls(usage: Files, present: Presence, order: seq<string>, failing: set<string>, cn: string)
    requires Names.StoreKey(cn)
    ensures SameFile(RetireAll(usage, present, order, failing), PerformAll(usage, cn, SweepCalls(present, order, failing, cn)), cn)
    decreases |order|
  {
    hide Prune, PerformAll, SameFile, Names.StoreKey, On, PresentIn;
    if order == [] {
      NoCalls(usage, cn);
    } else {
      var o, disk := order[0], Disk(true, order[0] !in failing);
      var usage' := Prune(usage, o, PresentIn(present, o), disk).0;
      PruneIsCall(usage, o, PresentIn(present, o), disk, cn);
      SweepIsCalls(usage', present, order[1..], failing, cn);
      ThenRest(usage, usage', RetireAll(usage', present, order[1..], failing), cn, On(o, cn, PruneCall(o, present, failing)),
               SweepCalls(present, order[1..], failing, cn));
    }
  }

  lemma ConnectIsCalls(n: Node, e: Env, arg: string, a: Arrival, epoch: string, x: Faults, cn: string)
    requires Names.StoreKey(cn)
    ensures SameFile(ConnectStep(n, e, arg, a, epoch, x).0.usage,
                     PerformAll(n.usage, cn, ConnectCalls(n, e, arg, a, epoch, x, cn)), cn)
  {
    hide Record, PerformAll, SameFile, Names.StoreKey, On, Allowed, PoolBytes, LiveRows, HookKey, HookCN, InstalledMarker;
    NoCalls(n.usage, cn);
    var ccn, key := HookCN(e, arg), HookKey(HookCN(e, arg), e);
    var bytes := PoolBytes(LiveRows(a.rows, ccn), e.poolIP);
    if key in n.sessions && bytes.Some? {
      RecordIsCall(n.usage, ccn, n.sessions[key].sessionID, bytes.value, true, epoch, x.usage, cn);
    }
  }

  lemma DisconnectIsCalls(n: Node, e: Env, arg: string, epoch: string, x: Faults, cn: string)
    requires Names.StoreKey(cn)
    ensures SameFile(DisconnectStep(n, e, arg, epoch, x).usage,
                     PerformAll(n.usage, cn, DisconnectCalls(n, e, arg, epoch, x, cn)), cn)
  {
    hide Record, PerformAll, SameFile, Names.StoreKey, On, HookKey, HookCN, DisconnectMatches, Acceptable, ByteCounter,
      WithoutLegacy, MarkerId, KnownStart;
    NoCalls(n.usage, cn);
    var dcn, key := HookCN(e, arg), HookKey(HookCN(e, arg), e);
    if key in n.sessions {
      RecordIsCall(n.usage, dcn, MarkerId(n.sessions[key], key),
                   WrapAdd(ByteCounter(e.bytesReceived), ByteCounter(e.bytesSent)), true, epoch, x.usage, cn);
    }
  }

  /** MAIN: every step of the hooks, the poll and the purge leaves the counter of each user as the calls listed
      in its effects leave it. */
  lemma StepIsCalls(n: Node, s: AccountingRuns.Step, cn: string)
    requires Names.StoreKey(cn)
    ensures SameFile(Next(n, s).usage, PerformAll(n.usage, cn, Effects(n, s, cn)), cn)
  {
    hide ConnectStep, DisconnectStep, BookRows, Retire, RetireAll, Bank, PerformAll, SameFile, Names.StoreKey, On,
      ConnectCalls, DisconnectCalls, BookCalls, RetireCalls, SweepCalls, Candidates, PollPresence, PurgePresence, AllReadable,
      Seen, StaleFiles;
    NoCalls(n.usage, cn);
    match s
    case Connecting(e, arg, a, epoch, x) => ConnectIsCalls(n, e, arg, a, epoch, x, cn);
    case Disconnecting(e, arg, epoch, x) => DisconnectIsCalls(n, e, arg, epoch, x, cn);
    case Booking(o, listing, rows, updatedAt, epoch, disk) =>
      BookIsCalls(n.usage, {}, o, Candidates(n.sessions, listing, o), rows, updatedAt, epoch, disk, cn);
    case Retiring(live, read, order, failing) =>
      RetireIsCalls(n.usage, PollPresence(Seen(n.sessions, read), live, order), order, failing, cn);
    case Removing(_, _, _, _) =>
    case Sweeping(rescan, order, failing) =>
      if rescan.Some? { SweepIsCalls(n.usage, PurgePresence(Seen(n.sessions, rescan.value), order), order, failing, cn); }
    case Banking(o, delta, epoch, disk) => BankIsCall(n.usage, o, delta, epoch, disk, cn);
    case Vanishing(_) =>
  }
}
