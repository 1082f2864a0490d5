/** What becomes of receipts when a scan of the session directory does not read every marker: readMarkers and
    the purge skip what they cannot read (internal/ovpn/sessions.go:47-62, internal/hooks/purge.go:78-95). */
module ScanFailures {
  import opened Wrappers
  import opened Counter
  import opened Markers
  import opened Hooks
  import opened AccountingRuns
  import opened Isolation
  import Names

  /** The counter of cn can be read, has this total and knows nothing of id. */
  predicate Lost(files: Files, cn: string, id: string, total: nat) {
    var r := ReadFile(files, cn, "");
    r.Ok? && id !in r.value.sessions && r.value.total == total
  }

  function TotalOf(files: Files, cn: string): nat {
    var r := ReadFile(files, cn, "");
    if r.Ok? then r.value.total else 0
  }

  const WORKING := Disk(true, true)

  lemma PruneDrops(files: Files, cn: string, present: set<string>, id: string)
    requires ClosedIn(files, cn, id) && id !in present
    ensures Prune(files, cn, present, WORKING).1.None?
    ensures Lost(Prune(files, cn, present, WORKING).0, cn, id, TotalOf(files, cn))
  {
    assert Names.SafeCN(cn) == Some(cn);
    var st := ReadFile(files, cn, "").value;
    var pruned := PruneState(st, present);
    ReadFills(files, cn, "");
    assert id in st.sessions && id !in pruned.sessions;
    FilledReadsBack(files, cn, pruned, "");
  }

  /** Pruning another counter leaves this one as it is. */
  lemma PruneElsewhere(files: Files, o: string, present: set<string>, disk: Disk, cn: string)
    requires Names.SafeCN(o) != Some(cn)
    ensures ReadFile(Prune(files, o, present, disk).0, cn, "") == ReadFile(files, cn, "")
  {
  }

  lemma {:induction false} RetireElsewhere(files: Files, present: Presence, order: seq<string>, cn: string)
    requires forall o :: o in order ==> Names.SafeCN(o) != Some(cn)
    ensures ReadFile(Retire(files, present, order, {}), cn, "") == ReadFile(files, cn, "")
    ensures ReadFile(RetireAll(files, present, order, {}), cn, "") == ReadFile(files, cn, "")
    decreases |order|
  {
    hide ReadFile, Prune, Names.SafeCN;
    if order != [] {
      var disk := Disk(true, order[0] !in {});
      PruneElsewhere(files, order[0], PresentIn(present, order[0]), disk, cn);
      RetireElsewhere(Prune(files, order[0], PresentIn(present, order[0]), disk).0, present, order[1..], cn);
    }
  }

  predicate Distinct(order: seq<string>) { forall i, j :: 0 <= i < j < |order| ==> order[i] != order[j] }

  /** The name is as SafeCN returns it, if SafeCN accepts it. */
  predicate ExactName(o: string) { Names.SafeCN(o).Some? ==> Names.SafeCN(o) == Some(o) }

  /** Every name is such, and occurs once. */
  predicate Exact(order: seq<string>) { Distinct(order) && forall i :: 0 <= i < |order| ==> ExactName(order[i]) }

  predicate Readable(files: Files, order: seq<string>) {
    forall o :: o in order ==> Names.SafeCN(o) == Some(o) && ReadFile(files, o, "").Ok?
  }

  lemma PruneStaysReadable(files: Files, o: string, present: set<string>, order: seq<string>)
    requires Readable(files, order) && o !in order && Names.SafeCN(o) == Some(o) && ReadFile(files, o, "").Ok?
    ensures Prune(files, o, present, WORKING).1.None? && Readable(Prune(files, o, present, WORKING).0, order)
  {
    forall p | p in order ensures ReadFile(Prune(files, o, present, WORKING).0, p, "").Ok? {
      PruneElsewhere(files, o, present, WORKING, p);
    }
  }

  lemma RetireStep(files: Files, present: Presence, order: seq<string>)
    requires order != []
    ensures var (files', err) := Prune(files, order[0], PresentIn(present, order[0]), WORKING);
      && RetireAll(files, present, order, {}) == RetireAll(files', present, order[1..], {})
      && (err.None? ==> Retire(files, present, order, {}) == Retire(files', present, order[1..], {}))
  {
    hide Prune;
    assert Disk(true, order[0] !in {}) == WORKING;
  }

  lemma DistinctRest(order: seq<string>)
    requires order != [] && Distinct(order)
    ensures order[0] !in order[1..] && Distinct(order[1..])
  {
  }

  lemma SameReading(a: Files, b: Files, cn: string, id: string, total: nat)
    requires ReadFile(a, cn, "") == ReadFile(b, cn, "")
    ensures Lost(a, cn, id, total) <==> Lost(b, cn, id, total)
    ensures ClosedIn(a, cn, id) <==> ClosedIn(b, cn, id)
    ensures TotalOf(a, cn) == TotalOf(b, cn)
  {
    hide ReadFile;
  }

  /** A counter pruned and not visited again has lost the receipt. */
  lemma HeadDrops(files: Files, present: Presence, order: seq<string>, id: string)
    requires order != [] && ClosedIn(files, order[0], id) && id !in PresentIn(present, order[0])
    requires forall o :: o in order[1..] ==> Names.SafeCN(o) != Some(order[0])
    ensures Lost(Retire(files, present, order, {}), order[0], id, TotalOf(files, order[0]))
    ensures Lost(RetireAll(files, present, order, {}), order[0], id, TotalOf(files, order[0]))
  {
    var cn, rest, total := order[0], order[1..], TotalOf(files, order[0]);
    var files' := Prune(files, cn, PresentIn(present, cn), WORKING).0;
    PruneDrops(files, cn, PresentIn(present, cn), id);
    hide *;
    RetireStep(files, present, order);
    RetireElsewhere(files', present, rest, cn);
    SameReading(files', Retire(files', present, rest, {}), cn, id, total);
    SameReading(files', RetireAll(files', present, rest, {}), cn, id, total);
  }

  /** A visit to another counter first makes no difference. */
  lemma HeadElsewhere(files: Files, present: Presence, order: seq<string>, cn: string, id: string)
    requires order != [] && Names.SafeCN(order[0]) != Some(cn)
    ensures var files' := Prune(files, order[0], PresentIn(present, order[0]), WORKING).0;
      (ClosedIn(files, cn, id) <==> ClosedIn(files', cn, id)) && TotalOf(files', cn) == TotalOf(files, cn)
  {
    hide ReadFile, Prune, ClosedIn, TotalOf, Names.SafeCN;
    PruneElsewhere(files, order[0], PresentIn(present, order[0]), WORKING, cn);
    SameReading(files, Prune(files, order[0], PresentIn(present, order[0]), WORKING).0, cn, id, 0);
  }

  lemma OtherName(o: string, cn: string)
    requires ExactName(o) && o != cn
    ensures Names.SafeCN(o) != Some(cn)
  {
    hide Names.SafeCN;
  }

  lemma ExactRest(order: seq<string>, cn: string)
    requires order != [] && Exact(order)
    ensures Exact(order[1..]) && (cn in order ==> cn == order[0] || cn in order[1..])
    ensures order[0] != cn ==> Names.SafeCN(order[0]) != Some(cn)
    ensures order[0] == cn ==> forall o :: o in order[1..] ==> Names.SafeCN(o) != Some(cn)
  {
    DistinctRest(order);
    hide Names.SafeCN, ExactName;
    var rest := order[1..];
    if order[0] != cn { OtherName(order[0], cn); }
    if order[0] == cn {
      forall i | 0 <= i < |rest| ensures Names.SafeCN(rest[i]) != Some(cn) {
        assert rest[i] == order[i + 1] && rest[i] in rest;
        OtherName(rest[i], cn);
      }
    }
  }

  lemma ReadableRest(files: Files, present: Presence, order: seq<string>)
    requires order != [] && Distinct(order) && Readable(files, order)
    ensures var (files', err) := Prune(files, order[0], PresentIn(present, order[0]), WORKING);
      err.None? && Readable(files', order[1..]) && Exact(order)
  {
    var o := order[0];
    assert o in order && forall p :: p in order[1..] ==> p in order;
    DistinctRest(order);
    hide Prune, ReadFile, Names.SafeCN;
    PruneStaysReadable(files, o, PresentIn(present, o), order[1..]);
  }

  /** A retirement that reaches the counter drops a receipt that no id or marker protects. */
  lemma {:induction false} RetireDrops(files: Files, present: Presence, order: seq<string>, cn: string, id: string)
    requires ClosedIn(files, cn, id) && cn in order && id !in PresentIn(present, cn) && Distinct(order) && Readable(files, order)
    ensures Lost(Retire(files, present, order, {}), cn, id, TotalOf(files, cn))
    decreases |order|
  {
    hide *;
    ReadableRest(files, present, order);
    ExactRest(order, cn);
    if order[0] == cn {
      HeadDrops(files, present, order, id);
    } else {
      var files' := Prune(files, order[0], PresentIn(present, order[0]), WORKING).0;
      DistinctRest(order);
      HeadElsewhere(files, present, order, cn, id);
      RetireStep(files, present, order);
      RetireDrops(files', present, order[1..], cn, id);
    }
  }

  lemma {:induction false} RetireAllDrops(files: Files, present: Presence, order: seq<string>, cn: string, id: string)
    requires ClosedIn(files, cn, id) && cn in order && id !in PresentIn(present, cn) && Exact(order)
    ensures Lost(RetireAll(files, present, order, {}), cn, id, TotalOf(files, cn))
    decreases |order|
  {
    hide *;
    ExactRest(order, cn);
    if order[0] == cn {
      HeadDrops(files, present, order, id);
    } else {
      var files' := Prune(files, order[0], PresentIn(present, order[0]), WORKING).0;
      HeadElsewhere(files, present, order, cn, id);
      RetireStep(files, present, order);
      RetireAllDrops(files', present, order[1..], cn, id);
    }
  }

  lemma LostIsNotClosed(files: Files, cn: string, id: string, total: nat)
    requires Lost(files, cn, id, total)
    ensures !ClosedIn(files, cn, id)
  {
  }

  // ----- exactly which receipts survive ---------------------------------------------------------------

  lemma CountersAreReadable(usage: Files, order: seq<string>)
    requires AllReadable(usage) && Enumerates(order, CounterNames(usage))
    ensures Distinct(order) && Readable(usage, order)
  {
  }

  lemma ClosedIsCounter(usage: Files, order: seq<string>, cn: string, id: string)
    requires ClosedIn(usage, cn, id) && Enumerates(order, CounterNames(usage))
    ensures cn in order
  {
    assert cn in usage;
  }

  /** MAIN: a poll that completes keeps a closed receipt exactly when its id is live or carried by a marker
      that the scan could read. */
  lemma PollKeepsReceiptExactly(n: Node, live: Presence, read: set<string>, order: seq<string>, cn: string, id: string)
    requires ClosedIn(n.usage, cn, id) && AllReadable(n.usage) && Enumerates(order, CounterNames(n.usage))
    ensures var kept := id in PresentIn(live, cn) || id in PollPresent(Seen(n.sessions, read), cn);
      var after := PollRetire(n, live, read, order, {}).usage;
      (ClosedIn(after, cn, id) <==> kept) && (!kept ==> Lost(after, cn, id, TotalOf(n.usage, cn)))
  {
    var present := PollPresence(Seen(n.sessions, read), live, order);
    CountersAreReadable(n.usage, order);
    ClosedIsCounter(n.usage, order, cn, id);
    assert PresentIn(present, cn) == PresentIn(live, cn) + PollPresent(Seen(n.sessions, read), cn);
    hide ReadFile, Seen, PollPresent, PollPresence, ClosedIn, Lost, Retire, RetireAll, AllReadable, Distinct;
    if id in PresentIn(present, cn) {
      ReadableProtects(n.usage, present, order, cn, id);
      RetireKeeps(n.usage, present, order, {}, cn, id);
    } else {
      RetireDrops(n.usage, present, order, cn, id);
      LostIsNotClosed(PollRetire(n, live, read, order, {}).usage, cn, id, TotalOf(n.usage, cn));
    }
  }

  lemma ReadableProtects(files: Files, present: Presence, order: seq<string>, cn: string, id: string)
    requires Readable(files, order) && id in PresentIn(present, cn)
    ensures Protects(present, order, cn, id)
  {
    hide ReadFile, Names.SafeCN;
  }

  lemma AffectedIsExact(s: Sessions, gone: set<string>, order: seq<string>)
    requires TrimmedNames(s) && Enumerates(order, Affected(s, gone))
    ensures Exact(order)
  {
    AffectedAreTrimmed(s, gone, order);
    forall o | o in order && Names.SafeCN(o).Some? ensures Names.SafeCN(o) == Some(o) {
      TrimmedIsExact(order, o, Names.SafeCN(o).value);
    }
  }

  lemma ExactProtects(present: Presence, order: seq<string>, cn: string, id: string)
    requires Exact(order) && (cn in order ==> id in PresentIn(present, cn))
    ensures Protects(present, order, cn, id)
  {
    hide Names.SafeCN;
  }

  lemma RetireAllExactly(files: Files, present: Presence, order: seq<string>, cn: string, id: string)
    requires ClosedIn(files, cn, id) && Exact(order)
    ensures ClosedIn(RetireAll(files, present, order, {}), cn, id) <==> (cn in order ==> id in PresentIn(present, cn))
  {
    hide ReadFile, Lost, RetireAll, Retire, Exact, PresentIn;
    if cn in order ==> id in PresentIn(present, cn) {
      ExactProtects(present, order, cn, id);
      RetireKeeps(files, present, order, {}, cn, id);
    } else {
      RetireAllDrops(files, present, order, cn, id);
      LostIsNotClosed(RetireAll(files, present, order, {}), cn, id, TotalOf(files, cn));
    }
  }

  lemma PresentForOwner(seen: Sessions, order: seq<string>, cn: string)
    requires cn in order
    ensures PresentIn(PurgePresence(seen, order), cn) == PurgePresent(seen, cn)
  {
    hide PurgePresent;
  }

  lemma SweepKeepsExactly(n: Node, read: set<string>, order: seq<string>, cn: string, id: string)
    requires ClosedIn(n.usage, cn, id) && Exact(order)
    ensures ClosedIn(PurgeRetire(n, Some(read), order, {}).usage, cn, id) <==>
      cn !in order || id in PurgePresent(Seen(n.sessions, read), cn)
  {
    hide ClosedIn, RetireAll, Exact, PresentIn, PurgePresence, PurgePresent, Seen;
    var seen := Seen(n.sessions, read);
    RetireAllExactly(n.usage, PurgePresence(seen, order), order, cn, id);
    if cn in order { PresentForOwner(seen, order, cn); }
  }

  /** MAIN: a purge keeps a closed receipt exactly when it removed no marker of the user, could not list the
      directory again, or read a marker that carries the id. */
  lemma PurgeKeepsReceiptExactly(n: Node, rows: seq<Row>, now: int, ttl: int, stuck: set<string>, read: Option<set<string>>,
                                 order: seq<string>, cn: string, id: string)
    requires ClosedIn(n.usage, cn, id) && TrimmedNames(n.sessions)
    requires Enumerates(order, Affected(n.sessions, StaleFiles(n.sessions, LivePools(rows), now, ttl, stuck)))
    ensures var gone := StaleFiles(n.sessions, LivePools(rows), now, ttl, stuck);
      ClosedIn(PurgeStep(n, Some(rows), now, ttl, stuck, read, order, {}).usage, cn, id) <==>
      cn !in Affected(n.sessions, gone) || read.None? || id in PurgePresent(Seen(n.sessions - gone, read.value), cn)
  {
    hide StaleFiles, Seen, PurgePresent, ClosedIn, PurgeRetire, TrimmedNames, Affected, Exact, Enumerates, LivePools;
    var gone := StaleFiles(n.sessions, LivePools(rows), now, ttl, stuck);
    OrderIs(order, Affected(n.sessions, gone), cn);
    AffectedIsExact(n.sessions, gone, order);
    var left := Node(n.sessions - gone, n.usage);
    match read {
    case None => UnlistedKeepsUsage(left, order);
    case Some(names) => SweepKeepsExactly(left, names, order, cn, id);
    }
  }

  lemma OrderIs(order: seq<string>, s: set<string>, o: string)
    requires Enumerates(order, s)
    ensures o in order <==> o in s
  {
  }

  lemma UnlistedKeepsUsage(n: Node, order: seq<string>)
    ensures PurgeRetire(n, None, order, {}).usage == n.usage
  {
  }

  // ----- what a lost receipt costs -----------------------------------------------------------------------

  /** The epoch that a fresh counter would get changes nothing else. */
  lemma EpochIsApart(files: Files, cn: string, epoch: string)
    ensures var a, b := ReadFile(files, cn, ""), ReadFile(files, cn, epoch);
      (a.Ok? <==> b.Ok?) && (a.Ok? ==> a.value.total == b.value.total && a.value.sessions == b.value.sessions)
  {
  }

  lemma FirstObservationAdds(st: UsageState, id: string, bytes: u64)
    requires id !in st.sessions && RecordState(st, id, bytes, true).Some?
    ensures RecordState(st, id, bytes, true).value.total == st.total + bytes
  {
  }

  lemma LostReads(files: Files, cn: string, id: string, epoch: string, total: nat)
    requires Lost(files, cn, id, total)
    ensures ReadFile(files, cn, epoch).Ok?
    ensures var st := Upgraded(ReadFile(files, cn, epoch).value, epoch); id !in st.sessions && st.total == total
  {
    hide ReadFile;
    EpochIsApart(files, cn, epoch);
  }

  lemma RecordedIs(files: Files, cn: string, id: string, bytes: u64, epoch: string, disk: Disk)
    requires epoch != "" && Names.SafeCN(cn) == Some(cn) && Record(files, cn, id, bytes, true, epoch, disk).1.Ok?
    ensures var (files', r) := Record(files, cn, id, bytes, true, epoch, disk);
      && ReadFile(files', cn, "") == r && ReadFile(files, cn, epoch).Ok?
      && RecordState(Upgraded(ReadFile(files, cn, epoch).value, epoch), id, bytes, true) == Some(r.value)
  {
    hide ReadFile, Record, RecordState, Upgraded, Names.SafeCN;
    RecordReadsBack(files, cn, id, bytes, true, epoch, disk, "");
  }

  /** A closing call for an id that the counter does not know adds all its bytes. */
  lemma LostIsCountedAgain(files: Files, cn: string, id: string, bytes: u64, epoch: string, disk: Disk, total: nat)
    requires Lost(files, cn, id, total) && epoch != "" && Names.SafeCN(cn) == Some(cn)
    requires Record(files, cn, id, bytes, true, epoch, disk).1.Ok?
    ensures var r := ReadFile(Record(files, cn, id, bytes, true, epoch, disk).0, cn, "");
      r.Ok? && r.value.total == total + bytes
  {
    hide *;
    LostReads(files, cn, id, epoch, total);
    RecordedIs(files, cn, id, bytes, epoch, disk);
    FirstObservationAdds(Upgraded(ReadFile(files, cn, epoch).value, epoch), id, bytes);
  }

  /** A completed poll does not read the marker of a closed session, whose id is not live, and a disconnect then
      closes the session of that marker. */
  ghost predicate ClosesUnread(n: Node, live: Presence, read: set<string>, order: seq<string>, e: Env, arg: string,
                               epoch: string, x: Faults)
  {
    var cn, key := HookCN(e, arg), HookKey(HookCN(e, arg), e);
    && AllReadable(n.usage) && Enumerates(order, CounterNames(n.usage)) && epoch != ""
    && key in n.sessions && ClosedIn(n.usage, cn, MarkerId(n.sessions[key], key))
    && MarkerId(n.sessions[key], key) !in PresentIn(live, cn) + PollPresent(Seen(n.sessions, read), cn)
    && Closes(PollRetire(n, live, read, order, {}), e, arg, epoch, x)
  }

  /** MAIN: a closed session whose marker a completed poll could not read, and whose id is not live, is
      counted a second time, with all its bytes, by the disconnect that closes it again. */
  lemma UnreadMarkerIsCountedAgain(n: Node, live: Presence, read: set<string>, order: seq<string>, e: Env, arg: string,
                                   epoch: string, x: Faults)
    requires ClosesUnread(n, live, read, order, e, arg, epoch, x)
    ensures var cn, polled := HookCN(e, arg), PollRetire(n, live, read, order, {});
      var after := ReadFile(DisconnectStep(polled, e, arg, epoch, x).usage, cn, "");
      after.Ok? && after.value.total ==
        TotalOf(n.usage, cn) + WrapAdd(ByteCounter(e.bytesReceived), ByteCounter(e.bytesSent))
  {
    var cn, key := HookCN(e, arg), HookKey(HookCN(e, arg), e);
    var id, bytes := MarkerId(n.sessions[key], key), WrapAdd(ByteCounter(e.bytesReceived), ByteCounter(e.bytesSent));
    var total := TotalOf(n.usage, cn);
    PollKeepsReceiptExactly(n, live, read, order, cn, id);
    var polled := PollRetire(n, live, read, order, {});
    assert polled.sessions == n.sessions;
    assert Names.StoreKey(cn) && Names.SafeCN(cn) == Some(cn);
    hide ReadFile, Record, PollRetire, PollPresent, Seen, Lost, ClosedIn, AllReadable, HookKey, HookCN, Names.SafeCN,
      Names.StoreKey,
      DisconnectMatches, MarkerId, ByteCounter;
    LostIsCountedAgain(polled.usage, cn, id, bytes, epoch, x.usage, total);
  }

  const LOST_MARKER := BLANK.(commonName := "a", poolIP := "p", sessionID := "x")
  const LOST_COUNTER :=
    Json(Some(COUNTER_VERSION), Some("e"), Some(3 as u64), Some(map["x" := UsageSession(3, true, "a.p")]))
  const LOST_NODE := Node(map["a.p" := LOST_MARKER], map["a" := LOST_COUNTER])
  const AGAIN := Env("a", "", "", "p", "", "3", "")
  const WORKS := Faults(true, true, WORKING, true, {}, {}, {})

  lemma OneLetter(c: char)
    requires Names.IsWord(c)
    ensures Names.StoreKey([c]) && Names.SafeCN([c]) == Some([c]) && Names.Sanitize([c]) == [c] && Acceptable([c])
  {
    assert [c][1..] == [];
  }

  lemma AgainKey()
    requires Names.Sanitize("p") == "p"
    ensures HookCN(AGAIN, "") == "a" && HookKey("a", AGAIN) == "a.p"
  {
    hide Names.Sanitize;
    assert PoolKey(AGAIN.poolIP) == "p";
    assert "a" + "." + "p" == "a.p";
  }

  /** The disconnect works under the name a and the marker file a.p, with 3 bytes. */
  lemma AgainReads()
    ensures HookCN(AGAIN, "") == "a" && HookKey("a", AGAIN) == "a.p" && Acceptable("a") && Names.SafeCN("a") == Some("a")
    ensures WrapAdd(ByteCounter(AGAIN.bytesReceived), ByteCounter(AGAIN.bytesSent)) == 3
  {
    assert ['a'] == "a" && ['p'] == "p";
    hide HookCN, HookKey, Acceptable, Names.SafeCN, Names.Sanitize, Names.StoreKey, ByteCounter;
    OneLetter('a');
    OneLetter('p');
    AgainKey();
    ThreeReads();
  }

  lemma ThreeReads()
    ensures ByteCounter("3") == 3 && ByteCounter("") == 0
  {
    assert Text.Trimmed("3") && Text.AllDigits("3");
    assert Text.Value("3", 10) == Text.Value("", 10) * 10 + 3;
  }

  lemma LostMatches(trustedIP: string, trustedPort: string, start: int)
    ensures DisconnectMatches(LOST_MARKER, "a.p", trustedIP, trustedPort, start)
  {
    assert Text.LastIndex("x", '.') == -1;
  }

  lemma LostCloses(files: Files, total: u64)
    requires Lost(files, "a", "x", total) && total == 3 && Names.SafeCN("a") == Some("a")
    ensures Record(files, "a", "x", 3, true, "e", WORKING).1.Ok?
  {
    LostReads(files, "a", "x", "e", total);
  }

  lemma LostReadsAs(epoch: string)
    ensures ReadFile(LOST_NODE.usage, "a", epoch) ==
      Ok(UsageState(COUNTER_VERSION, "e", 3, map["x" := UsageSession(3, true, "a.p")]))
  {
    assert LOST_NODE.usage["a"] == LOST_COUNTER;
    assert WithMarkerKeys(map["x" := UsageSession(3, true, "a.p")]) == map["x" := UsageSession(3, true, "a.p")];
  }

  lemma OneName(files: Files, o: string)
    requires files.Keys == {o} && Names.StoreKey(o)
    ensures CounterNames(files) == {o}
  {
    hide Names.StoreKey;
  }

  lemma OneInOrder(o: string)
    ensures Enumerates([o], {o})
  {
    assert forall x :: x in [o] <==> x == o;
  }

  lemma OneCounter(files: Files, o: string)
    requires CounterNames(files) == {o} && Names.SafeCN(o) == Some(o) && ReadFile(files, o, "").Ok?
    ensures AllReadable(files)
  {
    assert ReadUsageState(files, o, "").Ok?;
    hide ReadFile, ReadUsageState, Names.SafeCN, CounterNames;
  }

  lemma ReadsClosed(files: Files, cn: string, id: string)
    requires Names.StoreKey(cn)
    requires var r := ReadFile(files, cn, ""); r.Ok? && id in r.value.sessions && r.value.sessions[id].closed
    ensures ClosedIn(files, cn, id) && TotalOf(files, cn) == ReadFile(files, cn, "").value.total
  {
    hide ReadFile, Names.StoreKey;
  }

  lemma LostIsClosed()
    ensures AllReadable(LOST_NODE.usage) && Enumerates(["a"], CounterNames(LOST_NODE.usage))
    ensures ClosedIn(LOST_NODE.usage, "a", "x") && TotalOf(LOST_NODE.usage, "a") == 3
  {
    assert ['a'] == "a" && LOST_NODE.usage.Keys == {"a"};
    hide *;
    OneLetter('a');
    LostReadsAs("");
    OneName(LOST_NODE.usage, "a");
    OneCounter(LOST_NODE.usage, "a");
    OneInOrder("a");
    ReadsClosed(LOST_NODE.usage, "a", "x");
  }

  lemma NothingRead()
    ensures PollPresent(Seen(LOST_NODE.sessions, {}), "a") == {}
  {
    assert Seen(LOST_NODE.sessions, {}) == map[];
  }

  lemma AgainCloses(polled: Node, total: u64)
    requires polled.sessions == LOST_NODE.sessions && Lost(polled.usage, "a", "x", total) && total == 3
    ensures Closes(polled, AGAIN, "", "e", WORKS)
  {
    assert LOST_NODE.sessions["a.p"] == LOST_MARKER && MarkerId(LOST_MARKER, "a.p") == "x";
    hide Lost, Record, HookCN, HookKey, Acceptable, DisconnectMatches, MarkerId, ByteCounter, KnownStart, Names.SafeCN;
    AgainReads();
    LostCloses(polled.usage, total);
    LostMatches(AGAIN.trustedIP, AGAIN.trustedPort, KnownStart(AGAIN.timeUnix));
  }

  lemma PollDrops(order: seq<string>, total: u64)
    requires AllReadable(LOST_NODE.usage) && Enumerates(order, CounterNames(LOST_NODE.usage))
    requires ClosedIn(LOST_NODE.usage, "a", "x") && TotalOf(LOST_NODE.usage, "a") == total
    ensures "x" !in PresentIn(map[], "a") + PollPresent(Seen(LOST_NODE.sessions, {}), "a")
    ensures Lost(PollRetire(LOST_NODE, map[], {}, order, {}).usage, "a", "x", total)
  {
    hide ReadFile, PollRetire, PollPresent, Seen, Lost, ClosedIn, AllReadable, Enumerates, CounterNames, TotalOf;
    NothingRead();
    PollKeepsReceiptExactly(LOST_NODE, map[], {}, order, "a", "x");
  }

  lemma PolledNode(order: seq<string>)
    ensures PollRetire(LOST_NODE, map[], {}, order, {}).sessions == LOST_NODE.sessions
    ensures "a.p" in LOST_NODE.sessions && MarkerId(LOST_NODE.sessions["a.p"], "a.p") == "x"
  {
    hide Retire, AllReadable, PollPresence;
    assert LOST_NODE.sessions["a.p"] == LOST_MARKER;
  }

  lemma ExampleCloses(order: seq<string>, cn: string, key: string, id: string)
    requires AllReadable(LOST_NODE.usage) && Enumerates(order, CounterNames(LOST_NODE.usage))
    requires cn == HookCN(AGAIN, "") && key == HookKey(cn, AGAIN) && key in LOST_NODE.sessions
    requires id == MarkerId(LOST_NODE.sessions[key], key) && ClosedIn(LOST_NODE.usage, cn, id)
    requires id !in PresentIn(map[], cn) + PollPresent(Seen(LOST_NODE.sessions, {}), cn)
    requires Closes(PollRetire(LOST_NODE, map[], {}, order, {}), AGAIN, "", "e", WORKS)
    ensures ClosesUnread(LOST_NODE, map[], {}, order, AGAIN, "", "e", WORKS)
  {
    hide ReadFile, Record, PollRetire, PollPresent, Seen, ClosedIn, AllReadable, HookKey, HookCN, MarkerId, Enumerates,
      CounterNames, Closes, PresentIn;
  }

  /** There is such a poll and such a disconnect: the session's 3 bytes become 6. */
  lemma UnreadMarkerExample()
    ensures ClosesUnread(LOST_NODE, map[], {}, ["a"], AGAIN, "", "e", WORKS)
    ensures TotalOf(LOST_NODE.usage, "a") == 3
    ensures TotalOf(DisconnectStep(PollRetire(LOST_NODE, map[], {}, ["a"], {}), AGAIN, "", "e", WORKS).usage, "a") == 6
  {
    hide *;
    AgainReads();
    LostIsClosed();
    PollDrops(["a"], 3);
    PolledNode(["a"]);
    AgainCloses(PollRetire(LOST_NODE, map[], {}, ["a"], {}), 3);
    ExampleCloses(["a"], "a", "a.p", "x");
    UnreadMarkerIsCountedAgain(LOST_NODE, map[], {}, ["a"], AGAIN, "", "e", WORKS);
    ReadsTotal(DisconnectStep(PollRetire(LOST_NODE, map[], {}, ["a"], {}), AGAIN, "", "e", WORKS).usage);
  }

  lemma ReadsTotal(files: Files)
    requires var r := ReadFile(files, "a", ""); r.Ok? && r.value.total == 6
    ensures TotalOf(files, "a") == 6
  {
  }
}
