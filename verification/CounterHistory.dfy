/** The counter against the history of the calls made on it. */
module CounterHistory {
  import opened Wrappers
  import opened Counter
  import opened Sums
  import Names

  datatype Op =
    | Rec(id: string, bytes: u64, closed: bool)
    | BankBy(delta: u64)
    | PruneTo(present: set<string>)
    | ResetTo(epoch: string)

  /** The state after a call, or None when the call fails and changes nothing. */
  function Apply(st: UsageState, op: Op): Option<UsageState> {
    match op
    case Rec(id, bytes, closed) => RecordState(st, id, bytes, closed)
    case BankBy(delta) => BankState(st, delta)
    case PruneTo(present) => Some(PruneState(st, present))
    case ResetTo(epoch) => Some(ResetState(st, epoch))
  }

  /** A counter, the totals that resets have zeroed, and the calls that succeeded. */
  datatype World = World(st: UsageState, zeroed: nat, log: seq<Op>)

  function Advance(w: World, op: Op): World {
    match Apply(w.st, op)
    case None => w
    case Some(st) => World(st, w.zeroed + (if op.ResetTo? then w.st.total else 0), w.log + [op])
  }

  /** A run of arbitrary calls from a new counter (base 0) or a legacy one. */
  function Play(base: u64, epoch: string, ops: seq<Op>): World {
    if ops == [] then World(UsageState(COUNTER_VERSION, epoch, base, map[]), 0, [])
    else Advance(Play(base, epoch, ops[..|ops| - 1]), ops[|ops| - 1])
  }

  // ----- the declarative reading of a history --------------------------------------------------

  function Front(log: seq<Op>): seq<Op> requires log != [] { log[..|log| - 1] }

  function Last(log: seq<Op>): Op requires log != [] { log[|log| - 1] }

  /** Does this call drop the closed receipts of id? */
  predicate Drops(op: Op, id: string) {
    op.ResetTo? || (op.PruneTo? && id !in op.present)
  }

  predicate Records(op: Op, id: string) { op.Rec? && op.id == id }

  /** Is the session closed and its receipt still kept? */
  predicate IsClosed(log: seq<Op>, id: string) {
    log != [] &&
    if Records(Last(log), id) then Last(log).closed || IsClosed(Front(log), id)
    else IsClosed(Front(log), id) && !Drops(Last(log), id)
  }

  /** The most bytes observed under id since its receipt was last dropped, up to its closing call. */
  function High(log: seq<Op>, id: string): u64 {
    if log == [] then 0
    else if Records(Last(log), id) && !IsClosed(Front(log), id) then Max(High(Front(log), id), Last(log).bytes)
    else if Drops(Last(log), id) && IsClosed(Front(log), id) then 0
    else High(Front(log), id)
  }

  /** The high-water marks of the sessions of id whose receipts were dropped. */
  function Past(log: seq<Op>, id: string): nat {
    if log == [] then 0
    else if Drops(Last(log), id) && IsClosed(Front(log), id) then Past(Front(log), id) + High(Front(log), id)
    else Past(Front(log), id)
  }

  function Ids(log: seq<Op>): set<string> {
    if log == [] then {} else Ids(Front(log)) + if Last(log).Rec? then {Last(log).id} else {}
  }

  function Banked(log: seq<Op>): nat {
    if log == [] then 0 else Banked(Front(log)) + if Last(log).BankBy? then Last(log).delta else 0
  }

  /** What a history is worth: every session generation counts its high-water mark once. */
  ghost function Credits(log: seq<Op>): map<string, nat> {
    map id | id in Ids(log) :: Credit(log, id)
  }

  function Credit(log: seq<Op>, id: string): nat { Past(log, id) + High(log, id) }

  // ----- the stored state refines the history ---------------------------------------------------

  predicate SessionMatches(st: UsageState, log: seq<Op>, id: string) {
    && SessionOf(st, id).bytes == High(log, id)
    && SessionOf(st, id).closed == IsClosed(log, id)
    && (id in st.sessions ==> id in Ids(log))
  }

  /** The sessions stored are those the history leaves open or closed with a receipt. */
  ghost predicate SessionsMatch(st: UsageState, log: seq<Op>) {
    forall id :: SessionMatches(st, log, id)
  }

  lemma UnrecordedIsZero(log: seq<Op>, id: string)
    requires id !in Ids(log)
    ensures High(log, id) == 0 && Past(log, id) == 0 && !IsClosed(log, id)
  {
    if log != [] { UnrecordedIsZero(Front(log), id); }
  }

  /** No call but a record of id changes what id is worth. */
  lemma CreditStep(log: seq<Op>, op: Op, id: string)
    ensures var grows := Records(op, id) && !IsClosed(log, id);
      Credit(log + [op], id) == Past(log, id) + if grows then Max(High(log, id), op.bytes) else High(log, id)
  {
    assert Front(log + [op]) == log;
  }

  lemma CreditsStep(log: seq<Op>, op: Op)
    ensures !op.Rec? ==> Credits(log + [op]) == Credits(log)
    ensures op.Rec? ==> Credits(log + [op]) == Credits(log)[op.id := Credit(log + [op], op.id)]
  {
    var l := log + [op];
    assert Front(l) == log && Last(l) == op;
    forall id | id in Ids(l) && !Records(op, id) ensures Credit(l, id) == Credit(log, id) {
      CreditStep(log, op, id);
    }
  }

  lemma SessionsMatchStep(st: UsageState, log: seq<Op>, op: Op)
    requires SessionsMatch(st, log) && Apply(st, op).Some?
    ensures SessionsMatch(Apply(st, op).value, log + [op])
  {
    assert Front(log + [op]) == log;
    forall id ensures SessionMatches(Apply(st, op).value, log + [op], id) {
      assert SessionMatches(st, log, id);
    }
  }

  lemma {:induction false} SessionsMatchAlways(base: u64, epoch: string, ops: seq<Op>)
    ensures var w := Play(base, epoch, ops); SessionsMatch(w.st, w.log)
  {
    if ops != [] {
      var w := Play(base, epoch, ops[..|ops| - 1]);
      SessionsMatchAlways(base, epoch, ops[..|ops| - 1]);
      if Apply(w.st, ops[|ops| - 1]).Some? { SessionsMatchStep(w.st, w.log, ops[|ops| - 1]); }
    }
  }

  /** One call keeps the books. */
  lemma BooksStep(w: World, op: Op, base: nat)
    requires SessionsMatch(w.st, w.log)
    requires w.zeroed + w.st.total == base + Banked(w.log) + Sum(Credits(w.log))
    ensures var w' := Advance(w, op); w'.zeroed + w'.st.total == base + Banked(w'.log) + Sum(Credits(w'.log))
  {
    if Apply(w.st, op).Some? {
      assert Front(w.log + [op]) == w.log;
      CreditsStep(w.log, op);
      if op.Rec? {
        CreditStep(w.log, op, op.id);
        assert SessionMatches(w.st, w.log, op.id);
        if op.id !in Ids(w.log) { UnrecordedIsZero(w.log, op.id); }
        SumUpdate(Credits(w.log), op.id, Credit(w.log + [op], op.id));
      }
    }
  }

  /** MAIN: after any calls at all, the totals zeroed by resets plus the current total are the base, the
      banked deltas, and the high-water mark of every session generation, each counted exactly once. */
  lemma {:induction false} CounterRefinesHistory(base: u64, epoch: string, ops: seq<Op>)
    ensures var w := Play(base, epoch, ops);
      w.zeroed + w.st.total == base + Banked(w.log) + Sum(Credits(w.log))
  {
    if ops == [] {
      assert Credits([]) == map[];
    } else {
      var before := ops[..|ops| - 1];
      CounterRefinesHistory(base, epoch, before);
      SessionsMatchAlways(base, epoch, before);
      BooksStep(Play(base, epoch, before), ops[|ops| - 1], base);
    }
  }

  // ----- when no id comes back after its receipt was dropped -------------------------------------

  predicate EverClosed(log: seq<Op>, id: string) {
    exists i :: 0 <= i < |log| && Records(log[i], id) && log[i].closed
  }

  predicate ReceiptDropped(log: seq<Op>, id: string) {
    exists i, j :: 0 <= i < j < |log| && Records(log[i], id) && log[i].closed && Drops(log[j], id)
  }

  predicate NoReuse(log: seq<Op>) {
    forall k :: 0 <= k < |log| && log[k].Rec? ==> !ReceiptDropped(log[..k], log[k].id)
  }

  /** The observations of id up to and including its first closed call. */
  predicate Counts(log: seq<Op>, id: string, k: nat) {
    k < |log| && Records(log[k], id) && !EverClosed(log[..k], id)
  }

  /** h is the maximum over the observations that count, 0 when there are none. */
  ghost predicate IsFirstCloseMax(log: seq<Op>, id: string, h: nat) {
    && (forall k: nat :: Counts(log, id, k) ==> log[k].bytes <= h)
    && (h == 0 || exists k: nat :: Counts(log, id, k) && log[k].bytes == h)
  }

  lemma ClosedStep(log: seq<Op>, op: Op, id: string)
    ensures EverClosed(log + [op], id) <==> EverClosed(log, id) || (Records(op, id) && op.closed)
    ensures ReceiptDropped(log + [op], id) <==> ReceiptDropped(log, id) || (EverClosed(log, id) && Drops(op, id))
  {
    var l := log + [op];
    if EverClosed(log, id) {
      var i :| 0 <= i < |log| && Records(log[i], id) && log[i].closed;
      assert l[i] == log[i] && l[|log|] == op;
    }
    if Records(op, id) && op.closed { assert l[|log|] == op; }
    if ReceiptDropped(log, id) {
      var i, j :| 0 <= i < j < |log| && Records(log[i], id) && log[i].closed && Drops(log[j], id);
      assert l[i] == log[i] && l[j] == log[j];
    }
  }

  lemma CountsStep(log: seq<Op>, op: Op, id: string, k: nat)
    ensures k < |log| ==> (Counts(log + [op], id, k) <==> Counts(log, id, k))
    ensures Counts(log + [op], id, |log|) <==> Records(op, id) && !EverClosed(log, id)
  {
    assert (log + [op])[..|log|] == log;
    if k < |log| { assert (log + [op])[..k] == log[..k]; }
  }

  lemma FirstCloseMaxStep(log: seq<Op>, op: Op, id: string, h: nat)
    requires IsFirstCloseMax(log, id, h)
    ensures var grows := Records(op, id) && !EverClosed(log, id);
      IsFirstCloseMax(log + [op], id, if grows && op.bytes > h then op.bytes else h)
  {
    forall k: nat
      ensures k < |log| ==> (Counts(log + [op], id, k) <==> Counts(log, id, k))
      ensures Counts(log + [op], id, |log|) <==> Records(op, id) && !EverClosed(log, id)
    {
      CountsStep(log, op, id, k);
    }
    if h != 0 {
      var k: nat :| Counts(log, id, k) && log[k].bytes == h;
      assert Counts(log + [op], id, k) && (log + [op])[k].bytes == h;
    }
    if Counts(log + [op], id, |log|) { assert (log + [op])[|log|].bytes == op.bytes; }
  }

  lemma NoReuseFront(log: seq<Op>)
    requires NoReuse(log) && log != []
    ensures NoReuse(Front(log))
    ensures Last(log).Rec? ==> !ReceiptDropped(Front(log), Last(log).id)
  {
    var p := Front(log);
    forall k | 0 <= k < |p| && p[k].Rec? ensures !ReceiptDropped(p[..k], p[k].id) {
      assert log[..k] == p[..k] && log[k] == p[k];
    }
  }

  /** id has had one generation so far, and is worth its first-close maximum. */
  ghost predicate Single(log: seq<Op>, id: string) {
    && (if ReceiptDropped(log, id) then High(log, id) == 0 else Past(log, id) == 0)
    && (IsClosed(log, id) <==> EverClosed(log, id) && !ReceiptDropped(log, id))
  }

  lemma SingleStep(log: seq<Op>, op: Op, id: string, closed: bool, dropped: bool)
    requires closed == EverClosed(log, id) && dropped == ReceiptDropped(log, id)
    requires Single(log, id) && (Records(op, id) ==> !dropped)
    ensures Single(log + [op], id)
    ensures Credit(log + [op], id)
         == if Records(op, id) && !closed && op.bytes > Credit(log, id) then op.bytes else Credit(log, id)
  {
    ClosedStep(log, op, id);
    assert Front(log + [op]) == log && Last(log + [op]) == op;
  }

  lemma {:induction false} SingleGeneration(log: seq<Op>, id: string)
    requires NoReuse(log)
    ensures Single(log, id) && IsFirstCloseMax(log, id, Credit(log, id))
  {
    if log != [] {
      var p, op := Front(log), Last(log);
      assert log == p + [op];
      NoReuseFront(log);
      SingleGeneration(p, id);
      SingleStep(p, op, id, EverClosed(p, id), ReceiptDropped(p, id));
      FirstCloseMaxStep(p, op, id, Credit(p, id));
    }
  }

  /** MAIN: while no id is recorded again after its closed receipt was dropped, the counter is the sum over
      ids of the maximum recorded up to and including the first closed call of the id. */
  lemma EachIdCountsItsMaximumOnce(base: u64, epoch: string, ops: seq<Op>, maxima: map<string, nat>)
    requires var w := Play(base, epoch, ops);
      && NoReuse(w.log)
      && maxima.Keys == Ids(w.log)
      && forall id :: id in maxima ==> IsFirstCloseMax(w.log, id, maxima[id])
    ensures var w := Play(base, epoch, ops);
      w.zeroed + w.st.total == base + Banked(w.log) + Sum(maxima)
  {
    var w := Play(base, epoch, ops);
    CounterRefinesHistory(base, epoch, ops);
    forall id | id in Ids(w.log) ensures maxima[id] == Credits(w.log)[id] {
      SingleGeneration(w.log, id);
      var a, b := maxima[id], Credit(w.log, id);
      if a != 0 { var k: nat :| Counts(w.log, id, k) && w.log[k].bytes == a; assert a <= b; }
      if b != 0 { var k: nat :| Counts(w.log, id, k) && w.log[k].bytes == b; assert b <= a; }
    }
    assert maxima == Credits(w.log);
  }

  // ----- byte conservation since the last reset ---------------------------------------------------

  /** The mark a session had reached at the last reset that its current generation lived through. */
  function Offset(log: seq<Op>, id: string): (o: u64)
    ensures o <= High(log, id)
  {
    if log == [] then 0
    else if Drops(Last(log), id) && IsClosed(Front(log), id) then 0
    else if Last(log).ResetTo? then High(Front(log), id)
    else Offset(Front(log), id)
  }

  /** The base and the banked deltas that the current total still carries. */
  function Carried(base: nat, log: seq<Op>): nat {
    if log == [] then base
    else match Last(log)
      case ResetTo(_) => 0
      case BankBy(delta) => Carried(base, Front(log)) + delta
      case _ => Carried(base, Front(log))
  }

  /** What a session has added since the last reset. */
  function Since(log: seq<Op>, id: string): nat { High(log, id) - Offset(log, id) }

  ghost function Leaving(log: seq<Op>, present: set<string>): map<string, nat> {
    map id | id in Ids(log) && IsClosed(log, id) && id !in present :: Since(log, id)
  }

  /** What the receipts pruned since the last reset had added. */
  ghost function Retired(log: seq<Op>): nat {
    if log == [] then 0
    else match Last(log)
      case ResetTo(_) => 0
      case PruneTo(present) => Retired(Front(log)) + Sum(Leaving(Front(log), present))
      case _ => Retired(Front(log))
  }

  ghost function StoredSince(st: UsageState, log: seq<Op>): map<string, nat>
  {
    map id | id in st.sessions :: Since(log, id)
  }

  /** Total, sessions and history agree about what was added since the last reset. */
  ghost predicate Conserves(w: World, base: nat) {
    && SessionsMatch(w.st, w.log)
    && w.st.total == Carried(base, w.log) + Retired(w.log) + Sum(StoredSince(w.st, w.log))
  }

  /** What a call does to what a session has added since the last reset. */
  lemma SinceStep(log: seq<Op>, op: Op, id: string)
    ensures (op.Rec? && op.id != id) || op.BankBy? ==> Since(log + [op], id) == Since(log, id)
    ensures op.PruneTo? && !(IsClosed(log, id) && id !in op.present) ==> Since(log + [op], id) == Since(log, id)
    ensures op.ResetTo? ==> Since(log + [op], id) == 0
    ensures Records(op, id) ==>
      Since(log + [op], id) == (if IsClosed(log, id) then High(log, id) else Max(High(log, id), op.bytes)) - Offset(log, id)
  {
    assert Front(log + [op]) == log && Last(log + [op]) == op;
  }

  lemma LedgerStep(log: seq<Op>, op: Op, base: nat)
    ensures op.Rec? ==> Carried(base, log + [op]) == Carried(base, log) && Retired(log + [op]) == Retired(log)
    ensures op.BankBy? ==> Carried(base, log + [op]) == Carried(base, log) + op.delta && Retired(log + [op]) == Retired(log)
    ensures op.PruneTo? ==> Carried(base, log + [op]) == Carried(base, log)
    ensures op.PruneTo? ==> Retired(log + [op]) == Retired(log) + Sum(Leaving(log, op.present))
    ensures op.ResetTo? ==> Carried(base, log + [op]) == 0 && Retired(log + [op]) == 0
  {
    assert Front(log + [op]) == log && Last(log + [op]) == op;
  }

  lemma RecordTotal(st: UsageState, log: seq<Op>, op: Op)
    requires op.Rec? && SessionMatches(st, log, op.id) && Apply(st, op).Some?
    ensures Apply(st, op).value.total - st.total == Since(log + [op], op.id) - Since(log, op.id)
  {
    SinceStep(log, op, op.id);
  }

  lemma RecordStored(st: UsageState, log: seq<Op>, op: Op)
    requires op.Rec? && Apply(st, op).Some?
    ensures StoredSince(Apply(st, op).value, log + [op]) == StoredSince(st, log)[op.id := Since(log + [op], op.id)]
  {
    forall id | id in st.sessions && id != op.id ensures Since(log + [op], id) == Since(log, id) {
      SinceStep(log, op, id);
    }
  }

  lemma RecordConserves(st: UsageState, log: seq<Op>, op: Op)
    requires SessionsMatch(st, log) && op.Rec? && Apply(st, op).Some?
    ensures var st' := Apply(st, op).value;
      st'.total - st.total == Sum(StoredSince(st', log + [op])) - Sum(StoredSince(st, log))
  {
    assert SessionMatches(st, log, op.id);
    RecordTotal(st, log, op);
    RecordStored(st, log, op);
    SumUpdate(StoredSince(st, log), op.id, Since(log + [op], op.id));
  }

  lemma RetiringIsDropped(st: UsageState, log: seq<Op>, present: set<string>, id: string)
    requires SessionMatches(st, log, id)
    ensures id in Leaving(log, present) <==> id in st.sessions && st.sessions[id].closed && id !in present
  {
    if id !in Ids(log) { UnrecordedIsZero(log, id); }
  }

  lemma PruneConserves(st: UsageState, log: seq<Op>, op: Op)
    requires SessionsMatch(st, log) && op.PruneTo?
    ensures Sum(StoredSince(st, log))
         == Sum(Leaving(log, op.present)) + Sum(StoredSince(PruneState(st, op.present), log + [op]))
  {
    var before, gone := StoredSince(st, log), Leaving(log, op.present);
    var after := StoredSince(PruneState(st, op.present), log + [op]);
    forall id
      ensures id in gone ==> id in before && gone[id] == before[id]
      ensures id in after <==> id in before && id !in gone
      ensures id in after ==> after[id] == before[id]
    {
      assert SessionMatches(st, log, id);
      RetiringIsDropped(st, log, op.present, id);
      SinceStep(log, op, id);
    }
    SumSplit(before, gone.Keys);
    assert gone == map id | id in before && id in gone.Keys :: before[id];
    assert after == before - gone.Keys;
  }

  lemma OthersConserve(st: UsageState, log: seq<Op>, op: Op)
    requires SessionsMatch(st, log) && Apply(st, op).Some?
    ensures op.BankBy? ==> StoredSince(Apply(st, op).value, log + [op]) == StoredSince(st, log)
    ensures op.ResetTo? ==> Sum(StoredSince(Apply(st, op).value, log + [op])) == 0
  {
    var st' := Apply(st, op).value;
    forall id | id in st'.sessions
      ensures op.BankBy? ==> Since(log + [op], id) == Since(log, id)
      ensures op.ResetTo? ==> Since(log + [op], id) == 0
    {
      SinceStep(log, op, id);
    }
    if op.ResetTo? { SumZero(StoredSince(st', log + [op])); }
  }

  lemma ConservesStep(w: World, op: Op, base: nat)
    requires Conserves(w, base)
    ensures Conserves(Advance(w, op), base)
  {
    if Apply(w.st, op).Some? {
      SessionsMatchStep(w.st, w.log, op);
      LedgerStep(w.log, op, base);
      if op.Rec? { RecordConserves(w.st, w.log, op); }
      else if op.PruneTo? { PruneConserves(w.st, w.log, op); }
      else { OthersConserve(w.st, w.log, op); }
    }
  }

  /** MAIN: with no side condition, the total is the carried base and banked deltas, plus the retired
      receipts, plus what each stored session has added since the last reset. */
  lemma {:induction false} BytesAreConserved(base: u64, epoch: string, ops: seq<Op>)
    ensures var w := Play(base, epoch, ops);
      && SessionsMatch(w.st, w.log)
      && w.st.total == Carried(base, w.log) + Retired(w.log) + Sum(StoredSince(w.st, w.log))
  {
    if ops == [] {
      SumZero(StoredSince(Play(base, epoch, ops).st, []));
    } else {
      BytesAreConserved(base, epoch, ops[..|ops| - 1]);
      ConservesStep(Play(base, epoch, ops[..|ops| - 1]), ops[|ops| - 1], base);
    }
  }

  // ----- the calls on files are these steps -------------------------------------------------------

  datatype Call = Call(op: Op, epoch: string, disk: Disk)

  function Perform(files: Files, cn: string, c: Call): Files {
    match c.op
    case Rec(id, bytes, closed) => Record(files, cn, id, bytes, closed, c.epoch, c.disk).0
    case BankBy(delta) => Bank(files, cn, delta, c.epoch, c.disk).0
    case PruneTo(present) => Prune(files, cn, present, c.disk).0
    case ResetTo(epoch) => Reset(files, cn, epoch, c.disk).0
  }

  function PerformAll(files: Files, cn: string, calls: seq<Call>): Files {
    if calls == [] then files
    else Perform(PerformAll(files, cn, calls[..|calls| - 1]), cn, calls[|calls| - 1])
  }

  /** A call arrives at its counter unless the disk fails it or it names no session. */
  predicate Arrives(c: Call) {
    c.disk.lockOk && c.disk.writeOk && (c.op.Rec? ==> c.op.id != "")
  }

  function Ops(calls: seq<Call>): seq<Op> {
    if calls == [] then []
    else Ops(calls[..|calls| - 1]) + if Arrives(calls[|calls| - 1]) then [calls[|calls| - 1].op] else []
  }

  predicate GoodEpochs(calls: seq<Call>) {
    forall c :: c in calls ==> (c.op.Rec? || c.op.BankBy? ==> c.epoch != "") && (c.op.ResetTo? ==> c.op.epoch != "")
  }

  /** The file holds this counter, apart from the version and epoch of a counter never written. */
  predicate Stores(files: Files, cn: string, st: UsageState) {
    Names.SafeCN(cn).Some? &&
    var r := ReadFile(files, Names.SafeCN(cn).value, "");
    r.Ok? && r.value.total == st.total && r.value.sessions == st.sessions
  }

  /** Agreement on what the counter counts. */
  predicate Agrees(a: UsageState, b: UsageState) { a.total == b.total && a.sessions == b.sessions }

  lemma ApplyAgrees(a: UsageState, b: UsageState, op: Op)
    requires Agrees(a, b)
    ensures Apply(a, op).Some? <==> Apply(b, op).Some?
    ensures Apply(a, op).Some? ==> Agrees(Apply(a, op).value, Apply(b, op).value)
  {
  }

  lemma ApplyFills(st: UsageState, op: Op)
    requires Filled(st.sessions) && Apply(st, op).Some?
    ensures Filled(Apply(st, op).value.sessions)
  {
  }

  lemma CommittedStep(files: Files, cn: string, read: UsageState, w: World, op: Op)
    requires Names.SafeCN(cn).Some? && Filled(read.sessions) && Agrees(read, w.st)
    requires Apply(read, op).Some? && Apply(read, op).value.version == COUNTER_VERSION && Apply(read, op).value.epoch != ""
    ensures Stores(files[Names.SafeCN(cn).value := Encode(Apply(read, op).value)], cn, Advance(w, op).st)
  {
    ApplyAgrees(read, w.st, op);
    ApplyFills(read, op);
    FilledReadsBack(files, Names.SafeCN(cn).value, Apply(read, op).value, "");
  }

  lemma RecordIsStep(files: Files, cn: string, w: World, c: Call)
    requires Stores(files, cn, w.st) && c.epoch != "" && c.op.Rec?
    ensures Stores(Perform(files, cn, c), cn, (if Arrives(c) then Advance(w, c.op) else w).st)
  {
    var safe := Names.SafeCN(cn).value;
    ReadFills(files, safe, "");
    var st := Upgraded(ReadFile(files, safe, c.epoch).value, c.epoch);
    if Arrives(c) && Apply(st, c.op).Some? { CommittedStep(files, cn, st, w, c.op); }
    else { ApplyAgrees(st, w.st, c.op); }
  }

  lemma BankIsStep(files: Files, cn: string, w: World, c: Call)
    requires Stores(files, cn, w.st) && c.epoch != "" && c.op.BankBy?
    ensures Stores(Perform(files, cn, c), cn, (if Arrives(c) then Advance(w, c.op) else w).st)
  {
    var safe := Names.SafeCN(cn).value;
    ReadFills(files, safe, "");
    var st := Upgraded(ReadFile(files, safe, c.epoch).value, c.epoch);
    if Arrives(c) && Apply(st, c.op).Some? { CommittedStep(files, cn, st, w, c.op); }
    else { ApplyAgrees(st, w.st, c.op); }
  }

  lemma PruneIsStep(files: Files, cn: string, w: World, c: Call)
    requires Stores(files, cn, w.st) && c.op.PruneTo?
    ensures Stores(Perform(files, cn, c), cn, (if Arrives(c) then Advance(w, c.op) else w).st)
  {
    var safe := Names.SafeCN(cn).value;
    ReadFills(files, safe, "");
    var st := ReadFile(files, safe, "").value;
    if Arrives(c) && PruneState(st, c.op.present) != st { CommittedStep(files, cn, st, w, c.op); }
    else { ApplyAgrees(st, w.st, c.op); }
  }

  lemma ResetIsStep(files: Files, cn: string, w: World, c: Call)
    requires Stores(files, cn, w.st) && c.op.ResetTo? && c.op.epoch != ""
    ensures Stores(Perform(files, cn, c), cn, (if Arrives(c) then Advance(w, c.op) else w).st)
  {
    var safe := Names.SafeCN(cn).value;
    ReadFills(files, safe, "");
    var st := ReadFile(files, safe, c.op.epoch).value;
    if Arrives(c) { CommittedStep(files, cn, st, w, c.op); }
  }

  lemma PerformIsStep(files: Files, cn: string, w: World, c: Call)
    requires Stores(files, cn, w.st) && GoodEpochs([c])
    ensures Stores(Perform(files, cn, c), cn, (if Arrives(c) then Advance(w, c.op) else w).st)
  {
    assert c in [c];
    match c.op
    case Rec(_, _, _) => RecordIsStep(files, cn, w, c);
    case BankBy(_) => BankIsStep(files, cn, w, c);
    case PruneTo(_) => PruneIsStep(files, cn, w, c);
    case ResetTo(_) => ResetIsStep(files, cn, w, c);
  }

  /** MAIN: the counter file follows the history machine through every run, whatever calls the disk fails. */
  lemma {:induction false} FilesFollowPlay(files: Files, cn: string, base: u64, calls: seq<Call>)
    requires Names.SafeCN(cn).Some? && GoodEpochs(calls)
    requires var safe := Names.SafeCN(cn).value;
      if safe in files then files[safe] == Digits(base) else base == 0
    ensures Stores(PerformAll(files, cn, calls), cn, Play(base, "", Ops(calls)).st)
  {
    if calls != [] {
      var before, c := calls[..|calls| - 1], calls[|calls| - 1];
      assert forall x :: x in before ==> x in calls;
      FilesFollowPlay(files, cn, base, before);
      PerformIsStep(PerformAll(files, cn, before), cn, Play(base, "", Ops(before)), c);
      assert (Ops(before) + [c.op])[..|Ops(before)|] == Ops(before) + [] == Ops(before);
      assert c in calls;
    }
  }
}
