/** The persisted traffic counter of one common name (internal/store/counter.go and usage.go). */
module Counter {
  import opened Wrappers
  import Text
  import Names

  const U64: int := 0x1_0000_0000_0000_0000

  type u64 = n: int | 0 <= n < U64

  /** Go's wrapping uint64 addition. */
  function WrapAdd(a: u64, b: u64): u64 { (a + b) % U64 }

  datatype UsageSession = UsageSession(bytes: u64, closed: bool, markerKey: string)

  datatype UsageState = UsageState(version: int, epoch: string, total: u64, sessions: map<string, UsageSession>)

  const COUNTER_VERSION := 2

  /** What a counter file holds; a file that is absent is absent from the directory. */
  datatype CounterFile =
    | Unavailable       // unreadable, blank, not JSON, trailing data, or an unknown field
    | Digits(n: nat)    // the legacy unsigned integer
    | Json(version: Option<int>, epoch: Option<string>, total: Option<u64>,
           sessions: Option<map<string, UsageSession>>)

  datatype Failure = BadName | EmptyId | NoCounter | Overflow | Io

  /** Whether the file system lets a call take its lock and commit its one rename. */
  datatype Disk = Disk(lockOk: bool, writeOk: bool)

  type Files = map<string, CounterFile>

  // ----- session identifiers -------------------------------------------------------------------

  predicate HasGeneration(sessionID: string) {
    var i := Text.LastIndex(sessionID, '.');
    i > 0 && |sessionID[i + 1..]| == 16 && Text.AllHex(sessionID[i + 1..])
  }

  function MarkerKeyOf(sessionID: string): string {
    var i := Text.LastIndex(sessionID, '.');
    if i > 0 && HasGeneration(sessionID) then sessionID[..i] else sessionID
  }

  predicate IsGeneration(gen: string) { |gen| == 16 && Text.AllHex(gen) }

  lemma GenerationSplit(key: string, gen: string)
    requires IsGeneration(gen)
    ensures Text.LastIndex(key + "." + gen, '.') == |key|
    ensures key != "" ==> HasGeneration(key + "." + gen) && MarkerKeyOf(key + "." + gen) == key
  {
    Text.LastIndexConcat(key, '.', gen);
    Text.Around(key, '.', gen);
    assert key + "." + gen == key + ['.'] + gen;
  }

  /** A session id carries a generation exactly when it is a file name, a dot and 16 hex digits. */
  lemma GenerationShape(id: string)
    ensures HasGeneration(id) <==>
            exists key: string, gen: string :: key != "" && IsGeneration(gen) && id == key + "." + gen
    ensures HasGeneration(id) ==> MarkerKeyOf(id) + "." + id[|id| - 16..] == id
    ensures !HasGeneration(id) ==> MarkerKeyOf(id) == id
  {
    if HasGeneration(id) {
      var i := Text.LastIndex(id, '.');
      assert id == id[..i] + "." + id[i + 1..] && IsGeneration(id[i + 1..]);
    }
    forall key: string, gen: string | key != "" && IsGeneration(gen) && id == key + "." + gen
      ensures HasGeneration(id)
    {
      GenerationSplit(key, gen);
    }
  }

  // ----- reading and writing the file ----------------------------------------------------------

  function FillMarkerKey(id: string, s: UsageSession): UsageSession {
    if s.markerKey == "" then s.(markerKey := MarkerKeyOf(id)) else s
  }

  function WithMarkerKeys(sessions: map<string, UsageSession>): (r: map<string, UsageSession>)
    ensures r.Keys == sessions.Keys
  {
    map id | id in sessions :: FillMarkerKey(id, sessions[id])
  }

  /** The state that the counter file of a safe name stands for; freshEpoch names a counter that does not
      exist yet. */
  function ReadFile(files: Files, safe: string, freshEpoch: string): Result<UsageState, Failure> {
    if safe !in files then Ok(UsageState(COUNTER_VERSION, freshEpoch, 0, map[])) else
    match files[safe]
    case Unavailable => Err(NoCounter)
    case Digits(n) => if n < U64 then Ok(UsageState(0, "", n, map[])) else Err(NoCounter)
    case Json(version, epoch, total, sessions) =>
      if version == Some(COUNTER_VERSION) && epoch.Some? && epoch.value != "" && total.Some? && sessions.Some?
      then Ok(UsageState(COUNTER_VERSION, epoch.value, total.value, WithMarkerKeys(sessions.value)))
      else Err(NoCounter)
  }

  function ReadUsageState(files: Files, cn: string, freshEpoch: string): Result<UsageState, Failure> {
    match Names.SafeCN(cn)
    case None => Err(BadName)
    case Some(safe) => ReadFile(files, safe, freshEpoch)
  }

  /** The encoding that one atomic rename commits. */
  function Encode(st: UsageState): CounterFile {
    Json(Some(st.version), Some(st.epoch), Some(st.total), Some(st.sessions))
  }

  predicate Filled(sessions: map<string, UsageSession>) {
    forall id :: id in sessions ==> FillMarkerKey(id, sessions[id]) == sessions[id]
  }

  /** Every session of a readable counter carries its marker key. */
  lemma ReadFills(files: Files, safe: string, epoch: string)
    ensures var r := ReadFile(files, safe, epoch); r.Ok? ==> Filled(r.value.sessions)
  {
  }

  /** What the store writes reads back unchanged. */
  lemma FilledReadsBack(files: Files, safe: string, st: UsageState, e: string)
    requires st.version == COUNTER_VERSION && st.epoch != "" && Filled(st.sessions)
    ensures ReadFile(files[safe := Encode(st)], safe, e) == Ok(st)
  {
    assert WithMarkerKeys(st.sessions) == st.sessions;
  }

  // ----- what each call means ------------------------------------------------------------------

  function Upgraded(st: UsageState, epoch: string): UsageState {
    st.(version := COUNTER_VERSION, epoch := if st.epoch == "" then epoch else st.epoch)
  }

  function SessionOf(st: UsageState, id: string): UsageSession {
    if id in st.sessions then st.sessions[id] else UsageSession(0, false, MarkerKeyOf(id))
  }

  function Max(a: u64, b: u64): u64 { if a < b then b else a }

  /** The high-water mark of a session after an observation: a closed session ignores it. */
  function Observed(s: UsageSession, bytes: u64): u64 {
    if s.closed then s.bytes else Max(s.bytes, bytes)
  }

  /** One observation credits the growth of the session's high-water mark, or fails on overflow. */
  function RecordState(st: UsageState, id: string, bytes: u64, closed: bool): Option<UsageState> {
    var s := SessionOf(st, id);
    var total := st.total + Observed(s, bytes) - s.bytes;
    if total >= U64 then None else
    Some(st.(total := total,
             sessions := st.sessions[id := s.(bytes := Observed(s, bytes), closed := s.closed || closed)]))
  }

  function BankState(st: UsageState, delta: u64): Option<UsageState> {
    if st.total + delta >= U64 then None else Some(st.(total := st.total + delta))
  }

  /** Only a closed receipt whose id is not present may go. */
  function PruneState(st: UsageState, present: set<string>): UsageState {
    st.(sessions := map id | id in st.sessions && (!st.sessions[id].closed || id in present) :: st.sessions[id])
  }

  function ResetState(st: UsageState, epoch: string): UsageState {
    UsageState(COUNTER_VERSION, epoch, 0, PruneState(st, {}).sessions)
  }

  // ----- the calls on the usage directory ------------------------------------------------------

  type Reply = Result<UsageState, Failure>

  /** Commit st, unless the disk refuses. */
  function Commit(files: Files, safe: string, st: UsageState, disk: Disk): (r: (Files, Reply)) {
    if disk.writeOk then (files[safe := Encode(st)], Ok(st)) else (files, Err(Io))
  }

  function Record(files: Files, cn: string, id: string, bytes: u64, closed: bool, epoch: string, disk: Disk)
    : (r: (Files, Reply))
    ensures r.1.Err? ==> r.0 == files
    ensures r.1.Ok? ==> Names.SafeCN(cn).Some? && r.0 == files[Names.SafeCN(cn).value := Encode(r.1.value)]
  {
    match Names.SafeCN(cn)
    case None => (files, Err(BadName))
    case Some(safe) =>
      if id == "" then (files, Err(EmptyId))
      else if !disk.lockOk then (files, Err(Io))
      else match ReadFile(files, safe, epoch)
        case Err(e) => (files, Err(e))
        case Ok(st) =>
          match RecordState(Upgraded(st, epoch), id, bytes, closed)
          case None => (files, Err(Overflow))
          case Some(st') => Commit(files, safe, st', disk)
  }

  lemma RecordFills(st: UsageState, id: string, bytes: u64, closed: bool)
    requires Filled(st.sessions) && RecordState(st, id, bytes, closed).Some?
    ensures Filled(RecordState(st, id, bytes, closed).value.sessions)
  {
  }

  /** A recorded state is what the next reader gets. */
  lemma RecordReadsBack(files: Files, cn: string, id: string, bytes: u64, closed: bool, epoch: string, disk: Disk, e: string)
    requires epoch != "" && Record(files, cn, id, bytes, closed, epoch, disk).1.Ok?
    ensures var safe := Names.SafeCN(cn).value;
      var (files', r) := Record(files, cn, id, bytes, closed, epoch, disk);
      && ReadFile(files', safe, e) == r && ReadFile(files, safe, epoch).Ok?
      && RecordState(Upgraded(ReadFile(files, safe, epoch).value, epoch), id, bytes, closed) == Some(r.value)
  {
    var safe := Names.SafeCN(cn).value;
    var st := Upgraded(ReadFile(files, safe, epoch).value, epoch);
    ReadFills(files, safe, epoch);
    RecordFills(st, id, bytes, closed);
    FilledReadsBack(files, safe, RecordState(st, id, bytes, closed).value, e);
  }

  function Bank(files: Files, cn: string, delta: u64, epoch: string, disk: Disk): (Files, Option<u64>) {
    match Names.SafeCN(cn)
    case None => (files, None)
    case Some(safe) =>
      if delta == 0 || !disk.lockOk then (files, None)
      else match ReadFile(files, safe, epoch)
        case Err(e) => (files, None)
        case Ok(st) =>
          match BankState(Upgraded(st, epoch), delta)
          case None => (files, None)
          case Some(st') => if disk.writeOk then (files[safe := Encode(st')], Some(st'.total)) else (files, None)
  }

  /** Pruning writes only when a receipt goes, so it never creates or upgrades a counter. */
  function Prune(files: Files, cn: string, present: set<string>, disk: Disk): (Files, Option<Failure>) {
    match Names.SafeCN(cn)
    case None => (files, Some(BadName))
    case Some(safe) =>
      if !disk.lockOk then (files, Some(Io))
      else match ReadFile(files, safe, "")
        case Err(e) => (files, Some(e))
        case Ok(st) =>
          if PruneState(st, present) == st then (files, None)
          else if disk.writeOk then (files[safe := Encode(PruneState(st, present))], None)
          else (files, Some(Io))
  }

  function Reset(files: Files, cn: string, epoch: string, disk: Disk): (Files, Option<Failure>) {
    match Names.SafeCN(cn)
    case None => (files, Some(BadName))
    case Some(safe) =>
      if !disk.lockOk then (files, Some(Io))
      else match ReadFile(files, safe, epoch)
        case Err(e) => (files, Some(e))
        case Ok(st) =>
          if disk.writeOk then (files[safe := Encode(ResetState(st, epoch))], None) else (files, Some(Io))
  }

  /** The wrap-around test of the source rejects exactly the sums that reach 2^64. */
  lemma OverflowTestIsExact(total: u64, delta: u64)
    ensures WrapAdd(total, delta) < total <==> total + delta >= U64
    ensures total + delta < U64 ==> WrapAdd(total, delta) == total + delta
  {
  }

  class UsageDir {
    var files: Files

    constructor ()
      ensures files == map[]
    {
      files := map[];
    }

    /** Fill in the marker keys that older files left out, in the map's arbitrary order. */
    static method FillMarkerKeys(sessions: map<string, UsageSession>) returns (out: map<string, UsageSession>)
      ensures out == WithMarkerKeys(sessions)
    {
      out := sessions;
      var todo := sessions.Keys;
      while todo != {}
        invariant todo <= sessions.Keys == out.Keys
        invariant forall id :: id in sessions ==>
          out[id] == if id in todo then sessions[id] else FillMarkerKey(id, sessions[id])
        decreases |todo|
      {
        var id :| id in todo;
        todo := todo - {id};
        if out[id].markerKey == "" {
          out := out[id := out[id].(markerKey := MarkerKeyOf(id))];
        }
      }
    }

    method Load(cn: string, freshEpoch: string) returns (r: Reply)
      ensures r == ReadUsageState(files, cn, freshEpoch)
    {
      var safe := Names.SafeCN(cn);
      if safe.None? { return Err(BadName); }
      if safe.value !in files { return Ok(UsageState(COUNTER_VERSION, freshEpoch, 0, map[])); }
      match files[safe.value]
      case Unavailable => r := Err(NoCounter);
      case Digits(n) => r := if n < U64 then Ok(UsageState(0, "", n, map[])) else Err(NoCounter);
      case Json(version, epoch, total, sessions) =>
        if version != Some(COUNTER_VERSION) { return Err(NoCounter); }
        if epoch.None? || epoch.value == "" || total.None? || sessions.None? { return Err(NoCounter); }
        var filled := FillMarkerKeys(sessions.value);
        r := Ok(UsageState(COUNTER_VERSION, epoch.value, total.value, filled));
    }

    /** The body of RecordSessionUsage between the read and the write. */
    static method Observe(read: UsageState, sessionID: string, bytes: u64, closed: bool, epoch: string)
      returns (r: Option<UsageState>)
      requires read.version != COUNTER_VERSION || read.epoch != ""
      ensures r == RecordState(Upgraded(read, epoch), sessionID, bytes, closed)
    {
      var st := read;
      if st.version != COUNTER_VERSION {
        st := st.(version := COUNTER_VERSION);
        if st.epoch == "" { st := st.(epoch := epoch); }
      }
      var sess := if sessionID in st.sessions then st.sessions[sessionID]
                  else UsageSession(0, false, MarkerKeyOf(sessionID));
      if !sess.closed && bytes > sess.bytes {
        var delta := bytes - sess.bytes;
        OverflowTestIsExact(st.total, delta);
        if WrapAdd(st.total, delta) < st.total { return None; }
        sess := sess.(bytes := bytes);
        st := st.(total := WrapAdd(st.total, delta));
      }
      if closed && !sess.closed { sess := sess.(closed := true); }
      st := st.(sessions := st.sessions[sessionID := sess]);
      if st.epoch == "" { st := st.(epoch := epoch); }
      r := Some(st);
    }

    method RecordSessionUsage(cn: string, sessionID: string, bytes: u64, closed: bool, epoch: string, disk: Disk)
      returns (r: Reply)
      requires epoch != ""
      modifies this
      ensures (files, r) == Record(old(files), cn, sessionID, bytes, closed, epoch, disk)
    {
      var safe := Names.SafeCN(cn);
      if safe.None? { return Err(BadName); }
      if sessionID == "" { return Err(EmptyId); }
      if !disk.lockOk { return Err(Io); }
      var read := Load(safe.value, epoch);
      if read.Err? { return read; }
      var observed := Observe(read.value, sessionID, bytes, closed, epoch);
      if observed.None? { return Err(Overflow); }
      if !disk.writeOk { return Err(Io); }
      files := files[safe.value := Encode(observed.value)];
      r := Ok(observed.value);
    }

    method BankUsage(cn: string, delta: u64, epoch: string, disk: Disk) returns (total: Option<u64>)
      requires epoch != ""
      modifies this
      ensures (files, total) == Bank(old(files), cn, delta, epoch, disk)
    {
      var safe := Names.SafeCN(cn);
      if safe.None? || delta == 0 || !disk.lockOk { return None; }
      var read := Load(safe.value, epoch);
      if read.Err? { return None; }
      var st := read.value;
      if WrapAdd(st.total, delta) < st.total { return None; }
      st := st.(total := WrapAdd(st.total, delta));
      if st.version != COUNTER_VERSION {
        st := st.(version := COUNTER_VERSION);
        if st.epoch == "" { st := st.(epoch := epoch); }
      }
      if !disk.writeOk { return None; }
      files := files[safe.value := Encode(st)];
      total := Some(st.total);
    }

    /** Delete closed sessions that are not present, visiting the map in arbitrary order. */
    static method DropReceipts(st: UsageState, present: set<string>) returns (out: UsageState, changed: bool)
      ensures out == PruneState(st, present)
      ensures changed <==> out != st
    {
      var sessions := st.sessions;
      changed := false;
      var todo := st.sessions.Keys;
      while todo != {}
        invariant todo <= st.sessions.Keys
        invariant forall id :: id in sessions ==> id in st.sessions && sessions[id] == st.sessions[id]
        invariant forall id :: id in st.sessions ==>
          (id in sessions <==> id in todo || !st.sessions[id].closed || id in present)
        invariant changed <==> sessions != st.sessions
        decreases |todo|
      {
        var id :| id in todo;
        todo := todo - {id};
        if sessions[id].closed && id !in present {
          sessions := sessions - {id};
          changed := true;
          assert id in st.sessions && id !in sessions;
        }
      }
      out := st.(sessions := sessions);
      assert out.sessions == PruneState(st, present).sessions;
    }

    method PruneReceipts(cn: string, present: set<string>, disk: Disk) returns (err: Option<Failure>)
      modifies this
      ensures (files, err) == Prune(old(files), cn, present, disk)
    {
      var safe := Names.SafeCN(cn);
      if safe.None? { return Some(BadName); }
      if !disk.lockOk { return Some(Io); }
      var read := Load(safe.value, "");
      if read.Err? { return Some(read.error); }
      var st, changed := DropReceipts(read.value, present);
      if !changed { return None; }
      if !disk.writeOk { return Some(Io); }
      files := files[safe.value := Encode(st)];
      err := None;
    }

    method ResetUsage(cn: string, epoch: string, disk: Disk) returns (err: Option<Failure>)
      requires epoch != ""
      modifies this
      ensures (files, err) == Reset(old(files), cn, epoch, disk)
    {
      var safe := Names.SafeCN(cn);
      if safe.None? { return Some(BadName); }
      if !disk.lockOk { return Some(Io); }
      var read := Load(safe.value, epoch);
      if read.Err? { return Some(read.error); }
      var st, _ := DropReceipts(read.value, {});
      st := UsageState(COUNTER_VERSION, epoch, 0, st.sessions);
      if !disk.writeOk { return Some(Io); }
      files := files[safe.value := Encode(st)];
      err := None;
    }
  }
}
