/** Which session the poll books a row under, in terms of the markers' own fields, and what it books there
    (internal/ovpn/usage.go:60-100 and 200-240, internal/ovpn/sessions.go:47-90). */
module PollLaws {
  import opened Wrappers
  import opened Counter
  import opened Markers
  import opened Hooks
  import opened Isolation
  import opened ScanFailures
  import opened FinalBanking
  import Names
  import Text

  // ----- the marker that takes a row -----------------------------------------------------------------

  /** A file of the listing that is a marker of cn: its user is the one it names, or the first label of its file. */
  predicate MarkerOf(s: Sessions, f: string, cn: string) {
    f in s && !Text.HasPrefix(f, ".") && (if s[f].commonName != "" then s[f].commonName else Text.Cut(f, '.').0) == cn
  }

  function StartedAt(m: Marker): int { if m.connectedAt != 0 then m.connectedAt else m.created }

  function IdOf(f: string, m: Marker): string { if m.sessionID != "" then m.sessionID else f }

  /** The marker is at the row's pool address, or has none and is at the row's real address and port. */
  predicate AddressFits(row: Row, m: Marker) {
    if m.poolIP != "" then m.poolIP == row.virtualAddress else m.trustedIP == row.trustedIP && m.trustedPort == row.trustedPort
  }

  /** The marker started before the snapshot, as far as both times are known. */
  predicate Older(m: Marker, updatedAt: int) { updatedAt <= 0 || StartedAt(m) <= 0 || StartedAt(m) < updatedAt }

  predicate MayTake(s: Sessions, f: string, cn: string, row: Row, updatedAt: int) {
    MarkerOf(s, f, cn) && AddressFits(row, s[f]) && Older(s[f], updatedAt)
  }

  /** The i-th file is the latest marker that may take the row, the first of these in the listing. */
  predicate Takes(s: Sessions, listing: seq<string>, cn: string, row: Row, updatedAt: int, i: int) {
    && 0 <= i < |listing| && MayTake(s, listing[i], cn, row, updatedAt)
    && forall j :: 0 <= j < |listing| && MayTake(s, listing[j], cn, row, updatedAt) ==>
         StartedAt(s[listing[j]]) <= StartedAt(s[listing[i]]) && (j < i ==> StartedAt(s[listing[j]]) < StartedAt(s[listing[i]]))
  }

  /** The session that the row belongs to; a user without markers is booked under the row's own identity. */
  ghost predicate GoesTo(s: Sessions, listing: seq<string>, cn: string, row: Row, updatedAt: int, id: string) {
    || (exists i :: Takes(s, listing, cn, row, updatedAt, i) && IdOf(listing[i], s[listing[i]]) == id)
    || ((forall f :: f in listing ==> !MarkerOf(s, f, cn))
        && id == row.commonName + "." + row.virtualAddress + "." + row.clientID + "." + Text.FormatInt(row.connectedAt))
  }

  // ----- candidates are the markers of the listing ------------------------------------------------------

  lemma CandidateFields(f: string, m: Marker, row: Row, updatedAt: int)
    ensures var c := ToCandidate(f, m);
      && c.sessionID == IdOf(f, m) && Stamp(c) == StartedAt(m)
      && (Eligible(row, c, updatedAt) <==> AddressFits(row, m) && Older(m, updatedAt))
  {
  }

  lemma CandidateOwner(s: Sessions, f: string, cn: string)
    ensures MarkerOf(s, f, cn) <==> f in s && Visible(f) && ToCandidate(f, s[f]).commonName == cn
  {
  }

  /** Where the candidates stand in the listing. */
  ghost predicate Located(s: Sessions, listing: seq<string>, cn: string, cands: seq<Candidate>, at: seq<int>) {
    && |at| == |cands|
    && (forall k :: 0 <= k < |at| ==> LocatedAt(s, listing, cn, cands[k], at[k]))
    && (forall k, l :: 0 <= k < l < |at| ==> at[k] < at[l])
    && (forall j :: 0 <= j < |listing| && MarkerOf(s, listing[j], cn) ==> j in at)
  }

  predicate LocatedAt(s: Sessions, listing: seq<string>, cn: string, c: Candidate, j: int) {
    0 <= j < |listing| && MarkerOf(s, listing[j], cn) && c == ToCandidate(listing[j], s[listing[j]])
  }

  lemma {:induction false} Locate(s: Sessions, listing: seq<string>, cn: string) returns (at: seq<int>)
    ensures Located(s, listing, cn, Candidates(s, listing, cn), at)
    decreases |listing|
  {
    hide ToCandidate, MarkerOf, Visible;
    at := [];
    if listing != [] {
      var last := |listing| - 1;
      var front, f := listing[..last], listing[last];
      at := Locate(s, front, cn);
      CandidateOwner(s, f, cn);
      if MarkerOf(s, f, cn) { at := at + [last]; }
    }
  }

  lemma ChosenTakes(s: Sessions, listing: seq<string>, cn: string, at: seq<int>, row: Row, updatedAt: int, k: int)
    requires Located(s, listing, cn, Candidates(s, listing, cn), at)
    requires IsChoice(row, Candidates(s, listing, cn), updatedAt, k)
    ensures 0 <= k < |at| && Takes(s, listing, cn, row, updatedAt, at[k])
    ensures IdOf(listing[at[k]], s[listing[at[k]]]) == Candidates(s, listing, cn)[k].sessionID
  {
    hide Candidates, ToCandidate, Text.Cut, Text.HasPrefix, Stamp, StartedAt, Eligible, AddressFits, Older, IdOf;
    var cands := Candidates(s, listing, cn);
    assert LocatedAt(s, listing, cn, cands[k], at[k]);
    CandidateFields(listing[at[k]], s[listing[at[k]]], row, updatedAt);
    forall j | 0 <= j < |listing| && MayTake(s, listing[j], cn, row, updatedAt)
      ensures StartedAt(s[listing[j]]) <= StartedAt(s[listing[at[k]]])
      ensures j < at[k] ==> StartedAt(s[listing[j]]) < StartedAt(s[listing[at[k]]])
    {
      var l :| 0 <= l < |at| && at[l] == j;
      assert LocatedAt(s, listing, cn, cands[l], j);
      CandidateFields(listing[j], s[listing[j]], row, updatedAt);
    }
  }

  lemma TakerIsUnique(s: Sessions, listing: seq<string>, cn: string, row: Row, updatedAt: int, i: int, j: int)
    requires Takes(s, listing, cn, row, updatedAt, i) && Takes(s, listing, cn, row, updatedAt, j)
    ensures i == j
  {
    hide MayTake, StartedAt;
  }

  lemma NoChoiceNoTaker(s: Sessions, listing: seq<string>, cn: string, at: seq<int>, row: Row, updatedAt: int, i: int)
    requires Located(s, listing, cn, Candidates(s, listing, cn), at)
    requires var cands := Candidates(s, listing, cn); forall j :: 0 <= j < |cands| ==> !Eligible(row, cands[j], updatedAt)
    ensures !Takes(s, listing, cn, row, updatedAt, i)
  {
    hide Candidates, ToCandidate, Text.Cut, Text.HasPrefix, Stamp, StartedAt, Eligible, AddressFits, Older;
    if Takes(s, listing, cn, row, updatedAt, i) {
      var l :| 0 <= l < |at| && at[l] == i;
      assert LocatedAt(s, listing, cn, Candidates(s, listing, cn)[l], i);
      CandidateFields(listing[i], s[listing[i]], row, updatedAt);
    }
  }

  lemma NoCandidates(s: Sessions, listing: seq<string>, cn: string, at: seq<int>)
    requires Located(s, listing, cn, Candidates(s, listing, cn), at)
    ensures Candidates(s, listing, cn) == [] <==> forall f :: f in listing ==> !MarkerOf(s, f, cn)
  {
    hide Candidates, ToCandidate, MarkerOf;
    var cands := Candidates(s, listing, cn);
    if cands != [] { assert LocatedAt(s, listing, cn, cands[0], at[0]); }
  }

  /** MAIN: a row is booked under an id exactly when it belongs to that session by user, address and time. */
  lemma BookedUnderExactly(s: Sessions, listing: seq<string>, cn: string, row: Row, updatedAt: int, id: string)
    ensures RowId(row, Candidates(s, listing, cn), updatedAt) == Some(id) <==> GoesTo(s, listing, cn, row, updatedAt, id)
  {
    hide Candidates, Choose, IsChoice, Eligible, Takes, MarkerOf, IdOf, Located, Text.FormatInt;
    var cands := Candidates(s, listing, cn);
    var at := Locate(s, listing, cn);
    NoCandidates(s, listing, cn, at);
    ChooseIsBest(row, cands, updatedAt);
    match Choose(row, cands, updatedAt) {
    case Some(k) =>
      ChosenTakes(s, listing, cn, at, row, updatedAt, k);
      forall i | Takes(s, listing, cn, row, updatedAt, i) ensures i == at[k] { TakerIsUnique(s, listing, cn, row, updatedAt, i, at[k]); }
    case None =>
      forall i ensures !Takes(s, listing, cn, row, updatedAt, i) { NoChoiceNoTaker(s, listing, cn, at, row, updatedAt, i); }
    }
  }

  // ----- what a poll books ---------------------------------------------------------------------------------

  function RowBytes(row: Row): u64 { WrapAdd(row.bytesReceived, row.bytesSent) }

  /** The entry after observations of an open session: it has grown to the largest of them, closed ones stay. */
  ghost predicate GrownTo(before: Option<UsageSession>, after: Option<UsageSession>, seen: set<u64>) {
    if seen == {} then after == before
    else
      && after.Some? && after.value.closed == (before.Some? && before.value.closed)
      && if after.value.closed then after.value.bytes == before.value.bytes
         else
           && BytesOf(before) <= after.value.bytes && (forall b :: b in seen ==> b <= after.value.bytes)
           && (after.value.bytes == BytesOf(before) || after.value.bytes in seen)
  }

  /** The byte counts of the rows that are booked under id. */
  ghost function SeenFor(rows: seq<Row>, cands: seq<Candidate>, updatedAt: int, id: string): set<u64> {
    set row | row in rows && RowId(row, cands, updatedAt) == Some(id) :: RowBytes(row)
  }

  lemma RecordStateGrows(st: UsageState, id: string, bytes: u64)
    requires RecordState(st, id, bytes, false).Some?
    ensures GrownTo(EntryIn(Ok(st), id), EntryIn(Ok(RecordState(st, id, bytes, false).value), id), {bytes})
  {
  }

  lemma RecordGrows(files: Files, cn: string, id: string, bytes: u64, epoch: string, disk: Disk)
    requires Names.SafeCN(cn) == Some(cn) && epoch != "" && Record(files, cn, id, bytes, false, epoch, disk).1.Ok?
    ensures var files' := Record(files, cn, id, bytes, false, epoch, disk).0;
      GrownTo(EntryOf(files, cn, id), EntryOf(files', cn, id), {bytes})
  {
    hide ReadFile, Record, RecordState, Upgraded, EntryIn, GrownTo, Names.SafeCN, Names.StoreKey, Text.TrimSpace;
    RecordReadsBack(files, cn, id, bytes, false, epoch, disk, "");
    EntryWithEpoch(files, cn, id, epoch);
    RecordStateGrows(Upgraded(ReadFile(files, cn, epoch).value, epoch), id, bytes);
  }

  lemma EntryWithEpoch(files: Files, cn: string, id: string, epoch: string)
    requires ReadFile(files, cn, epoch).Ok?
    ensures EntryIn(Ok(Upgraded(ReadFile(files, cn, epoch).value, epoch)), id) == EntryOf(files, cn, id)
  {
    hide ReadFile;
    EpochIsApart(files, cn, epoch);
  }

  lemma GrowsTwice(a: Option<UsageSession>, b: Option<UsageSession>, c: Option<UsageSession>, x: set<u64>, y: set<u64>)
    requires GrownTo(a, b, x) && GrownTo(b, c, y)
    ensures GrownTo(a, c, x + y)
  {
    assert x + {} == x && {} + y == y;
    if x == {} { assert x + y == y; } else if y == {} { assert x + y == x; } else { var b :| b in x; assert b in x + y; }
  }

  lemma SeenFirst(rows: seq<Row>, cands: seq<Candidate>, updatedAt: int, id: string)
    requires rows != []
    ensures SeenFor(rows, cands, updatedAt, id) ==
      (if RowId(rows[0], cands, updatedAt) == Some(id) then {RowBytes(rows[0])} else {})
      + SeenFor(rows[1..], cands, updatedAt, id)
  {
    hide RowId;
    assert rows == [rows[0]] + rows[1..];
    assert forall r :: r in rows <==> r == rows[0] || r in rows[1..];
  }

  lemma {:induction false} BookRowsGrow(usage: Files, ids: set<string>, cn: string, cands: seq<Candidate>, rows: seq<Row>,
                                        updatedAt: int, epoch: string, disk: Disk, id: string)
    requires epoch != "" && Names.StoreKey(cn) && Names.SafeCN(cn) == Some(cn)
    requires BookRows(usage, ids, cn, cands, rows, updatedAt, epoch, disk).2
    ensures GrownTo(EntryOf(usage, cn, id),
                    EntryOf(BookRows(usage, ids, cn, cands, rows, updatedAt, epoch, disk).0, cn, id),
                    SeenFor(rows, cands, updatedAt, id))
    decreases |rows|
  {
    hide EntryOf, Record, RowId, GrownTo, SeenFor, Names.StoreKey, Names.SafeCN, Text.TrimSpace;
    if rows == [] {
      SeenNone(cands, updatedAt, id);
      NoGrowth(EntryOf(usage, cn, id));
    } else {
      SeenFirst(rows, cands, updatedAt, id);
      match RowId(rows[0], cands, updatedAt)
      case None =>
        BookRowsGrow(usage, ids, cn, cands, rows[1..], updatedAt, epoch, disk, id);
        assert {} + SeenFor(rows[1..], cands, updatedAt, id) == SeenFor(rows[1..], cands, updatedAt, id);
      case Some(rid) =>
        var bytes := RowBytes(rows[0]);
        var usage' := Record(usage, cn, rid, bytes, false, epoch, disk).0;
        BookRowsGrow(usage', ids + {rid}, cn, cands, rows[1..], updatedAt, epoch, disk, id);
        FirstRowGrows(usage, cn, rid, bytes, epoch, disk, id);
        GrowsTwice(EntryOf(usage, cn, id), EntryOf(usage', cn, id),
                   EntryOf(BookRows(usage', ids + {rid}, cn, cands, rows[1..], updatedAt, epoch, disk).0, cn, id),
                   if rid == id then {bytes} else {}, SeenFor(rows[1..], cands, updatedAt, id));
    }
  }

  lemma SeenNone(cands: seq<Candidate>, updatedAt: int, id: string)
    ensures SeenFor([], cands, updatedAt, id) == {}
  {
  }

  lemma NoGrowth(e: Option<UsageSession>)
    ensures GrownTo(e, e, {})
  {
  }

  lemma FirstRowGrows(usage: Files, cn: string, rid: string, bytes: u64, epoch: string, disk: Disk, id: string)
    requires epoch != "" && Names.StoreKey(cn) && Names.SafeCN(cn) == Some(cn)
    requires Record(usage, cn, rid, bytes, false, epoch, disk).1.Ok?
    ensures GrownTo(EntryOf(usage, cn, id), EntryOf(Record(usage, cn, rid, bytes, false, epoch, disk).0, cn, id),
                    if rid == id then {bytes} else {})
  {
    hide EntryOf, Record, GrownTo, Names.StoreKey, Names.SafeCN, Text.TrimSpace;
    if rid == id {
      RecordGrows(usage, cn, id, bytes, epoch, disk);
    } else {
      RecordTouchesOneEntry(usage, cn, rid, bytes, false, epoch, disk, cn, id);
      NoGrowth(EntryOf(usage, cn, id));
    }
  }

  /** The poll of cn gets through all rows. */
  predicate Completes(n: Node, cn: string, listing: seq<string>, rows: seq<Row>, updatedAt: int, epoch: string, disk: Disk) {
    BookRows(n.usage, {}, cn, Candidates(n.sessions, listing, cn), rows, updatedAt, epoch, disk).2
  }

  /** The byte counts, received plus sent, of the rows that belong to a session. */
  ghost predicate CountsFor(s: Sessions, listing: seq<string>, cn: string, rows: seq<Row>, updatedAt: int, id: string,
                            seen: set<u64>)
  {
    forall b: u64 :: b in seen <==> exists row :: CountsRow(s, listing, cn, rows, updatedAt, id, row, b)
  }

  ghost predicate CountsRow(s: Sessions, listing: seq<string>, cn: string, rows: seq<Row>, updatedAt: int, id: string, row: Row,
                            b: u64)
  {
    row in rows && GoesTo(s, listing, cn, row, updatedAt, id)
    && b == (row.bytesReceived + row.bytesSent) % 0x1_0000_0000_0000_0000
  }

  lemma SeenIsCounted(s: Sessions, listing: seq<string>, cn: string, rows: seq<Row>, updatedAt: int, id: string)
    ensures CountsFor(s, listing, cn, rows, updatedAt, id, SeenFor(rows, Candidates(s, listing, cn), updatedAt, id))
  {
    hide RowId, GoesTo, Candidates;
    var cands := Candidates(s, listing, cn);
    var seen := SeenFor(rows, cands, updatedAt, id);
    forall b: u64 ensures b in seen <==> exists row :: CountsRow(s, listing, cn, rows, updatedAt, id, row, b) {
      if b in seen {
        var row :| row in rows && RowId(row, cands, updatedAt) == Some(id) && RowBytes(row) == b;
        BookedUnderExactly(s, listing, cn, row, updatedAt, id);
        assert CountsRow(s, listing, cn, rows, updatedAt, id, row, b);
      }
      if exists row :: CountsRow(s, listing, cn, rows, updatedAt, id, row, b) {
        var row :| CountsRow(s, listing, cn, rows, updatedAt, id, row, b);
        BookedUnderExactly(s, listing, cn, row, updatedAt, id);
      }
    }
  }

  /** MAIN: a poll that gets through its rows raises every open entry to the largest count of the rows that belong
      to its session, creates those that are missing, and leaves closed entries and all others alone. */
  lemma PollBooksExactly(n: Node, cn: string, listing: seq<string>, rows: seq<Row>, updatedAt: int, epoch: string, disk: Disk,
                         id: string, seen: set<u64>)
    requires epoch != "" && Names.StoreKey(cn) && Completes(n, cn, listing, rows, updatedAt, epoch, disk)
    requires CountsFor(n.sessions, listing, cn, rows, updatedAt, id, seen)
    ensures GrownTo(EntryOf(n.usage, cn, id),
                    EntryOf(PollBook(n, cn, listing, rows, updatedAt, epoch, disk).usage, cn, id), seen)
  {
    assert Names.SafeCN(cn) == Some(cn);
    hide EntryOf, GrownTo, SeenFor, BookRows, Candidates, CountsRow, Names.StoreKey, Names.SafeCN;
    var cands := Candidates(n.sessions, listing, cn);
    SeenIsCounted(n.sessions, listing, cn, rows, updatedAt, id);
    var counted := SeenFor(rows, cands, updatedAt, id);
    assert forall b: u64 :: b in seen <==> b in counted;
    assert seen == counted;
    BookRowsGrow(n.usage, {}, cn, cands, rows, updatedAt, epoch, disk, id);
  }

  lemma {:induction false} ChangedHasRow(usage: Files, ids: set<string>, cn': string, cands: seq<Candidate>, rows: seq<Row>,
                                         updatedAt: int, epoch: string, disk: Disk, cn: string, id: string) returns (row: Row)
    requires epoch != "" && Names.StoreKey(cn)
    requires EntryOf(BookRows(usage, ids, cn', cands, rows, updatedAt, epoch, disk).0, cn, id) != EntryOf(usage, cn, id)
    ensures row in rows && RowId(row, cands, updatedAt) == Some(id)
    decreases |rows|
  {
    hide EntryOf, Record, RowId, Names.StoreKey;
    match RowId(rows[0], cands, updatedAt)
    case None => row := ChangedHasRow(usage, ids, cn', cands, rows[1..], updatedAt, epoch, disk, cn, id);
    case Some(rid) =>
      if rid == id { return rows[0]; }
      RecordTouchesOneEntry(usage, cn', rid, RowBytes(rows[0]), false, epoch, disk, cn, id);
      var usage' := Record(usage, cn', rid, RowBytes(rows[0]), false, epoch, disk).0;
      row := ChangedHasRow(usage', ids + {rid}, cn', cands, rows[1..], updatedAt, epoch, disk, cn, id);
  }

  /** MAIN: whatever becomes of a poll, an entry that it changes belongs to one of its rows: to the latest older marker
      of the polled user at the row's pool address, or without one and at its real address and port. */
  lemma PollChangesOnlyItsRows(n: Node, o: string, listing: seq<string>, rows: seq<Row>, updatedAt: int, epoch: string,
                               disk: Disk, cn: string, id: string)
    requires epoch != "" && Names.StoreKey(cn)
    requires EntryOf(PollBook(n, o, listing, rows, updatedAt, epoch, disk).usage, cn, id) != EntryOf(n.usage, cn, id)
    ensures exists row :: row in rows && GoesTo(n.sessions, listing, o, row, updatedAt, id)
  {
    hide EntryOf, BookRows, Candidates, GoesTo, RowId, Names.StoreKey;
    var cands := Candidates(n.sessions, listing, o);
    var row := ChangedHasRow(n.usage, {}, o, cands, rows, updatedAt, epoch, disk, cn, id);
    BookedUnderExactly(n.sessions, listing, o, row, updatedAt, id);
  }

  /** A row whose pool address only one older marker of the user carries belongs to that marker. */
  lemma OnlyMarkerTakes(s: Sessions, listing: seq<string>, cn: string, row: Row, updatedAt: int, i: nat)
    requires i < |listing| && MarkerOf(s, listing[i], cn) && s[listing[i]].poolIP == row.virtualAddress != ""
    requires Older(s[listing[i]], updatedAt)
    requires forall j :: 0 <= j < |listing| && j != i && MarkerOf(s, listing[j], cn) ==>
      var m := s[listing[j]];
      if m.poolIP != "" then m.poolIP != row.virtualAddress
      else m.trustedIP != row.trustedIP || m.trustedPort != row.trustedPort
    ensures GoesTo(s, listing, cn, row, updatedAt, IdOf(listing[i], s[listing[i]]))
  {
    hide Older, StartedAt, IdOf, Text.FormatInt;
    assert Takes(s, listing, cn, row, updatedAt, i);
  }
}
