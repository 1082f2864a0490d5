/** What the certificate authority keeps over whole runs, stopped anywhere (internal/pki). */
module PkiRuns {
  import opened Wrappers
  import opened PkiIndex
  import opened Pki
  import Text

  // ----- numbers on disk -----------------------------------------------------------------------

  /** Printing a number to its file and reading it undo each other. */
  lemma NumberReadsBack(n: nat)
    ensures ReadNumber(NumberFile(n)) == Some(n)
  {
    var s := Text.Render(n, 16);
    Text.ValueRender(n, 16);
    assert forall c :: c in s ==> !Text.IsSpace(c);
    assert s[0] in s && s[|s| - 1] in s;
    assert (s + "\n")[..|s|] == s && (s + "\n")[|s|] == '\n' && (s + "\n")[0] == s[0];
    assert Text.TrimLeft(s + "\n") == s + "\n";
    assert Text.TrimRight(s + "\n") == Text.TrimRight(s);
    assert Text.TrimSpace(s) == s && Text.TrimLeft(s) == s;
  }

  // ----- issuing -------------------------------------------------------------------------------

  function TreeAfter(t: Tree, calls: seq<Request>, clock: Clock): Tree
    decreases |calls|
  {
    if calls == [] then t else TreeAfter(Issue(t, calls[0], clock).tree, calls[1..], clock)
  }

  /** The serials that a run of issuances takes, whether or not the calls then succeed. */
  function Handed(t: Tree, calls: seq<Request>, clock: Clock): seq<nat>
    decreases |calls|
  {
    if calls == [] then []
    else
      var i := Issue(t, calls[0], clock);
      (if i.serial.Some? then [i.serial.value] else []) + Handed(i.tree, calls[1..], clock)
  }

  /** The rows of the calls that succeed, in order. */
  function Rows(t: Tree, calls: seq<Request>, clock: Clock): seq<Row>
    decreases |calls|
  {
    if calls == [] then []
    else
      var i := Issue(t, calls[0], clock);
      (if i.ok && i.serial.Some? then [IssuedRow(calls[0].cn, i.serial.value, calls[0].expiry)] else [])
      + Rows(i.tree, calls[1..], clock)
  }

  lemma IssueCounts(t: Tree, q: Request, clock: Clock)
    ensures var i := Issue(t, q, clock);
      if i.serial.Some? then ReadNumber(t.serial) == i.serial && ReadNumber(i.tree.serial) == Some(i.serial.value + 1)
      else i.tree == t
  {
    hide ReadNumber, NumberFile, Appended;
    if ReadNumber(t.serial).Some? { NumberReadsBack(ReadNumber(t.serial).value + 1); }
  }

  /** MAIN: over any run of issuances and renewals, each stopped at any write, the serials that are
      taken strictly increase, so none is taken twice. */
  lemma {:induction false} SerialsStrictlyIncrease(t: Tree, calls: seq<Request>, clock: Clock)
    ensures Increasing(Handed(t, calls, clock))
    ensures From(ReadNumber(t.serial), Handed(t, calls, clock))
    decreases |calls|
  {
    hide Issue, ReadNumber;
    if calls != [] {
      IssueCounts(t, calls[0], clock);
      SerialsStrictlyIncrease(Issue(t, calls[0], clock).tree, calls[1..], clock);
    }
  }

  predicate Increasing(h: seq<nat>) { forall i, j :: 0 <= i < j < |h| ==> h[i] < h[j] }

  predicate From(n: Option<nat>, h: seq<nat>) { forall i :: 0 <= i < |h| ==> n.Some? && n.value <= h[i] }

  /** The serial file is readable and ahead of every certificate in a readable index. */
  predicate Ahead(t: Tree, clock: Clock) {
    && ReadNumber(t.serial).Some? && IndexRows(t, clock).Some?
    && forall n :: n in Serials(IndexRows(t, clock).value) ==> n < ReadNumber(t.serial).value
  }

  predicate Stampable(q: Request, clock: Clock) { IsField(q.cn) && IsField(q.expiry) && clock(q.expiry) }

  predicate Stopped(t: Tree, q: Request) {
    || t.ca.None? || !t.ca.value.ecdsa || !q.keyOk
    || q.fault == SerialWrite || q.fault == Signing || q.fault == IndexWrite
  }

  lemma IssueAhead(t: Tree, q: Request, clock: Clock)
    requires Ahead(t, clock) && Stampable(q, clock)
    ensures var i := Issue(t, q, clock);
      && (i.ok <==> !Stopped(t, q)) && (i.ok ==> i.serial.Some?)
      && i.tree.ca == t.ca && Ahead(i.tree, clock)
      && IndexRows(i.tree, clock).value ==
         IndexRows(t, clock).value + if i.ok then [IssuedRow(q.cn, i.serial.value, q.expiry)] else []
  {
    hide ReadNumber, ParseIndex, Appended, IssuedRow;
    var n := ReadNumber(t.serial).value;
    IssueCounts(t, q, clock);
    AppendAddsOneRow(t.index.text, q.cn, n, q.expiry, clock);
    SerialsSnoc(IndexRows(t, clock).value, IssuedRow(q.cn, n, q.expiry));
    IssuedRowOk(q.cn, n, q.expiry, clock);
  }

  lemma SerialsSnoc(rows: seq<Row>, r: Row)
    ensures Serials(rows + [r]) == Serials(rows) + {Serial(r)}
  {
    assert (rows + [r])[|rows|] == r;
  }

  /** MAIN: once the serial file is ahead of the index it stays ahead, no issuance is refused for a
      duplicate serial, and a run adds exactly the rows of its successful calls, in order. */
  lemma {:induction false} IssuanceNeverCollides(t: Tree, calls: seq<Request>, clock: Clock)
    requires Ahead(t, clock) && forall q :: q in calls ==> Stampable(q, clock)
    ensures var t' := TreeAfter(t, calls, clock);
      && Ahead(t', clock)
      && IndexRows(t', clock).value == IndexRows(t, clock).value + Rows(t, calls, clock)
      && |Rows(t, calls, clock)| == |Unstopped(t, calls)|
    decreases |calls|
  {
    hide Issue, Ahead, IndexRows, IssuedRow, Stopped, Stampable;
    if calls != [] {
      IssueAhead(t, calls[0], clock);
      IssuanceNeverCollides(Issue(t, calls[0], clock).tree, calls[1..], clock);
      UnstoppedSame(t, Issue(t, calls[0], clock).tree, calls[1..]);
    }
  }

  /** The calls that no fault stops. */
  function Unstopped(t: Tree, calls: seq<Request>): seq<Request>
    decreases |calls|
  {
    if calls == [] then [] else (if Stopped(t, calls[0]) then [] else [calls[0]]) + Unstopped(t, calls[1..])
  }

  lemma {:induction false} UnstoppedSame(t: Tree, t': Tree, calls: seq<Request>)
    requires t.ca == t'.ca
    ensures Unstopped(t, calls) == Unstopped(t', calls)
    decreases |calls|
  {
    if calls != [] { UnstoppedSame(t, t', calls[1..]); }
  }

  // ----- publishing ----------------------------------------------------------------------------

  function RevokedSerials(rows: seq<Row>): set<nat> { set r | r in rows && r.status == "R" :: Serial(r) }

  /** The merged list keeps what was published and lists the revoked rows besides, nothing else. */
  lemma {:induction false} MergeExact(revoked: seq<Revocation>, rows: seq<Row>, clock: Clock)
    requires forall r :: r in rows ==> Acceptable(r, clock)
    ensures var out := MergeFrom(revoked, rows, clock);
      out.Some? && revoked <= out.value && Listed(out.value) == Listed(revoked) + RevokedSerials(rows)
    decreases |rows|
  {
    hide Acceptable, RevocationOf, Serial;
    if rows != [] {
      var r := rows[0];
      var e := RevocationOf(r, clock);
      assert Acceptable(r, clock);
      if r.status == "R" { RevocationSerial(r, clock); }
      var next := if r.status != "R" || e.value.serial in Listed(revoked) then revoked else revoked + [e.value];
      MergeExact(next, rows[1..], clock);
      assert RevokedSerials(rows) == RevokedSerials(rows[1..]) + if r.status == "R" then {Serial(r)} else {} by {
        assert forall x :: x in rows <==> x == r || x in rows[1..];
      }
      assert next != revoked ==> Listed(next) == Listed(revoked) + {Serial(r)} by {
        if next != revoked { assert next[|revoked|] == e.value; }
      }
    }
  }

  lemma RevocationSerial(r: Row, clock: Clock)
    requires Acceptable(r, clock) && r.status == "R"
    ensures RevocationOf(r, clock).Some? && RevocationOf(r, clock).value.serial == Serial(r)
  {
  }

  /** The reason codes of section 5.3.1 of RFC 5280, as the index names them. */
  predicate Means(reason: string, code: nat) {
    match code
    case 0 => reason == "" || reason == "unspecified"
    case 1 => reason == "keyCompromise"
    case 2 => reason == "CACompromise"
    case 3 => reason == "affiliationChanged"
    case 4 => reason == "superseded"
    case 5 => reason == "cessationOfOperation"
    case 6 => reason == "certificateHold"
    case 9 => reason == "privilegeWithdrawn"
    case 10 => reason == "AACompromise"
    case _ => false
  }

  /** The revocation field is the date, alone or followed by a comma and a reason. */
  ghost predicate Tells(field: string, date: string, code: nat) {
    ',' !in date && ((field == date && code == 0) || exists reason :: Means(reason, code) && field == date + "," + reason)
  }

  /** The entry is that of a revoked row. */
  ghost predicate EntryOf(e: Revocation, r: Row) { r.status == "R" && e.serial == Serial(r) && Tells(r.revoked, e.date, e.reason) }

  lemma ReasonMeans(reason: string)
    ensures ReasonCode(reason).Some? ==> Means(reason, ReasonCode(reason).value)
  {
  }

  lemma RowTells(r: Row, clock: Clock)
    requires r.status == "R" && RevocationOf(r, clock).Some?
    ensures EntryOf(RevocationOf(r, clock).value, r)
  {
    hide ReasonCode, Means, Serial, HexNumber;
    var e := RevocationOf(r, clock).value;
    var (date, reason, ok) := Text.Cut(r.revoked, ',');
    ReasonMeans(reason);
    if ok {
      assert r.revoked == date + "," + reason && Means(reason, e.reason);
    } else {
      assert reason == "";
      NoReason();
    }
  }

  lemma NoReason()
    ensures ReasonCode("") == Some(0)
  {
  }

  ghost predicate FromRows(e: Revocation, rows: seq<Row>) { exists r :: r in rows && EntryOf(e, r) }

  /** Every entry that the merged list adds is that of a revoked row, with its date and reason. */
  lemma {:induction false} MergedEntries(revoked: seq<Revocation>, rows: seq<Row>, clock: Clock)
    requires MergeFrom(revoked, rows, clock).Some?
    ensures var out := MergeFrom(revoked, rows, clock).value;
      revoked <= out && forall i :: |revoked| <= i < |out| ==> FromRows(out[i], rows)
    decreases |rows|
  {
    hide RevocationOf, EntryOf, Listed;
    if rows != [] {
      var r, rest := rows[0], rows[1..];
      var next := if r.status != "R" || RevocationOf(r, clock).value.serial in Listed(revoked) then revoked
                  else revoked + [RevocationOf(r, clock).value];
      MergedEntries(next, rest, clock);
      if r.status == "R" { RowTells(r, clock); }
      var out := MergeFrom(revoked, rows, clock).value;
      forall i | |revoked| <= i < |out| ensures FromRows(out[i], rows) {
        if i < |next| {
          assert out[i] == next[i] && r in rows && EntryOf(out[i], r);
        } else {
          assert FromRows(out[i], rest);
          var x :| x in rest && EntryOf(out[i], x);
          assert x in rows;
        }
      }
    }
  }

  /** MAIN: every entry that a regeneration adds to the published CRL is that of a revoked row of the index: its
      serial, the date of its revocation field, and the code of the reason that follows the date. */
  lemma AddedEntriesAreRows(t: Tree, clock: Clock, fault: Fault)
    requires IndexRows(t, clock).Some?
    ensures var before, after := PublishedEntries(t.crl), PublishedEntries(GenerateCrl(t, clock, fault).0.crl);
      before <= after && forall i :: |before| <= i < |after| ==> FromRows(after[i], IndexRows(t, clock).value)
  {
    hide IndexRows, NextNumber, NumberFile, MergeFrom, FromRows;
    if NewCrl(t, clock).Some? { MergedEntries(PublishedEntries(t.crl), IndexRows(t, clock).value, clock); }
  }

  /** b is a, or a CRL published over it: more entries after the same ones, a greater number. */
  predicate Extends(a: CrlFile, b: CrlFile) {
    || a == b
    || (&& b.Published? && b.crl.number.Some? && a != BadCrl
        && (a.Published? ==> && a.crl.issuer == b.crl.issuer && a.crl.entries <= b.crl.entries
                             && (a.crl.number.Some? ==> a.crl.number.value < b.crl.number.value)))
  }

  lemma ExtendsTransitive(a: CrlFile, b: CrlFile, c: CrlFile)
    requires Extends(a, b) && Extends(b, c)
    ensures Extends(a, c)
    ensures a != b || b != c ==> a != c
  {
  }

  predicate Writes(fault: Fault) { fault != Signing && fault != NumberWrite && fault != CrlWrite }

  /** What a regeneration would publish, from an index that can be read. */
  lemma NewCrlExtends(t: Tree, clock: Clock)
    requires NewCrl(t, clock).Some?
    ensures var crl := NewCrl(t, clock).value;
      && crl.number.Some? && Extends(t.crl, Published(crl)) && t.crl != Published(crl)
      && IndexRows(t, clock).Some?
      && Listed(crl.entries) == Listed(PublishedEntries(t.crl)) + RevokedSerials(IndexRows(t, clock).value)
  {
    hide ReadNumber, ParseIndex, MergeFrom, Listed, RevokedSerials;
    var rows := IndexRows(t, clock).value;
    ParsedIsValid(t.index.text, clock);
    assert forall r :: r in rows ==> RowOk(r, clock);
    MergeExact(PublishedEntries(t.crl), rows, clock);
  }

  /** Only a committed write changes the published CRL, and every committed write does. */
  lemma GenerateExtends(t: Tree, clock: Clock, fault: Fault)
    ensures var (t', ok) := GenerateCrl(t, clock, fault);
      && Extends(t.crl, t'.crl) && t'.index == t.index && t'.ca == t.ca
      && (t'.crl != t.crl <==> NewCrl(t, clock).Some? && Writes(fault))
      && (t'.crl != t.crl ==> t'.crl == Published(NewCrl(t, clock).value))
      && (ok <==> NewCrl(t, clock).Some? && Writes(fault) && fault != DirSync)
  {
    hide NewCrl, NumberFile;
    if NewCrl(t, clock).Some? { NewCrlExtends(t, clock); }
  }

  datatype Step =
    | Generate(fault: Fault)
    | RevokeSerial(hex: string, now: string, fault: Fault)
    | RevokeName(cn: string, m: Material, now: string, fault: Fault)
    | IssueCert(q: Request)
    | Outside(tree: Tree)  // anything may happen to any file but crl.pem

  function Next(t: Tree, s: Step, clock: Clock): Tree {
    match s
    case Generate(fault) => GenerateCrl(t, clock, fault).0
    case RevokeSerial(hex, now, fault) => RevokeCert(t, hex, now, clock, fault).0
    case RevokeName(cn, m, now, fault) => RevokeByCN(t, m, cn, now, clock, fault).0
    case IssueCert(q) => Issue(t, q, clock).tree
    case Outside(tree) => tree.(crl := t.crl)
  }

  lemma NextExtends(t: Tree, s: Step, clock: Clock)
    ensures Extends(t.crl, Next(t, s, clock).crl)
  {
    hide GenerateCrl, RevokeCert, RevokeByCN, Issue, Extends;
    match s {
    case Generate(fault) => GenerateExtends(t, clock, fault);
    case RevokeSerial(hex, now, fault) => RevokeSerialExtends(t, hex, now, clock, fault);
    case RevokeName(cn, m, now, fault) => RevokeNameExtends(t, m, cn, now, clock, fault);
    case IssueCert(q) => IssueKeepsCrl(t, q, clock);
    case Outside(tree) => ExtendsSelf(t.crl);
    }
  }

  lemma RevokeSerialExtends(t: Tree, hex: string, now: string, clock: Clock, fault: Fault)
    ensures Extends(t.crl, RevokeCert(t, hex, now, clock, fault).0.crl)
  {
    hide GenerateCrl, Extends, HexNumber, IndexRows, Serials, Marked, Render;
    ExtendsSelf(t.crl);
    if HexNumber(hex).Some? && IndexRows(t, clock).Some? {
      var marked := Marked(IndexRows(t, clock).value, BySerial(HexNumber(hex).value), now);
      GenerateExtends(t.(index := Holds(Render(marked))), clock, fault);
    }
  }

  lemma RevokeNameExtends(t: Tree, m: Material, cn: string, now: string, clock: Clock, fault: Fault)
    ensures Extends(t.crl, RevokeByCN(t, m, cn, now, clock, fault).0.crl)
  {
    hide GenerateCrl, Extends, IndexRows, Changes, Marked, Render, HitSerials, Listed, AllVouched;
    ExtendsSelf(t.crl);
    if IndexRows(t, clock).Some? { GenerateExtends(MarkName(t, cn, now, clock), clock, fault); }
  }

  lemma IssueKeepsCrl(t: Tree, q: Request, clock: Clock)
    ensures Extends(t.crl, Issue(t, q, clock).tree.crl)
  {
    hide Extends, ReadNumber, Appended;
    ExtendsSelf(t.crl);
  }

  lemma ExtendsSelf(a: CrlFile)
    ensures Extends(a, a)
  {
  }

  /** The CRLs that a run publishes, oldest first. */
  function Publications(t: Tree, steps: seq<Step>, clock: Clock): seq<CrlFile>
    decreases |steps|
  {
    if steps == [] then []
    else
      var t' := Next(t, steps[0], clock);
      (if t'.crl == t.crl then [] else [t'.crl]) + Publications(t', steps[1..], clock)
  }

  predicate Newer(a: CrlFile, b: CrlFile) { a != b && Extends(a, b) }

  predicate AllNewer(a: CrlFile, p: seq<CrlFile>) { forall i :: 0 <= i < |p| ==> Newer(a, p[i]) }

  predicate Growing(p: seq<CrlFile>) { forall i, j :: 0 <= i < j < |p| ==> Newer(p[i], p[j]) }

  lemma NewerNext(t: Tree, s: Step, clock: Clock)
    requires Next(t, s, clock).crl != t.crl
    ensures Newer(t.crl, Next(t, s, clock).crl)
  {
    hide Next, Extends;
    NextExtends(t, s, clock);
  }

  lemma NewerAfterNext(t: Tree, s: Step, c: CrlFile, clock: Clock)
    requires Newer(Next(t, s, clock).crl, c)
    ensures Newer(t.crl, c)
  {
    hide Next, Extends;
    NextExtends(t, s, clock);
    ExtendsTransitive(t.crl, Next(t, s, clock).crl, c);
  }

  /** MAIN: over any run of issuances, revocations and regenerations, each stopped between any two
      writes, and whatever happens to the other files, every published CRL lists all that an earlier
      one lists, unchanged and first, under a strictly greater number. */
  lemma {:induction false} PublishedCrlsOnlyGrow(t: Tree, steps: seq<Step>, clock: Clock)
    ensures AllNewer(t.crl, Publications(t, steps, clock))
    ensures Growing(Publications(t, steps, clock))
    decreases |steps|
  {
    hide Next, Newer, Extends;
    if steps != [] {
      var t' := Next(t, steps[0], clock);
      PublishedCrlsOnlyGrow(t', steps[1..], clock);
      var rest := Publications(t', steps[1..], clock);
      forall i | 0 <= i < |rest| ensures Newer(t.crl, rest[i]) && (t'.crl == t.crl || Newer(t'.crl, rest[i])) {
        assert Newer(t'.crl, rest[i]);
        NewerAfterNext(t, steps[0], rest[i], clock);
      }
      if t'.crl != t.crl { NewerNext(t, steps[0], clock); }
    }
  }

  /** What publishing over a CRL means for its readers. */
  lemma NewerCoversMore(a: CrlFile, b: CrlFile)
    requires Newer(a, b) && a.Published?
    ensures b.Published? && Listed(a.crl.entries) <= Listed(b.crl.entries)
    ensures a.crl.number.Some? ==> b.crl.number.Some? && a.crl.number.value < b.crl.number.value
  {
  }
}
