/** What a successful revocation leaves behind (internal/pki/client.go:149-235). */
module NameRevocation {
  import opened Wrappers
  import opened PkiIndex
  import opened Pki
  import opened PkiRuns
  import Text

  /** A date as the agent formats it. */
  predicate Stamp(now: string, clock: Clock) { clock(now) && IsField(now) && ',' !in now }

  lemma MarkRowOk(r: Row, target: Target, now: string, clock: Clock)
    requires RowOk(r, clock) && Stamp(now, clock)
    ensures RowOk(MarkRow(target, r, now), clock) && Serial(MarkRow(target, r, now)) == Serial(r)
  {
    assert Text.Cut(now, ',') == (now, "", false);
  }

  lemma MarkedValid(rows: seq<Row>, target: Target, now: string, clock: Clock)
    requires ValidRows(rows, clock) && Stamp(now, clock)
    ensures ValidRows(Marked(rows, target, now), clock)
  {
    hide RowOk, Stamp, MarkRow, Serial;
    forall i | 0 <= i < |rows|
      ensures RowOk(MarkRow(target, rows[i], now), clock) && Serial(MarkRow(target, rows[i], now)) == Serial(rows[i])
    {
      MarkRowOk(rows[i], target, now, clock);
    }
  }

  lemma UnchangedWhenMarked(rows: seq<Row>, target: Target, now: string)
    ensures !Changes(rows, target) ==> Marked(rows, target, now) == rows
  {
    hide HasCN, Serial;
    var marked := Marked(rows, target, now);
    if !Changes(rows, target) {
      assert forall i :: 0 <= i < |rows| ==> rows[i] in rows && marked[i] == rows[i];
    }
  }

  /** The index that a revocation by name leaves for the CRL to be made from. */
  lemma MarkNameRows(t: Tree, cn: string, now: string, clock: Clock)
    requires IndexRows(t, clock).Some? && Stamp(now, clock)
    ensures IndexRows(MarkName(t, cn, now, clock), clock) ==
            Some(Marked(IndexRows(t, clock).value, ByCN(cn), now))
    ensures ValidRows(Marked(IndexRows(t, clock).value, ByCN(cn), now), clock)
    ensures MarkName(t, cn, now, clock).crl == t.crl
  {
    hide Stamp, ParseIndex, Render, Marked, Changes, ValidRows;
    var rows := IndexRows(t, clock).value;
    ParsedIsValid(t.index.text, clock);
    MarkedValid(rows, ByCN(cn), now, clock);
    RenderThenParse(Marked(rows, ByCN(cn), now), clock);
    UnchangedWhenMarked(rows, ByCN(cn), now);
  }

  /** Which rows a revocation of a name changes, and how. */
  predicate RevokedRow(before: Row, after: Row, cn: string, now: string) {
    if HasCN(before, cn) && before.status != "R" then after == before.(status := "R", revoked := now)
    else after == before
  }

  predicate RevokedRows(before: seq<Row>, after: seq<Row>, cn: string, now: string) {
    |after| == |before| && forall i :: 0 <= i < |before| ==> RevokedRow(before[i], after[i], cn, now)
  }

  lemma MarkedRows(rows: seq<Row>, cn: string, now: string)
    ensures RevokedRows(rows, Marked(rows, ByCN(cn), now), cn, now)
    ensures HitSerials(rows, ByCN(cn)) <= RevokedSerials(Marked(rows, ByCN(cn), now))
  {
    hide HasCN, Serial;
    var marked := Marked(rows, ByCN(cn), now);
    forall i | 0 <= i < |rows| && HasCN(rows[i], cn) ensures Serial(rows[i]) in RevokedSerials(marked) {
      assert marked[i] in marked && marked[i].status == "R";
      SameSerial(rows[i], ByCN(cn), now);
    }
  }

  lemma SameSerial(r: Row, target: Target, now: string)
    ensures Serial(MarkRow(target, r, now)) == Serial(r)
    ensures forall cn :: HasCN(MarkRow(target, r, now), cn) <==> HasCN(r, cn)
  {
  }

  /** MAIN: when the revocation of a name succeeds, all its rows are revoked and in the published CRL, other
      rows and earlier dates are as before, and the CRL lists what the last one did and the revoked rows. */
  lemma RevocationIsComplete(t: Tree, m: Material, cn: string, now: string, clock: Clock, fault: Fault)
    requires Stamp(now, clock) && RevokeByCN(t, m, cn, now, clock, fault).1
    ensures var t' := RevokeByCN(t, m, cn, now, clock, fault).0;
      && IndexRows(t, clock).Some? && IndexRows(t', clock).Some?
      && var before, after := IndexRows(t, clock).value, IndexRows(t', clock).value;
      && RevokedRows(before, after, cn, now)
      && t'.crl.Published?
      && HitSerials(after, ByCN(cn)) <= Listed(t'.crl.crl.entries)
      && Listed(t'.crl.crl.entries) == Listed(PublishedEntries(t.crl)) + RevokedSerials(after)
  {
    hide IndexRows, GenerateCrl, NewCrl, Stamp, HitSerials, Listed, RevokedSerials, RevokedRows, AllVouched, Changes,
      ValidRows, Extends, Marked;
    var before := IndexRows(t, clock).value;
    var t1 := MarkName(t, cn, now, clock);
    MarkNameRows(t, cn, now, clock);
    GenerateExtends(t1, clock, fault);
    NewCrlExtends(t1, clock);
    MarkedRows(before, cn, now);
    SameIndex(t1, RevokeByCN(t, m, cn, now, clock, fault).0, clock);
    HitsKept(before, cn, now);
  }

  lemma SameIndex(a: Tree, b: Tree, clock: Clock)
    requires a.index == b.index
    ensures IndexRows(a, clock) == IndexRows(b, clock)
  {
  }

  lemma HitsKept(rows: seq<Row>, cn: string, now: string)
    ensures HitSerials(Marked(rows, ByCN(cn), now), ByCN(cn)) == HitSerials(rows, ByCN(cn))
  {
    hide HasCN, Serial;
    var marked := Marked(rows, ByCN(cn), now);
    forall i | 0 <= i < |rows|
      ensures Serial(marked[i]) == Serial(rows[i]) && (HasCN(marked[i], cn) <==> HasCN(rows[i], cn))
    {
      SameSerial(rows[i], ByCN(cn), now);
    }
    forall n | n in HitSerials(rows, ByCN(cn)) ensures n in HitSerials(marked, ByCN(cn)) {
      var i :| 0 <= i < |rows| && HasCN(rows[i], cn) && Serial(rows[i]) == n;
      SameSerial(rows[i], ByCN(cn), now);
      assert marked[i] in marked && HasCN(marked[i], cn);
    }
  }

  /** MAIN: once a revocation of a name has succeeded, another one leaves the index as it is. */
  lemma SecondRevocationKeepsIndex(t: Tree, m: Material, m2: Material, cn: string, now: string, now2: string, clock: Clock,
                                   fault: Fault, fault2: Fault)
    requires Stamp(now, clock) && RevokeByCN(t, m, cn, now, clock, fault).1
    ensures var t' := RevokeByCN(t, m, cn, now, clock, fault).0;
      RevokeByCN(t', m2, cn, now2, clock, fault2).0.index == t'.index
  {
    hide IndexRows, GenerateCrl, HitSerials, Listed, RevokedSerials, RevokedRow, AllVouched, Changes, Stamp;
    var t' := RevokeByCN(t, m, cn, now, clock, fault).0;
    RevocationIsComplete(t, m, cn, now, clock, fault);
    NothingLeftToMark(IndexRows(t, clock).value, IndexRows(t', clock).value, cn, now);
    GenerateExtends(t', clock, fault2);
  }

  lemma NothingLeftToMark(before: seq<Row>, after: seq<Row>, cn: string, now: string)
    requires RevokedRows(before, after, cn, now)
    ensures !Changes(after, ByCN(cn))
  {
    hide HasCN;
    forall i | 0 <= i < |after| && HasCN(after[i], cn) ensures after[i].status == "R" {
      assert RevokedRow(before[i], after[i], cn, now);
    }
  }

  /** The CRL has an entry for the serial. */
  predicate HasEntry(entries: seq<Revocation>, serial: nat) { exists e :: e in entries && e.serial == serial }

  /** The index has a row of the name with the serial. */
  predicate HasRow(rows: seq<Row>, cn: string, serial: nat) { exists r :: r in rows && HasCN(r, cn) && Serial(r) == serial }

  lemma EntryIsListed(entries: seq<Revocation>, serial: nat)
    ensures HasEntry(entries, serial) <==> serial in Listed(entries)
  {
  }

  lemma RowIsHit(rows: seq<Row>, cn: string, serial: nat)
    ensures HasRow(rows, cn, serial) <==> serial in HitSerials(rows, ByCN(cn))
  {
    hide HasCN, Serial;
  }

  /** The file is absent, or a certificate that this authority issued to the name and has in its index. */
  predicate OwnCertificate(f: CertFile, rows: seq<Row>, cn: string, ca: nat) {
    f == Missing || (f.Cert? && f.cn == cn && f.issuer == ca && HasRow(rows, cn, f.serial))
  }

  lemma VouchedExactly(f: CertFile, rows: seq<Row>, cn: string, ca: nat)
    ensures Vouched(f, cn, ca, HitSerials(rows, ByCN(cn))) <==> OwnCertificate(f, rows, cn, ca)
  {
    hide HitSerials, HasRow;
    if f.Cert? { RowIsHit(rows, cn, f.serial); }
  }

  lemma RevocableExactly(t: Tree, m: Material, cn: string, clock: Clock)
    requires t.ca.Some? && IndexRows(t, clock).Some?
    ensures var rows := IndexRows(t, clock).value;
      Revocable(t, m, cn, clock) <==>
      (exists serial :: HasRow(rows, cn, serial)) && forall i :: 0 <= i < |m| ==> OwnCertificate(m[i], rows, cn, t.ca.value.id)
  {
    hide IndexRows, HitSerials, Vouched, HasRow, OwnCertificate;
    var rows := IndexRows(t, clock).value;
    var serials := HitSerials(rows, ByCN(cn));
    forall serial ensures HasRow(rows, cn, serial) <==> serial in serials { RowIsHit(rows, cn, serial); }
    if serials != {} { var n :| n in serials; assert HasRow(rows, cn, n); }
    forall i | 0 <= i < |m| ensures Vouched(m[i], cn, t.ca.value.id, serials) <==> OwnCertificate(m[i], rows, cn, t.ca.value.id) {
      VouchedExactly(m[i], rows, cn, t.ca.value.id);
    }
  }

  /** MAIN: when the revocation of a name succeeds, every certificate file that is there was issued by this authority
      to that name, and the CRL then published has an entry for its serial. */
  lemma RevokedFilesAreListed(t: Tree, m: Material, cn: string, now: string, clock: Clock, fault: Fault)
    requires Stamp(now, clock) && RevokeByCN(t, m, cn, now, clock, fault).1
    ensures var t' := RevokeByCN(t, m, cn, now, clock, fault).0;
      && t.ca.Some? && t'.crl.Published?
      && forall i :: 0 <= i < |m| && m[i] != Missing ==>
           && m[i].Cert? && m[i].cn == cn && m[i].issuer == t.ca.value.id
           && HasEntry(t'.crl.crl.entries, m[i].serial)
  {
    hide IndexRows, GenerateCrl, HitSerials, Listed, HasRow, RevokedSerials, RevokedRows, Stamp, Changes, MarkName, HasEntry;
    var t' := RevokeByCN(t, m, cn, now, clock, fault).0;
    RevocationIsComplete(t, m, cn, now, clock, fault);
    HitsKeptThrough(t, m, cn, now, clock, fault);
    var rows := IndexRows(t, clock).value;
    forall i | 0 <= i < |m| && m[i] != Missing
      ensures m[i].Cert? && m[i].cn == cn && m[i].issuer == t.ca.value.id && HasEntry(t'.crl.crl.entries, m[i].serial)
    {
      assert Vouched(m[i], cn, t.ca.value.id, HitSerials(rows, ByCN(cn)));
      EntryIsListed(t'.crl.crl.entries, m[i].serial);
    }
  }

  lemma HitsKeptThrough(t: Tree, m: Material, cn: string, now: string, clock: Clock, fault: Fault)
    requires Stamp(now, clock) && RevokeByCN(t, m, cn, now, clock, fault).1
    ensures var t' := RevokeByCN(t, m, cn, now, clock, fault).0;
      && IndexRows(t, clock).Some?
      && HitSerials(IndexRows(t, clock).value, ByCN(cn)) <= Listed(PublishedEntries(t'.crl))
  {
    hide IndexRows, GenerateCrl, HitSerials, Listed, Stamp, Changes, MarkName, AllVouched;
  }

  /** MAIN: a revocation that nothing stops succeeds exactly when there is an authority, the index has a row of the
      name, every certificate file is absent or an indexed certificate of the name and this authority, the published
      CRL is its own, and the CRL number can be read; the coverage check never refuses it. */
  lemma RevocationSucceedsExactly(t: Tree, m: Material, cn: string, now: string, clock: Clock)
    requires Stamp(now, clock)
    ensures RevokeByCN(t, m, cn, now, clock, NoFault).1 <==>
      && t.ca.Some? && IndexRows(t, clock).Some?
      && (exists serial :: HasRow(IndexRows(t, clock).value, cn, serial))
      && (forall i :: 0 <= i < |m| ==> OwnCertificate(m[i], IndexRows(t, clock).value, cn, t.ca.value.id))
      && (t.crl.Published? ==> t.crl.crl.issuer == t.ca.value.id) && t.crl != BadCrl
      && (t.crlNumber == Absent || ReadNumber(t.crlNumber).Some?)
  {
    hide IndexRows, GenerateCrl, HitSerials, HasRow, OwnCertificate, Revocable, RevokeByCN, ReadNumber, Stamp;
    RevocationNeeds(t, m, cn, now, clock);
    if t.ca.Some? && IndexRows(t, clock).Some? { RevocableExactly(t, m, cn, clock); }
  }

  lemma RevocationNeeds(t: Tree, m: Material, cn: string, now: string, clock: Clock)
    requires Stamp(now, clock)
    ensures RevokeByCN(t, m, cn, now, clock, NoFault).1 <==>
      && t.ca.Some? && IndexRows(t, clock).Some? && Revocable(t, m, cn, clock)
      && (t.crl.Published? ==> t.crl.crl.issuer == t.ca.value.id) && t.crl != BadCrl
      && (t.crlNumber == Absent || ReadNumber(t.crlNumber).Some?)
  {
    hide IndexRows, HitSerials, Listed, RevokedSerials, AllVouched, Changes, MergeFrom, Stamp, Extends, Marked, ReadNumber,
      ValidRows, RevokedRows, HasCN, Render;
    if Revocable(t, m, cn, clock) {
      var before := IndexRows(t, clock).value;
      var t1 := MarkName(t, cn, now, clock);
      MarkNameRows(t, cn, now, clock);
      GenerateExtends(t1, clock, NoFault);
      MarkedRows(before, cn, now);
      MergesWhenValid(PublishedEntries(t.crl), Marked(before, ByCN(cn), now), clock);
      if NewCrl(t1, clock).Some? { NewCrlExtends(t1, clock); }
    }
  }

  // ----- dates in the CRL ---------------------------------------------------------------------------------

  lemma StampTells(now: string, clock: Clock, date: string, code: nat)
    requires Stamp(now, clock) && Tells(now, date, code)
    ensures date == now && code == 0
  {
    hide Means;
    forall reason: string ensures ',' in date + "," + reason { HasComma(date, reason); }
  }

  lemma HasComma(date: string, reason: string)
    ensures ',' in date + "," + reason
  {
    assert (date + "," + reason)[|date|] == ',';
  }

  lemma SameRow(rows: seq<Row>, clock: Clock, a: Row, b: Row)
    requires ValidRows(rows, clock) && a in rows && b in rows && Serial(a) == Serial(b)
    ensures a == b
  {
    hide RowOk, Serial;
  }

  /** An entry made from the index after the rows of a name are marked has the date of the revocation. */
  lemma MarkedEntry(rows: seq<Row>, cn: string, now: string, clock: Clock, r: Row, e: Revocation)
    requires Stamp(now, clock) && ValidRows(Marked(rows, ByCN(cn), now), clock)
    requires r in rows && HasCN(r, cn) && r.status != "R"
    requires FromRows(e, Marked(rows, ByCN(cn), now)) && e.serial == Serial(r)
    ensures e == Revocation(Serial(r), now, 0)
  {
    hide Stamp, ValidRows, HasCN, Serial, Tells;
    var marked := Marked(rows, ByCN(cn), now);
    var i :| 0 <= i < |rows| && rows[i] == r;
    assert marked[i] in marked && marked[i] == MarkRow(ByCN(cn), r, now) == r.(status := "R", revoked := now);
    SameSerial(r, ByCN(cn), now);
    var x :| x in marked && PkiRuns.EntryOf(e, x);
    SameRow(marked, clock, marked[i], x);
    StampTells(now, clock, e.date, e.reason);
  }

  /** MAIN: a successful revocation of a name puts its newly revoked certificates into the CRL under the date of the
      revocation and without a reason, unless an earlier CRL has an entry for them. */
  lemma RevocationDates(t: Tree, m: Material, cn: string, now: string, clock: Clock, fault: Fault, r: Row)
    requires Stamp(now, clock) && RevokeByCN(t, m, cn, now, clock, fault).1
    requires IndexRows(t, clock).Some? && r in IndexRows(t, clock).value && HasCN(r, cn) && r.status != "R"
    requires !HasEntry(PublishedEntries(t.crl), Serial(r))
    ensures Revocation(Serial(r), now, 0) in PublishedEntries(RevokeByCN(t, m, cn, now, clock, fault).0.crl)
  {
    var rows := IndexRows(t, clock).value;
    assert Serial(r) in HitSerials(rows, ByCN(cn));
    hide IndexRows, GenerateCrl, HitSerials, Stamp, Changes, MarkName, AllVouched, Marked, ValidRows, FromRows, HasCN, Serial,
      PublishedEntries, HasEntry;
    var t1, t' := MarkName(t, cn, now, clock), RevokeByCN(t, m, cn, now, clock, fault).0;
    MarkNameRows(t, cn, now, clock);
    AddedEntriesAreRows(t1, clock, fault);
    HitsKeptThrough(t, m, cn, now, clock, fault);
    EntryIsListed(PublishedEntries(t'.crl), Serial(r));
    var before, after := PublishedEntries(t.crl), PublishedEntries(t'.crl);
    var i := EntryAt(before, after, Serial(r));
    MarkedEntry(rows, cn, now, clock, r, after[i]);
  }

  /** An entry that an earlier list has not is among the later ones. */
  lemma EntryAt(before: seq<Revocation>, after: seq<Revocation>, serial: nat) returns (i: nat)
    requires before <= after && HasEntry(after, serial) && !HasEntry(before, serial)
    ensures |before| <= i < |after| && after[i].serial == serial
  {
    assert forall k :: 0 <= k < |before| ==> before[k] in before && after[k] == before[k];
    i :| 0 <= i < |after| && after[i].serial == serial;
  }

  // ----- revoking by serial ---------------------------------------------------------------------------

  /** Which rows a revocation of a serial changes, and how. */
  predicate SerialRows(before: seq<Row>, after: seq<Row>, serial: nat, now: string) {
    |after| == |before| && forall i :: 0 <= i < |before| ==>
      after[i] == if Serial(before[i]) == serial && before[i].status != "R" then before[i].(status := "R", revoked := now)
                  else before[i]
  }

  lemma MarkedSerial(rows: seq<Row>, serial: nat, now: string)
    requires serial in Serials(rows)
    ensures SerialRows(rows, Marked(rows, BySerial(serial), now), serial, now)
    ensures serial in RevokedSerials(Marked(rows, BySerial(serial), now))
  {
    var marked := Marked(rows, BySerial(serial), now);
    var i :| 0 <= i < |rows| && Serial(rows[i]) == serial;
    SameSerial(rows[i], BySerial(serial), now);
    assert marked[i] in marked && marked[i].status == "R";
  }

  /** MAIN: when the revocation of a serial succeeds, the row with that serial is revoked and in the published CRL, all
      other rows and an earlier date are as before, and the CRL lists what the last one did and the revoked rows. */
  lemma SerialRevocationIsComplete(t: Tree, hex: string, now: string, clock: Clock, fault: Fault)
    requires Stamp(now, clock) && RevokeCert(t, hex, now, clock, fault).1
    ensures var t', n := RevokeCert(t, hex, now, clock, fault).0, Text.Value(hex, 16);
      && Text.AllHex(hex) && IndexRows(t, clock).Some? && IndexRows(t', clock).Some? && t'.crl.Published?
      && var before, after := IndexRows(t, clock).value, IndexRows(t', clock).value;
      && (exists r :: r in before && Serial(r) == n) && SerialRows(before, after, n, now)
      && HasEntry(t'.crl.crl.entries, n)
      && Listed(t'.crl.crl.entries) == Listed(PublishedEntries(t.crl)) + RevokedSerials(after)
  {
    var n, rows := HexNumber(hex).value, IndexRows(t, clock).value;
    var marked := Marked(rows, BySerial(n), now);
    var t1, t' := t.(index := Holds(Render(marked))), RevokeCert(t, hex, now, clock, fault).0;
    assert n in Serials(rows) && (t', true) == GenerateCrl(t1, clock, fault) && ParseIndex(t.index.text, clock) == Some(rows);
    assert Text.AllHex(hex) && n == Text.Value(hex, 16) && IndexRows(t1, clock) == ParseIndex(Render(marked), clock);
    hide RevokeCert, IndexRows, GenerateCrl, NewCrl, Stamp, Listed, RevokedSerials, SerialRows, ValidRows, Extends, Marked,
      ParseIndex, Render, HasEntry, Serial, Text.Value, Text.AllHex;
    ParsedIsValid(t.index.text, clock);
    MarkedValid(rows, BySerial(n), now, clock);
    RenderThenParse(marked, clock);
    MarkedSerial(rows, n, now);
    GenerateExtends(t1, clock, fault);
    NewCrlExtends(t1, clock);
    SameIndex(t1, t', clock);
    EntryIsListed(t'.crl.crl.entries, n);
  }

  lemma MergesWhenValid(revoked: seq<Revocation>, rows: seq<Row>, clock: Clock)
    requires ValidRows(rows, clock)
    ensures MergeFrom(revoked, rows, clock).Some?
  {
    assert forall r :: r in rows ==> RowOk(r, clock);
    MergeExact(revoked, rows, clock);
  }
}
