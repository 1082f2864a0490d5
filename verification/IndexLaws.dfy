/** Which texts are a certificate index, and which rows they hold (internal/pki/ca.go:309-341), with the numbers that
    successive CRLs get (internal/pki/ca.go:245-257). */
module IndexLaws {
  import opened Wrappers
  import opened PkiIndex
  import opened Pki
  import opened PkiRuns
  import Text

  // ----- rows ------------------------------------------------------------------------------------------

  const NO_ROW := Row("", "", "", "", "", "")

  /** The six fields of a row as they stand in a line. */
  function RowAt(line: string): Row {
    var f := Text.Split(line, '\t');
    if |f| == 6 then Row(f[0], f[1], f[2], f[3], f[4], f[5]) else NO_ROW
  }

  /** The revocation field names a date, with or without a reason. */
  ghost predicate Dated(field: string, clock: Clock) { exists date, code :: Tells(field, date, code) && clock(date) }

  /** A line of six fields: valid, revoked or expired, a date of expiry, a hexadecimal serial and a subject; only a revoked
      row has a date of revocation. */
  ghost predicate GoodRow(line: string, clock: Clock) {
    && |Text.Split(line, '\t')| == 6
    && var r := RowAt(line);
    && (r.status == "V" || r.status == "R" || r.status == "E")
    && clock(r.expiry) && Text.AllHex(r.serial) && r.subject != ""
    && if r.status == "R" then Dated(r.revoked, clock) else r.revoked == ""
  }

  lemma CodeMeans(reason: string, code: nat)
    ensures Means(reason, code) <==> ReasonCode(reason) == Some(code)
  {
  }

  lemma DatedExactly(r: Row, clock: Clock)
    requires Text.AllHex(r.serial)
    ensures RevocationOf(r, clock).Some? <==> Dated(r.revoked, clock)
  {
    hide ReasonCode, Means, Text.AllHex, Text.Value;
    var (date, reason, ok) := Text.Cut(r.revoked, ',');
    NoReason();
    if RevocationOf(r, clock).Some? {
      CodeMeans(reason, ReasonCode(reason).value);
      assert Tells(r.revoked, date, ReasonCode(reason).value);
    }
    if Dated(r.revoked, clock) {
      var d, code :| Tells(r.revoked, d, code) && clock(d);
      TellsIsCut(r.revoked, d, code);
    }
  }

  lemma TellsIsCut(field: string, date: string, code: nat)
    requires Tells(field, date, code)
    ensures Text.Cut(field, ',').0 == date && ReasonCode(Text.Cut(field, ',').1) == Some(code)
  {
    hide ReasonCode, Means;
    NoReason();
    if field == date && code == 0 {
      assert !Text.Cut(field, ',').2;
    } else {
      var reason :| Means(reason, code) && field == date + "," + reason;
      assert field == date + [','] + reason;
      Text.CutConcat(date, ',', reason);
      CodeMeans(reason, code);
    }
  }

  lemma RowReadsExactly(line: string, clock: Clock)
    ensures ParseRow(line, clock).Some? <==> GoodRow(line, clock)
    ensures ParseRow(line, clock).Some? ==> ParseRow(line, clock).value == RowAt(line)
  {
    hide Dated, RevocationOf, Text.Split, Text.AllHex;
    if |Text.Split(line, '\t')| == 6 && Text.AllHex(RowAt(line).serial) { DatedExactly(RowAt(line), clock); }
  }

  // ----- the whole index ---------------------------------------------------------------------------------

  /** The rows of the lines that are not blank. */
  function RowsIn(lines: seq<string>): seq<Row>
    decreases |lines|
  {
    if lines == [] then [] else (if lines[0] == "" then [] else [RowAt(lines[0])]) + RowsIn(lines[1..])
  }

  ghost predicate GoodRows(lines: seq<string>, clock: Clock) { forall l :: l in lines && l != "" ==> GoodRow(l, clock) }

  predicate DistinctSerials(rows: seq<Row>) { forall i, j :: 0 <= i < j < |rows| ==> Serial(rows[i]) != Serial(rows[j]) }

  lemma DistinctMore(rows: seq<Row>, r: Row)
    ensures DistinctSerials(rows + [r]) <==> DistinctSerials(rows) && Serial(r) !in Serials(rows)
  {
    hide Serial;
    var all := rows + [r];
    assert all[|rows|] == r && forall i :: 0 <= i < |rows| ==> all[i] == rows[i];
    if Serial(r) in Serials(rows) {
      var i :| 0 <= i < |rows| && Serial(rows[i]) == Serial(r);
      assert Serial(all[i]) == Serial(all[|rows|]);
    } else {
      assert forall i :: 0 <= i < |rows| ==> rows[i] in rows;
    }
    if DistinctSerials(all) {
      forall i, j | 0 <= i < j < |rows| ensures Serial(rows[i]) != Serial(rows[j]) { assert Serial(all[i]) != Serial(all[j]); }
    }
  }

  lemma DistinctPrefix(a: seq<Row>, b: seq<Row>)
    requires DistinctSerials(a + b)
    ensures DistinctSerials(a)
  {
    hide Serial;
    forall i, j | 0 <= i < j < |a| ensures Serial(a[i]) != Serial(a[j]) { assert (a + b)[i] == a[i] && (a + b)[j] == a[j]; }
  }

  lemma GoodHead(lines: seq<string>, clock: Clock)
    requires lines != []
    ensures GoodRows(lines, clock) <==> (lines[0] == "" || GoodRow(lines[0], clock)) && GoodRows(lines[1..], clock)
  {
    hide GoodRow;
    assert forall l :: l in lines <==> l == lines[0] || l in lines[1..];
  }

  /** The lines after the given rows hold good rows with serials of their own. */
  ghost predicate Continues(rows: seq<Row>, lines: seq<string>, clock: Clock) {
    GoodRows(lines, clock) && DistinctSerials(rows + RowsIn(lines))
  }

  lemma {:induction false} LinesReadExactly(rows: seq<Row>, lines: seq<string>, clock: Clock)
    requires DistinctSerials(rows)
    ensures ParseFrom(rows, lines, clock).Some? <==> Continues(rows, lines, clock)
    ensures Continues(rows, lines, clock) ==> ParseFrom(rows, lines, clock) == Some(rows + RowsIn(lines))
    decreases |lines|
  {
    hide GoodRow, GoodRows, ParseRow, RowAt, DistinctSerials, Serial, Serials, Text.Split;
    if lines == [] {
      assert rows + [] == rows;
      NoRows(clock);
    } else {
      var l, rest := lines[0], lines[1..];
      GoodHead(lines, clock);
      RowReadsExactly(l, clock);
      if l == "" {
        LinesReadExactly(rows, rest, clock);
        assert RowsIn(lines) == [] + RowsIn(rest) == RowsIn(rest);
      } else if GoodRow(l, clock) {
        var r := RowAt(l);
        DistinctMore(rows, r);
        assert RowsIn(lines) == [r] + RowsIn(rest);
        assert rows + RowsIn(lines) == (rows + [r]) + RowsIn(rest);
        if DistinctSerials(rows + RowsIn(lines)) { DistinctPrefix(rows + [r], RowsIn(rest)); }
        if Serial(r) !in Serials(rows) { LinesReadExactly(rows + [r], rest, clock); }
      }
    }
  }

  lemma NoRows(clock: Clock)
    ensures GoodRows([], clock)
  {
  }

  /** MAIN: a text is an index exactly when every line that is not blank is a well-formed row and no two have the same
      serial, and its rows are these lines in order. */
  lemma IndexReadsExactly(text: string, clock: Clock)
    ensures var lines := Text.Split(text, '\n');
      && (ParseIndex(text, clock).Some? <==> GoodRows(lines, clock) && DistinctSerials(RowsIn(lines)))
      && (ParseIndex(text, clock).Some? ==> ParseIndex(text, clock) == Some(RowsIn(lines)))
  {
    hide ParseFrom, GoodRows, DistinctSerials, Text.Split;
    var lines := Text.Split(text, '\n');
    NoSerials();
    LinesReadExactly([], lines, clock);
    assert [] + RowsIn(lines) == RowsIn(lines);
  }

  lemma NoSerials()
    ensures DistinctSerials([])
  {
  }

  // ----- serials -----------------------------------------------------------------------------------------

  /** MAIN: the certificate after one whose serial was taken, whether or not its issuance went through, is the next. */
  lemma SerialsAreSuccessive(t: Tree, q: Request, q2: Request, clock: Clock)
    requires Issue(t, q, clock).serial.Some? && Issue(Issue(t, q, clock).tree, q2, clock).serial.Some?
    ensures Issue(Issue(t, q, clock).tree, q2, clock).serial == Some(Issue(t, q, clock).serial.value + 1)
    ensures ReadNumber(t.serial) == Issue(t, q, clock).serial
  {
    hide Appended, ReadNumber, NumberFile;
    NumberReadsBack(Issue(t, q, clock).serial.value + 1);
  }

  // ----- CRL numbers ----------------------------------------------------------------------------------------

  lemma WrittenNumber(t: Tree, clock: Clock, fault: Fault)
    requires GenerateCrl(t, clock, fault).1
    ensures var t' := GenerateCrl(t, clock, fault).0;
      && t'.crl.Published? && t'.crl.crl.number.Some? && ReadNumber(t'.crlNumber) == Some(t'.crl.crl.number.value + 1)
  {
    hide MergeFrom, IndexRows, ReadNumber, NumberFile;
    NumberReadsBack(NewCrl(t, clock).value.number.value + 1);
  }

  /** MAIN: two regenerations in a row publish successive numbers, and the first CRL of an authority without a number file
      is number 1000 in hexadecimal. */
  lemma NumbersAreSuccessive(t: Tree, clock: Clock, fault: Fault, fault2: Fault)
    requires GenerateCrl(t, clock, fault).1 && GenerateCrl(GenerateCrl(t, clock, fault).0, clock, fault2).1
    ensures var t1 := GenerateCrl(t, clock, fault).0;
      var t2 := GenerateCrl(t1, clock, fault2).0;
      && t1.crl.Published? && t2.crl.Published? && t1.crl.crl.number.Some?
      && t2.crl.crl.number == Some(t1.crl.crl.number.value + 1)
      && (t.crlNumber == Absent && t.crl == NoCrl ==> t1.crl.crl.number == Some(0x1000))
  {
    hide MergeFrom, IndexRows, HexNumber, NumberFile, Text.TrimSpace;
    WrittenNumber(t, clock, fault);
  }

  /** MAIN: a new CRL gets the least number that is not below the number file and above the number of the published CRL;
      the number file starts at 1000 in hexadecimal. */
  lemma NumberIsLeast(t: Tree, clock: Clock, fault: Fault)
    requires GenerateCrl(t, clock, fault).1
    ensures var t' := GenerateCrl(t, clock, fault).0;
      && t'.crl.Published? && t'.crl.crl.number.Some? && (t.crlNumber == Absent || ReadNumber(t.crlNumber).Some?)
      && var n, next := if t.crlNumber == Absent then 0x1000 else ReadNumber(t.crlNumber).value, t'.crl.crl.number.value;
      && n <= next
      && (if t.crl.Published? && t.crl.crl.number.Some?
          then t.crl.crl.number.value < next && (next == n || next == t.crl.crl.number.value + 1)
          else next == n)
  {
    hide MergeFrom, IndexRows, HexNumber, NumberFile, Text.TrimSpace;
  }
}
