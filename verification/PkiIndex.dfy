/** The certificate index that openssl and the agent share (internal/pki/ca.go). */
module PkiIndex {
  import opened Wrappers
  import Text

  /** One index row. */
  datatype Row = Row(status: string, expiry: string, revoked: string, serial: string, file: string, subject: string)

  /** One revoked certificate, as a CRL lists it. */
  datatype Revocation = Revocation(serial: nat, date: string, reason: nat)

  /** Which texts time.Parse accepts as a certificate time. */
  type Clock = string -> bool

  function HexNumber(s: string): Option<nat> {
    if Text.AllHex(s) then Some(Text.Value(s, 16)) else None
  }

  function Serial(r: Row): nat { Text.Value(r.serial, 16) }

  function Serials(rows: seq<Row>): set<nat> { set r | r in rows :: Serial(r) }

  function ReasonCode(reason: string): Option<nat> {
    if reason == "" || reason == "unspecified" then Some(0)
    else if reason == "keyCompromise" then Some(1)
    else if reason == "CACompromise" then Some(2)
    else if reason == "affiliationChanged" then Some(3)
    else if reason == "superseded" then Some(4)
    else if reason == "cessationOfOperation" then Some(5)
    else if reason == "certificateHold" then Some(6)
    else if reason == "privilegeWithdrawn" then Some(9)
    else if reason == "AACompromise" then Some(10)
    else None
  }

  function RevocationOf(r: Row, clock: Clock): Option<Revocation> {
    var (date, reason, _) := Text.Cut(r.revoked, ',');
    if HexNumber(r.serial).None? || !clock(date) || ReasonCode(reason).None? then None
    else Some(Revocation(Serial(r), date, ReasonCode(reason).value))
  }

  // ----- parsing -------------------------------------------------------------------------------

  predicate Acceptable(r: Row, clock: Clock) {
    && r.subject != "" && (r.status == "V" || r.status == "R" || r.status == "E")
    && HexNumber(r.serial).Some? && clock(r.expiry)
    && (if r.status == "R" then RevocationOf(r, clock).Some? else r.revoked == "")
  }

  function ParseRow(line: string, clock: Clock): Option<Row> {
    var f := Text.Split(line, '\t');
    if |f| != 6 then None
    else
      var r := Row(f[0], f[1], f[2], f[3], f[4], f[5]);
      if Acceptable(r, clock) then Some(r) else None
  }

  /** Blank lines are skipped; a malformed row or a serial seen before refuses the whole index. */
  function AddLine(rows: seq<Row>, line: string, clock: Clock): Option<seq<Row>> {
    if line == "" then Some(rows)
    else match ParseRow(line, clock)
      case None => None
      case Some(r) => if Serial(r) in Serials(rows) then None else Some(rows + [r])
  }

  function ParseFrom(rows: seq<Row>, lines: seq<string>, clock: Clock): Option<seq<Row>>
    decreases |lines|
  {
    if lines == [] then Some(rows)
    else match AddLine(rows, lines[0], clock)
      case None => None
      case Some(more) => ParseFrom(more, lines[1..], clock)
  }

  function ParseIndex(text: string, clock: Clock): Option<seq<Row>> {
    ParseFrom([], Text.Split(text, '\n'), clock)
  }

  method Parse(text: string, clock: Clock) returns (parsed: Option<seq<Row>>)
    ensures parsed == ParseIndex(text, clock)
  {
    var rows: seq<Row> := [];
    var seen: set<nat> := {};
    var lines := Text.Split(text, '\n');
    for i := 0 to |lines|
      invariant seen == Serials(rows)
      invariant ParseFrom(rows, lines[i..], clock) == ParseFrom([], lines, clock)
    {
      assert lines[i..][0] == lines[i] && lines[i..][1..] == lines[i + 1..];
      if lines[i] == "" { continue; }
      var r := ParseRow(lines[i], clock);
      if r.None? || Serial(r.value) in seen { return None; }
      seen := seen + {Serial(r.value)};
      rows := rows + [r.value];
    }
    return Some(rows);
  }

  // ----- writing -------------------------------------------------------------------------------

  function Line(r: Row): string {
    Text.Join([r.status, r.expiry, r.revoked, r.serial, r.file, r.subject], '\t')
  }

  function Render(rows: seq<Row>): string {
    if rows == [] then "" else Render(rows[..|rows| - 1]) + (Line(rows[|rows| - 1]) + "\n")
  }

  method Write(rows: seq<Row>) returns (text: string)
    ensures text == Render(rows)
  {
    text := "";
    for i := 0 to |rows|
      invariant text == Render(rows[..i])
    {
      assert rows[..i + 1][..i] == rows[..i];
      text := text + (Line(rows[i]) + "\n");
    }
    assert rows[..|rows|] == rows;
  }

  /** A text to which another line can be appended as it stands. */
  predicate Terminated(text: string) { text == "" || text[|text| - 1] == '\n' }

  function Terminate(text: string): (r: string)
    ensures Terminated(r)
  {
    if Terminated(text) then text else text + "\n"
  }

  /** The row that a new certificate gets. */
  function IssuedRow(cn: string, serial: nat, expiry: string): Row {
    Row("V", expiry, "", Text.Render(serial, 16), "unknown", "/CN=" + cn)
  }

  /** The index with one more certificate; None when the index is unusable or already knows the serial. */
  function Appended(text: string, cn: string, serial: nat, expiry: string, clock: Clock): Option<string> {
    match ParseIndex(text, clock)
    case None => None
    case Some(rows) =>
      if serial in Serials(rows) then None
      else Some(Terminate(text) + (Line(IssuedRow(cn, serial, expiry)) + "\n"))
  }

  method Append(text: string, cn: string, serial: nat, expiry: string, clock: Clock) returns (r: Option<string>)
    ensures r == Appended(text, cn, serial, expiry, clock)
  {
    var rows := Parse(text, clock);
    if rows.None? { return None; }
    for i := 0 to |rows.value|
      invariant forall j :: 0 <= j < i ==> Serial(rows.value[j]) != serial
    {
      if Serial(rows.value[i]) == serial { return None; }
    }
    var data := text;
    if data != "" && data[|data| - 1] != '\n' { data := data + "\n"; }
    return Some(data + (Line(IssuedRow(cn, serial, expiry)) + "\n"));
  }

  // ----- whom a row belongs to -----------------------------------------------------------------

  predicate HasCN(r: Row, cn: string) { "CN=" + cn in Text.Split(r.subject, '/') }

  lemma IssuedRowBelongs(cn: string, serial: nat, expiry: string)
    requires '/' !in cn
    ensures forall other :: HasCN(IssuedRow(cn, serial, expiry), other) <==> other == cn
    ensures Serial(IssuedRow(cn, serial, expiry)) == serial
    ensures var r := IssuedRow(cn, serial, expiry); r.status == "V" && r.expiry == expiry && r.revoked == ""
  {
    var name := "CN=" + cn;
    Text.SplitConcat("", '/', name);
    Text.SplitPlain(name, '/');
    assert "/CN=" + cn == "" + ['/'] + name;
    assert Text.Split("/CN=" + cn, '/') == ["", name];
    forall other ensures "CN=" + other == name <==> other == cn {
      assert ("CN=" + other)[3..] == other && name[3..] == cn;
    }
    Text.ValueRender(serial, 16);
  }

  // ----- the codec's laws ------------------------------------------------------------------------

  predicate IsField(s: string) { '\t' !in s && '\n' !in s }

  predicate IsFieldRow(r: Row) {
    IsField(r.status) && IsField(r.expiry) && IsField(r.revoked) && IsField(r.serial) && IsField(r.file) && IsField(r.subject)
  }

  predicate RowOk(r: Row, clock: Clock) { Acceptable(r, clock) && IsFieldRow(r) }

  /** The rows that an index can hold. */
  predicate ValidRows(rows: seq<Row>, clock: Clock) {
    && (forall r :: r in rows ==> RowOk(r, clock))
    && (forall i, j :: 0 <= i < j < |rows| ==> Serial(rows[i]) != Serial(rows[j]))
  }

  /** Splitting never makes up characters. */
  lemma {:induction false} SplitKeeps(s: string, sep: char, c: char)
    requires c !in s
    ensures forall p :: p in Text.Split(s, sep) ==> c !in p
  {
    if s != "" { SplitKeeps(s[1..], sep, c); }
  }

  lemma ParseRowOk(line: string, clock: Clock)
    requires '\n' !in line && ParseRow(line, clock).Some?
    ensures RowOk(ParseRow(line, clock).value, clock)
  {
    SplitKeeps(line, '\t', '\n');
    var f := Text.Split(line, '\t');
    assert forall i :: 0 <= i < 6 ==> f[i] in f;
  }

  lemma {:induction false} ParseFromValid(rows: seq<Row>, lines: seq<string>, clock: Clock)
    requires ValidRows(rows, clock) && forall l :: l in lines ==> '\n' !in l
    ensures var r := ParseFrom(rows, lines, clock); r.Some? ==> ValidRows(r.value, clock)
    decreases |lines|
  {
    if lines != [] && AddLine(rows, lines[0], clock).Some? {
      if lines[0] != "" { ParseRowOk(lines[0], clock); }
      ParseFromValid(AddLine(rows, lines[0], clock).value, lines[1..], clock);
    }
  }

  lemma {:induction false} ParseFromConcat(rows: seq<Row>, a: seq<string>, b: seq<string>, clock: Clock)
    ensures ParseFrom(rows, a + b, clock) ==
            match ParseFrom(rows, a, clock) { case None => None case Some(mid) => ParseFrom(mid, b, clock) }
    decreases |a|
  {
    if a == [] {
      assert a + b == b;
    } else {
      assert (a + b)[1..] == a[1..] + b;
      var next := AddLine(rows, a[0], clock);
      if next.Some? { ParseFromConcat(next.value, a[1..], b, clock); }
    }
  }

  lemma ParseOneLine(rows: seq<Row>, line: string, clock: Clock)
    ensures ParseFrom(rows, [line], clock) == AddLine(rows, line, clock)
  {
    var next := AddLine(rows, line, clock);
    assert [line][1..] == [];
    if next.Some? { assert ParseFrom(next.value, [], clock) == next; }
  }

  /** Parsing what follows a line break continues from what came before it. */
  lemma ParseConcat(a: string, b: string, clock: Clock)
    ensures ParseIndex(a + ['\n'] + b, clock) ==
            match ParseIndex(a, clock) { case None => None case Some(mid) => ParseFrom(mid, Text.Split(b, '\n'), clock) }
  {
    Text.SplitConcat(a, '\n', b);
    ParseFromConcat([], Text.Split(a, '\n'), Text.Split(b, '\n'), clock);
  }

  lemma ParseTerminate(text: string, clock: Clock)
    ensures ParseIndex(text + "\n", clock) == ParseIndex(text, clock)
    ensures ParseIndex(Terminate(text), clock) == ParseIndex(text, clock)
  {
    ParseConcat(text, "", clock);
    assert text + ['\n'] + "" == text + "\n";
    if ParseIndex(text, clock).Some? { ParseOneLine(ParseIndex(text, clock).value, "", clock); }
  }

  /** A line without line breaks after a line break, or alone, is one more row. */
  lemma ParseLastLine(head: string, line: string, clock: Clock)
    requires '\n' !in line
    ensures ParseIndex(line, clock) == AddLine([], line, clock)
    ensures ParseIndex(head + ['\n'] + line, clock) ==
            match ParseIndex(head, clock) { case None => None case Some(rows) => AddLine(rows, line, clock) }
  {
    Text.SplitPlain(line, '\n');
    ParseConcat(head, line, clock);
    hide AddLine, Text.Split;
    ParseOneLine([], line, clock);
    if ParseIndex(head, clock).Some? { ParseOneLine(ParseIndex(head, clock).value, line, clock); }
  }

  /** One more line at the end of a terminated text is one more row. */
  lemma ParseAppend(text: string, line: string, clock: Clock)
    requires Terminated(text) && '\n' !in line
    ensures ParseIndex(text + (line + "\n"), clock) ==
            match ParseIndex(text, clock) { case None => None case Some(rows) => AddLine(rows, line, clock) }
  {
    hide ParseIndex, ParseFrom, AddLine;
    Text.SeqAssoc(text, line, "\n");
    ParseTerminate(text + line, clock);
    if text == "" {
      assert text + line == line;
      ParseLastLine("", line, clock);
      assert ParseIndex("", clock) == Some([]) by { ParseEmpty(clock); }
    } else {
      var head := text[..|text| - 1];
      assert head + ['\n'] + line == text + line && head + "\n" == text;
      ParseLastLine(head, line, clock);
      ParseTerminate(head, clock);
    }
  }

  lemma ParseEmpty(clock: Clock)
    ensures ParseIndex("", clock) == Some([])
  {
    ParseOneLine([], "", clock);
  }

  lemma JoinPlain(parts: seq<string>, c: char)
    requires c != '\t' && forall p :: p in parts ==> c !in p
    ensures c !in Text.Join(parts, '\t')
  {
  }

  lemma LineParses(r: Row, clock: Clock)
    requires RowOk(r, clock)
    ensures ParseRow(Line(r), clock) == Some(r) && '\n' !in Line(r) && Line(r) != ""
  {
    var f := [r.status, r.expiry, r.revoked, r.serial, r.file, r.subject];
    Text.SplitJoin(f, '\t');
    JoinPlain(f, '\n');
  }

  lemma ValidInit(rows: seq<Row>, clock: Clock)
    requires rows != [] && ValidRows(rows, clock)
    ensures var init, last := rows[..|rows| - 1], rows[|rows| - 1];
      ValidRows(init, clock) && RowOk(last, clock) && Serial(last) !in Serials(init) && init + [last] == rows
  {
    hide RowOk, Serial;
    var init := rows[..|rows| - 1];
    assert forall r :: r in init ==> r in rows;
    assert forall i :: 0 <= i < |init| ==> init[i] == rows[i];
  }

  /** MAIN: whatever rows an index can hold, parsing what is written for them gives them back. */
  lemma {:induction false} RenderThenParse(rows: seq<Row>, clock: Clock)
    requires ValidRows(rows, clock)
    ensures ParseIndex(Render(rows), clock) == Some(rows)
  {
    hide ParseIndex, ParseRow, RowOk, ValidRows, Serials, Line;
    if rows == [] {
      ParseEmpty(clock);
    } else {
      var init, last := rows[..|rows| - 1], rows[|rows| - 1];
      ValidInit(rows, clock);
      RenderThenParse(init, clock);
      LineParses(last, clock);
      ParseAppend(Render(init), Line(last), clock);
    }
  }

  lemma ParsedIsValid(text: string, clock: Clock)
    ensures ParseIndex(text, clock).Some? ==> ValidRows(ParseIndex(text, clock).value, clock)
  {
    ParseFromValid([], Text.Split(text, '\n'), clock);
  }

  /** MAIN: an accepted index keeps its rows when it is rewritten, and its serials are distinct numbers. */
  lemma IndexRoundTrip(text: string, clock: Clock)
    requires ParseIndex(text, clock).Some?
    ensures var rows := ParseIndex(text, clock).value;
      ValidRows(rows, clock) && ParseIndex(Render(rows), clock) == Some(rows)
  {
    ParsedIsValid(text, clock);
    RenderThenParse(ParseIndex(text, clock).value, clock);
  }

  lemma IssuedRowOk(cn: string, serial: nat, expiry: string, clock: Clock)
    requires IsField(cn) && IsField(expiry) && clock(expiry)
    ensures RowOk(IssuedRow(cn, serial, expiry), clock) && Serial(IssuedRow(cn, serial, expiry)) == serial
  {
    var row := IssuedRow(cn, serial, expiry);
    Text.ValueRender(serial, 16);
    assert forall c :: c in row.serial ==> Text.IsHexDigit(c);
    assert forall c :: c in row.subject ==> c in "/CN=" || c in cn;
  }

  lemma ParsedNameIsField(text: string, rows: seq<Row>, cn: string, serial: nat, expiry: string, clock: Clock)
    requires ParseIndex(text, clock) == Some(rows + [IssuedRow(cn, serial, expiry)])
    ensures IsField(cn)
  {
    hide ParseIndex;
    ParsedIsValid(text, clock);
    var row := IssuedRow(cn, serial, expiry);
    assert RowOk((rows + [row])[|rows|], clock);
    assert row.subject[4..] == cn;
  }

  /** MAIN: appending a certificate to an accepted index, terminated or not, succeeds exactly for a
      fresh serial, and then parses to the old rows plus the new one exactly when the name holds
      neither a tab nor a line break. */
  lemma AppendAddsOneRow(text: string, cn: string, serial: nat, expiry: string, clock: Clock)
    requires ParseIndex(text, clock).Some?
    requires IsField(expiry) && clock(expiry)
    ensures var rows, next := ParseIndex(text, clock).value, Appended(text, cn, serial, expiry, clock);
      && (next.Some? <==> serial !in Serials(rows))
      && (next.Some? ==>
            (IsField(cn) <==> ParseIndex(next.value, clock) == Some(rows + [IssuedRow(cn, serial, expiry)])))
  {
    hide ParseIndex, ParseRow, Acceptable, Serials, Serial, Line;
    var rows, row := ParseIndex(text, clock).value, IssuedRow(cn, serial, expiry);
    if serial !in Serials(rows) {
      var next := Appended(text, cn, serial, expiry, clock).value;
      if IsField(cn) {
        IssuedRowOk(cn, serial, expiry, clock);
        LineParses(row, clock);
        ParseTerminate(text, clock);
        ParseAppend(Terminate(text), Line(row), clock);
      }
      if ParseIndex(next, clock) == Some(rows + [row]) { ParsedNameIsField(next, rows, cn, serial, expiry, clock); }
    }
  }
}
