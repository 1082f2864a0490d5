/** Session markers: their file names and their file format (internal/store/sessions.go). */
module Markers {
  import opened Wrappers
  import Text

  datatype Marker = Marker(
    commonName: string, trustedIP: string, trustedPort: string, poolIP: string, created: int,
    sessionID: string, connectedAt: int, generation: string, connectionStarted: int, connectedSince: int)

  const BLANK := Marker("", "", "", "", 0, "", 0, "", 0, 0)

  function SessionKey(safeCN: string, poolIP: string, trustedIP: string, trustedPort: string): string {
    if poolIP != "" then safeCN + "." + poolIP else safeCN + ".noip." + trustedIP + "." + trustedPort
  }

  function FirstNonEmpty(a: string, b: string): string { if a != "" then a else b }

  /** The session id and the connection start that a marker is written with. */
  function WrittenId(m: Marker): string { FirstNonEmpty(m.sessionID, m.generation) }

  function WrittenStart(m: Marker): int {
    if m.connectedAt != 0 then m.connectedAt
    else if m.connectionStarted != 0 then m.connectionStarted
    else if m.connectedSince != 0 then m.connectedSince
    else m.created
  }

  function MarkerFields(m: Marker): seq<(string, string)> {
    [("common_name", m.commonName),
     ("trusted_ip", m.trustedIP),
     ("trusted_port", m.trustedPort),
     ("ifconfig_pool_remote_ip", m.poolIP),
     ("created", Text.FormatInt(m.created)),
     ("session_id", WrittenId(m)),
     ("connection_started", Text.FormatInt(WrittenStart(m)))]
  }

  function Lines(fields: seq<(string, string)>): seq<string> {
    if fields == [] then [] else [fields[0].0 + "=" + fields[0].1] + Lines(fields[1..])
  }

  /** The body of a marker file: every line ends in a newline. */
  function MarkerBody(m: Marker): string {
    Text.Join(Lines(MarkerFields(m)) + [""], '\n')
  }

  /** The effect of one key and value on the marker read so far. */
  function SetField(m: Marker, k: string, v: string): Marker {
    if k == "common_name" then m.(commonName := v)
    else if k == "trusted_ip" then m.(trustedIP := v)
    else if k == "trusted_port" then m.(trustedPort := v)
    else if k == "ifconfig_pool_remote_ip" then m.(poolIP := v)
    else if k == "created" then
      var n := Text.ParseInt64(v);
      if n.Some? then m.(created := n.value) else m
    else if k == "session_id" then m.(sessionID := v, generation := FirstNonEmpty(m.generation, v))
    else if k == "generation" then m.(generation := v, sessionID := FirstNonEmpty(m.sessionID, v))
    else if k == "connection_started" || k == "connected_at" || k == "connected_since" then
      var n := Text.ParseInt64(v);
      if n.Some? then
        m.(connectedAt := n.value, connectionStarted := n.value, connectedSince := n.value,
           created := if m.created == 0 then n.value else m.created)
      else m
    else m
  }

  function ReadLine(m: Marker, line: string): Marker {
    var (k, v, ok) := Text.Cut(Text.TrimSpace(line), '=');
    if ok then SetField(m, k, v) else m
  }

  function ReadLines(m: Marker, lines: seq<string>): Marker
    decreases |lines|
  {
    if lines == [] then m else ReadLines(ReadLine(m, lines[0]), lines[1..])
  }

  function ParseMarker(data: string): Marker { ReadLines(BLANK, Text.Split(data, '\n')) }

  /** ReadMarker fills the fields in place, line by line. */
  method ReadMarker(data: string) returns (m: Marker)
    ensures m == ParseMarker(data)
  {
    m := BLANK;
    var lines := Text.Split(data, '\n');
    for i := 0 to |lines|
      invariant ReadLines(m, lines[i..]) == ParseMarker(data)
    {
      var (k, v, ok) := Text.Cut(Text.TrimSpace(lines[i]), '=');
      assert lines[i..][1..] == lines[i + 1..];
      if ok { m := SetField(m, k, v); }
    }
  }

  // ----- the codec -------------------------------------------------------------------------------

  /** A value that one line can carry: no newline and no blank at its end. */
  predicate Plain(v: string) {
    '\n' !in v && (v == "" || !Text.IsSpace(v[|v| - 1]))
  }

  predicate IsInt64(n: int) { -Text.INT64_MAX - 1 <= n <= Text.INT64_MAX }

  predicate Writable(m: Marker) {
    && Plain(m.commonName) && Plain(m.trustedIP) && Plain(m.trustedPort) && Plain(m.poolIP) && Plain(WrittenId(m))
    && IsInt64(m.created) && IsInt64(WrittenStart(m))
  }

  /** What a marker file gives back: the written fields, with the mirrored id and start filled in. */
  function Reread(m: Marker): Marker {
    Marker(m.commonName, m.trustedIP, m.trustedPort, m.poolIP,
           if m.created != 0 then m.created else WrittenStart(m),
           WrittenId(m), WrittenStart(m), WrittenId(m), WrittenStart(m), WrittenStart(m))
  }

  predicate KeyWord(k: string) {
    k != "" && forall i :: 0 <= i < |k| ==> 'a' <= k[i] <= 'z' || k[i] == '_'
  }

  lemma FieldLineTrimmed(k: string, v: string)
    requires KeyWord(k) && Plain(v)
    ensures Text.Trimmed(k + "=" + v)
  {
    var line := k + "=" + v;
    assert line[0] == k[0] && !Text.IsSpace(k[0]);
    assert line[|line| - 1] == if v == "" then '=' else v[|v| - 1];
  }

  lemma FieldLinePlain(k: string, v: string)
    requires KeyWord(k) && Plain(v)
    ensures '\n' !in k + "=" + v && '=' !in k
  {
  }

  lemma FieldLine(m: Marker, k: string, v: string)
    requires KeyWord(k) && Plain(v)
    ensures ReadLine(m, k + "=" + v) == SetField(m, k, v)
    ensures '\n' !in k + "=" + v
  {
    FieldLineTrimmed(k, v);
    FieldLinePlain(k, v);
    hide SetField, KeyWord, Plain, Text.Trimmed;
    assert k + ['='] + v == k + "=" + v;
    Text.CutConcat(k, '=', v);
  }

  lemma NumberIsPlain(n: int)
    ensures Plain(Text.FormatInt(n))
  {
    var digits := Text.Render(if n < 0 then -n else n, 10);
    assert digits[|digits| - 1] in digits;
    assert Text.FormatInt(n)[|Text.FormatInt(n)| - 1] == digits[|digits| - 1];
  }

  predicate FieldsWritable(fields: seq<(string, string)>) {
    forall i :: 0 <= i < |fields| ==> KeyWord(fields[i].0) && Plain(fields[i].1)
  }

  function SetFields(m: Marker, fields: seq<(string, string)>): Marker
    decreases |fields|
  {
    if fields == [] then m else SetFields(SetField(m, fields[0].0, fields[0].1), fields[1..])
  }

  lemma {:induction false} ReadFieldLines(m: Marker, fields: seq<(string, string)>)
    requires FieldsWritable(fields)
    ensures ReadLines(m, Lines(fields) + [""]) == SetFields(m, fields)
    ensures forall l :: l in Lines(fields) + [""] ==> '\n' !in l
    decreases |fields|
  {
    if fields == [] {
      assert ReadLines(m, [""]) == ReadLines(ReadLine(m, ""), []);
    } else {
      var f, rest := fields[0], fields[1..];
      FieldLine(m, f.0, f.1);
      ReadFieldLines(SetField(m, f.0, f.1), rest);
      var line := f.0 + "=" + f.1;
      assert Lines(fields) + [""] == [line] + (Lines(rest) + [""]);
      assert ([line] + (Lines(rest) + [""]))[1..] == Lines(rest) + [""];
    }
  }

  lemma KeyWords()
    ensures KeyWord("common_name") && KeyWord("trusted_ip") && KeyWord("trusted_port") && KeyWord("session_id")
    ensures KeyWord("ifconfig_pool_remote_ip") && KeyWord("created") && KeyWord("connection_started")
  {
  }

  lemma MarkerFieldsWritable(m: Marker)
    requires Writable(m)
    ensures FieldsWritable(MarkerFields(m))
  {
    NumberIsPlain(m.created);
    NumberIsPlain(WrittenStart(m));
    KeyWords();
  }

  lemma SetMarkerFields(m: Marker)
    requires Writable(m)
    ensures SetFields(BLANK, MarkerFields(m)) == Reread(m)
  {
    Text.ParseFormatInt(m.created);
    Text.ParseFormatInt(WrittenStart(m));
    var f := MarkerFields(m);
    assert f[0..] == f;
    var m1 := SetField(BLANK, f[0].0, f[0].1);
    var m2 := SetField(m1, f[1].0, f[1].1);
    var m3 := SetField(m2, f[2].0, f[2].1);
    var m4 := SetField(m3, f[3].0, f[3].1);
    var m5 := SetField(m4, f[4].0, f[4].1);
    var m6 := SetField(m5, f[5].0, f[5].1);
    var m7 := SetField(m6, f[6].0, f[6].1);
    assert m7 == Reread(m);
    assert SetFields(m6, f[6..]) == SetFields(m7, f[7..]) == m7;
    assert SetFields(m5, f[5..]) == SetFields(m6, f[6..]);
    assert SetFields(m4, f[4..]) == SetFields(m5, f[5..]);
    assert SetFields(m3, f[3..]) == SetFields(m4, f[4..]);
    assert SetFields(m2, f[2..]) == SetFields(m3, f[3..]);
    assert SetFields(m1, f[1..]) == SetFields(m2, f[2..]);
  }

  /** MAIN: reading a written marker restores every written field and mirrors the id and the start. */
  lemma ReadWrittenMarker(m: Marker)
    requires Writable(m)
    ensures ParseMarker(MarkerBody(m)) == Reread(m)
  {
    MarkerFieldsWritable(m);
    ReadFieldLines(BLANK, MarkerFields(m));
    Text.SplitJoin(Lines(MarkerFields(m)) + [""], '\n');
    SetMarkerFields(m);
  }

  // ----- fields of older markers -------------------------------------------------------------------

  lemma OneLineReads(k: string, v: string)
    requires KeyWord(k) && Plain(v)
    ensures ParseMarker(k + "=" + v) == SetField(BLANK, k, v)
  {
    hide SetField, ReadLine, KeyWord, Plain;
    var line := k + "=" + v;
    FieldLine(BLANK, k, v);
    Text.SplitPlain(line, '\n');
    assert [line][0] == line && [line][1..] == [];
    assert ReadLines(BLANK, [line]) == ReadLines(ReadLine(BLANK, line), []);
  }

  lemma StartWords()
    ensures KeyWord("connection_started") && KeyWord("connected_at") && KeyWord("connected_since")
    ensures KeyWord("generation") && KeyWord("session_id")
  {
  }

  /** The three names that a connection start has had are read alike, and give a marker without a creation time one. */
  lemma StartNamesReadAlike(k: string, n: int)
    requires k == "connection_started" || k == "connected_at" || k == "connected_since"
    requires IsInt64(n)
    ensures ParseMarker(k + "=" + Text.FormatInt(n)) ==
            BLANK.(created := n, connectedAt := n, connectionStarted := n, connectedSince := n)
  {
    StartWords();
    hide ParseMarker, KeyWord, Plain, Text.ParseInt64, Text.FormatInt;
    NumberIsPlain(n);
    OneLineReads(k, Text.FormatInt(n));
    Text.ParseFormatInt(n);
  }

  /** So are the two names of a session id. */
  lemma IdNamesReadAlike(k: string, v: string)
    requires (k == "session_id" || k == "generation") && Plain(v)
    ensures ParseMarker(k + "=" + v) == BLANK.(sessionID := v, generation := v)
  {
    StartWords();
    hide ParseMarker, KeyWord, Plain;
    OneLineReads(k, v);
  }
}
