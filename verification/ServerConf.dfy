/** Keeping the directives that the agent owns in server.conf (internal/ovpn/serverconf.go). The runtime user
    and group it wants may come from the very file it repairs (internal/fsx/permissions.go). */
module ServerConf {
  import opened Wrappers
  import Text

  // ----- lines and their keys ----------------------------------------------------------------------

  function WordLength(s: string): (n: nat)
    ensures n <= |s| && (n < |s| ==> Text.IsSpace(s[n]))
    ensures s != "" && !Text.IsSpace(s[0]) ==> n > 0
  {
    if s == "" || Text.IsSpace(s[0]) then 0 else 1 + WordLength(s[1..])
  }

  /** strings.Fields. */
  function Fields(s: string): seq<string> {
    if s == "" then []
    else if Text.IsSpace(s[0]) then Fields(s[1..])
    else [s[..WordLength(s)]] + Fields(s[WordLength(s)..])
  }

  predicate IsQuote(c: char) { c == '"' || c == '\'' }

  function TrimQuotes(s: string): string {
    if s != "" && IsQuote(s[0]) then TrimQuotes(s[1..])
    else if s != "" && IsQuote(s[|s| - 1]) then TrimQuotes(s[..|s| - 1])
    else s
  }

  function KeyOf(fields: seq<string>): string {
    if fields == [] then ""
    else if fields[0] == "setenv" && |fields| > 1 then "setenv " + TrimQuotes(fields[1])
    else fields[0]
  }

  /** The directive that a line sets; setenv lines are told apart by their variable. */
  function Key(line: string): string { KeyOf(Fields(line)) }

  // ----- quoting a value -----------------------------------------------------------------------------

  predicate NeedsQuotes(v: string) { exists c :: c in v && (c == ' ' || c == '\t' || c == '\r' || c == '\n' || c == '"' || c == '\\') }

  function HexDigit(d: nat): char
    requires d < 16
  {
    if d < 10 then '0' + d as char else 'a' + (d - 10) as char
  }

  function Hex(n: nat, width: nat): (s: string)
    ensures forall c :: c in s ==> '0' <= c <= '9' || 'a' <= c <= 'f'
  {
    if width == 0 then "" else Hex(n / 16, width - 1) + [HexDigit(n % 16)]
  }

  /** One rune of strconv.Quote; wide tells which runes beyond ASCII are printed as they are. */
  function Escape(c: char, wide: char -> bool): (s: string)
    ensures '\n' !in s
  {
    if c == '"' || c == '\\' then ['\\', c]
    else if ' ' <= c <= '~' then [c]
    else if c == '\U{07}' then "\\a"
    else if c == '\U{08}' then "\\b"
    else if c == '\U{0C}' then "\\f"
    else if c == '\n' then "\\n"
    else if c == '\r' then "\\r"
    else if c == '\t' then "\\t"
    else if c == '\U{0B}' then "\\v"
    else if c < '\U{80}' then "\\x" + Hex(c as int, 2)
    else if wide(c) then [c]
    else if c < '\U{10000}' then "\\u" + Hex(c as int, 4)
    else "\\U" + Hex(c as int, 8)
  }

  function EscapeAll(v: string, wide: char -> bool): (s: string)
    ensures '\n' !in s
  {
    if v == "" then "" else Escape(v[0], wide) + EscapeAll(v[1..], wide)
  }

  /** A value as it stands in a directive. */
  function ConfigValue(v: string, wide: char -> bool): string {
    if NeedsQuotes(v) then InQuotes(EscapeAll(v, wide)) else v
  }

  function Lines(text: string): seq<string> { Text.Split(text, '\n') }

  // ----- the lines the agent wants ----------------------------------------------------------------------

  /** The exported settings, without their common prefix. */
  const SETTINGS: seq<string> := [
    "OPENVPN_ROOT", "DATA_DIR", "USERS_DIR", "SESSIONS_DIR", "USAGE_DIR", "STATUS_FILE", "LOG_DIR", "LOG_FILE",
    "MANAGEMENT_HOST", "MANAGEMENT_PORT", "MGMT_PASS_FILE", "ALLOW_REMOTE_MGMT", "RUNTIME_USER", "RUNTIME_GROUP",
    "SESSION_TTL"]

  const PASS_FILE := 10
  const RUNTIME_USER := 12

  /** The values of the settings above, apart from the runtime user and group. */
  type Exports = s: seq<string> | |s| == 13 witness seq(13, _ => "")

  /** What the environment fixes: the agent's binary, the exported settings, the runtime user and group
      (empty when unset), the management port and the two files that OpenVPN is told about. */
  datatype Setup = Setup(
    bin: string, exported: Exports, user: string, group: string, port: nat, pidFile: string, crlFile: string,
    wide: char -> bool)

  /** The first line of two or more words that starts with the name gives the value, without its quotes. */
  function Directive(lines: seq<string>, name: string, fallback: string): string {
    if lines == [] then fallback
    else
      var f := Fields(lines[0]);
      if |f| >= 2 && f[0] == name then TrimQuotes(f[1]) else Directive(lines[1..], name, fallback)
  }

  datatype Identity = Identity(user: string, group: string)

  /** The user and group that OpenVPN is to run as: the environment's, else the file's. */
  function IdentityIn(u: Setup, lines: seq<string>): Identity {
    Identity(if u.user != "" then u.user else Directive(lines, "user", "nobody"),
             if u.group != "" then u.group else Directive(lines, "group", "nogroup"))
  }

  function EnvName(i: nat): string
    requires i < |SETTINGS|
  {
    "OVNODE_" + SETTINGS[i]
  }

  /** A directive and its value. */
  function Line(word: string, value: string): string { word + " " + value }

  function InQuotes(v: string): string { "\"" + v + "\"" }

  function HookLines(u: Setup): seq<string> {
    [Line("client-connect", InQuotes(u.bin + " hook connect")),
     Line("client-disconnect", InQuotes(u.bin + " hook disconnect"))]
  }

  function EnvLine(name: string, value: string): string { Line("setenv", Line(name, value)) }

  function Values(u: Setup, id: Identity): (vs: seq<string>)
    ensures |vs| == |SETTINGS|
  {
    u.exported[..RUNTIME_USER] + [id.user, id.group] + u.exported[RUNTIME_USER..]
  }

  function EnvLines(u: Setup, id: Identity): seq<string> {
    seq(|SETTINGS|, i requires 0 <= i < |SETTINGS| => EnvLine(EnvName(i), ConfigValue(Values(u, id)[i], u.wide)))
  }

  function RuntimeLines(id: Identity): seq<string> { [Line("user", id.user), Line("group", id.group)] }

  function AgentLines(u: Setup, id: Identity): seq<string> { HookLines(u) + EnvLines(u, id) + RuntimeLines(id) }

  function RequiredLines(u: Setup): seq<string> {
    [Line("tls-version-min", "1.3"), Line("remote-cert-tls", "client"),
     Line("management", "127.0.0.1 " + Text.Render(u.port, 10) + " " + ConfigValue(u.exported[PASS_FILE], u.wide)),
     Line("writepid", u.pidFile), Line("script-security", "2"), Line("status-version", "3"), "duplicate-cn",
     Line("crl-verify", u.crlFile)]
  }

  // ----- the repair --------------------------------------------------------------------------------

  /** The lines that must each be there, and the lines whose directives the agent owns. */
  datatype Wanted = Wanted(required: seq<string>, desired: seq<string>)

  /** What the agent wants of a file with this text. */
  function WantedFor(u: Setup, text: string): Wanted {
    Wanted(RequiredLines(u), AgentLines(u, IdentityIn(u, Lines(text))))
  }

  function Present(lines: seq<string>): set<string> { set l | l in lines :: Text.TrimSpace(l) }

  function Missing(required: seq<string>, present: set<string>): seq<string> {
    if required == [] then []
    else
      var d := required[|required| - 1];
      Missing(required[..|required| - 1], present) + if d in present then [] else [d]
  }

  function Count(lines: seq<string>, key: string): nat {
    if lines == [] then 0
    else Count(lines[..|lines| - 1], key) + if Key(lines[|lines| - 1]) == key then 1 else 0
  }

  /** The last line with a key, trimmed. */
  function Last(lines: seq<string>, key: string): string {
    if lines == [] then ""
    else if Key(lines[|lines| - 1]) == key then Text.TrimSpace(lines[|lines| - 1])
    else Last(lines[..|lines| - 1], key)
  }

  predicate IsCurrent(lines: seq<string>, d: string) { Count(lines, Key(d)) == 1 && Last(lines, Key(d)) == d }

  predicate Current(lines: seq<string>, desired: seq<string>) { forall d :: d in desired ==> IsCurrent(lines, d) }

  /** What the two maps say about a key. */
  predicate Tallied(counts: map<string, nat>, values: map<string, string>, lines: seq<string>, k: string) {
    if k in counts then k in values && Count(lines, k) == counts[k] && Last(lines, k) == values[k]
    else k !in values && Count(lines, k) == 0
  }

  function Owned(desired: seq<string>): set<string> { set d | d in desired :: Key(d) }

  function Foreign(lines: seq<string>, owned: set<string>): seq<string> {
    if lines == [] then []
    else
      var l := lines[|lines| - 1];
      Foreign(lines[..|lines| - 1], owned) + if Key(l) in owned then [] else [l]
  }

  function ToAdd(p: Wanted, text: string): seq<string> { Missing(p.required, Present(Lines(text))) }

  predicate UpToDate(p: Wanted, text: string) { ToAdd(p, text) == [] && Current(Lines(text), p.desired) }

  function NewLines(p: Wanted, text: string): seq<string> {
    Foreign(Lines(text), Owned(p.desired)) + p.desired + ToAdd(p, text)
  }

  /** The file after a repair, and whether it changed. */
  function Repair(p: Wanted, text: string): (string, bool) {
    if UpToDate(p, text) then (text, false) else (Text.Join(NewLines(p, text), '\n') + "\n", true)
  }

  /** One repair, with the lines wanted of the text it starts from. */
  function RepairOnce(u: Setup, text: string): (string, bool) { Repair(WantedFor(u, text), text) }

  /** What a call does to the file: a missing one is generated, any other is repaired. */
  function Ensured(conf: File, u: Setup, initial: string, password: bool, writes: bool): (File, Result<bool, ()>) {
    if !password then (conf, Err(()))
    else match conf
      case Absent => if initial == "" || !writes then (conf, Err(())) else (Holds(initial), Ok(true))
      case Unreadable => (conf, Err(()))
      case Holds(text) =>
        var (next, changed) := RepairOnce(u, text);
        if !changed then (conf, Ok(false)) else if !writes then (conf, Err(())) else (Holds(next), Ok(true))
  }

  lemma PresentNone()
    ensures Present([]) == {}
  {
  }

  lemma PresentSnoc(lines: seq<string>, l: string)
    ensures Present(lines + [l]) == Present(lines) + {Text.TrimSpace(l)}
  {
    hide Text.TrimSpace;
    assert forall x :: x in lines + [l] <==> x in lines || x == l;
  }

  class ConfFile {
    var conf: File

    constructor (conf: File)
      ensures this.conf == conf
    {
      this.conf := conf;
    }

    static method FindMissing(p: Wanted, text: string) returns (toAdd: seq<string>)
      ensures toAdd == ToAdd(p, text)
    {
      hide Present, Text.TrimSpace, Text.Split;
      var lines := Lines(text);
      var present: set<string> := {};
      PresentNone();
      for i := 0 to |lines|
        invariant present == Present(lines[..i])
      {
        PresentSnoc(lines[..i], lines[i]);
        assert lines[..i + 1] == lines[..i] + [lines[i]];
        present := present + {Text.TrimSpace(lines[i])};
      }
      assert lines[..|lines|] == lines;
      toAdd := [];
      for i := 0 to |p.required|
        invariant toAdd == Missing(p.required[..i], present)
      {
        assert p.required[..i + 1][..i] == p.required[..i];
        if p.required[i] !in present { toAdd := toAdd + [p.required[i]]; }
      }
      assert p.required[..|p.required|] == p.required;
    }

    /** Count the lines of every directive and remember the last one. */
    static method Tally(lines: seq<string>) returns (counts: map<string, nat>, values: map<string, string>)
      ensures forall k :: Tallied(counts, values, lines, k)
    {
      hide Key, Text.TrimSpace;
      counts, values := map[], map[];
      for i := 0 to |lines|
        invariant forall k :: Tallied(counts, values, lines[..i], k)
      {
        assert lines[..i + 1][..i] == lines[..i];
        var key := Key(lines[i]);
        ghost var counted, valued := counts, values;
        counts := counts[key := (if key in counts then counts[key] else 0) + 1];
        values := values[key := Text.TrimSpace(lines[i])];
        ghost var before, after := lines[..i], lines[..i + 1];
        forall k ensures Tallied(counts, values, after, k) { assert Tallied(counted, valued, before, k); }
      }
      assert lines[..|lines|] == lines;
    }

    static method HooksAlreadyCurrent(text: string, desired: seq<string>) returns (ok: bool)
      ensures ok == Current(Lines(text), desired)
    {
      hide Key, Count, Last;
      var counts, values := Tally(Lines(text));
      for i := 0 to |desired|
        invariant forall j :: 0 <= j < i ==> IsCurrent(Lines(text), desired[j])
      {
        var key := Key(desired[i]);
        assert Tallied(counts, values, Lines(text), key);
        if key !in counts || counts[key] != 1 || key !in values || values[key] != desired[i] {
          assert desired[i] in desired && !IsCurrent(Lines(text), desired[i]);
          return false;
        }
      }
      return true;
    }

    static method KeepForeign(text: string, desired: seq<string>) returns (kept: seq<string>)
      ensures kept == Foreign(Lines(text), Owned(desired))
    {
      var owned := set d | d in desired :: Key(d);
      var lines := Lines(text);
      kept := [];
      for i := 0 to |lines|
        invariant kept == Foreign(lines[..i], owned)
      {
        assert lines[..i + 1][..i] == lines[..i];
        if Key(lines[i]) !in owned { kept := kept + [lines[i]]; }
      }
      assert lines[..|lines|] == lines;
    }

    /** The runtime user or group that a file names. */
    static method RuntimeDirective(text: string, name: string, fallback: string) returns (value: string)
      ensures value == Directive(Lines(text), name, fallback)
    {
      var lines := Lines(text);
      for i := 0 to |lines|
        invariant Directive(lines[i..], name, fallback) == Directive(lines, name, fallback)
      {
        assert lines[i..][0] == lines[i] && lines[i..][1..] == lines[i + 1..];
        var fields := Fields(lines[i]);
        if |fields| >= 2 && fields[0] == name { return TrimQuotes(fields[1]); }
      }
      return fallback;
    }

    static method Want(u: Setup, text: string) returns (w: Wanted)
      ensures w == WantedFor(u, text)
    {
      var user, group := u.user, u.group;
      if user == "" { user := RuntimeDirective(text, "user", "nobody"); }
      if group == "" { group := RuntimeDirective(text, "group", "nogroup"); }
      return Wanted(RequiredLines(u), AgentLines(u, Identity(user, group)));
    }

    method Ensure(u: Setup, initial: string, password: bool, writes: bool) returns (r: Result<bool, ()>)
      modifies this
      ensures (conf, r) == Ensured(old(conf), u, initial, password, writes)
    {
      hide WantedFor, Foreign, Missing, Current, Present;
      if !password { return Err(()); }
      match conf {
      case Unreadable => return Err(());
      case Absent =>
        if initial == "" || !writes { return Err(()); }
        conf := Holds(initial);
        return Ok(true);
      case Holds(text) =>
        var w := Want(u, text);
        var toAdd := FindMissing(w, text);
        var current := HooksAlreadyCurrent(text, w.desired);
        if toAdd == [] && current { return Ok(false); }
        var lines := KeepForeign(text, w.desired);
        lines := lines + w.desired;
        lines := lines + toAdd;
        if !writes { return Err(()); }
        conf := Holds(Text.Join(lines, '\n') + "\n");
        return Ok(true);
      }
    }
  }
}
