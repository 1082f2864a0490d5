/** What a repaired server.conf says, with the texts of its lines written out (internal/ovpn/serverconf.go:24-90,
    210-280 and 305-335). */
module ConfContents {
  import opened Wrappers
  import opened ServerConf
  import opened ConfRepair
  import opened AgentDirectives
  import opened ConfTidy
  import opened ConfSettles
  import Text

  // ----- quoted values read back ---------------------------------------------------------------------

  function HexRune(s: string): Option<char> {
    if !Text.AllHex(s) then None
    else
      var n := Text.Value(s, 16);
      if n < 0xD800 || 0xE000 <= n < 0x11_0000 then Some(n as char) else None
  }

  function Then(c: Option<char>, rest: Option<string>): Option<string> {
    if c.None? || rest.None? then None else Some([c.value] + rest.value)
  }

  /** strconv.Unquote on what stands between the quotes. */
  function Unescape(s: string): Option<string> {
    if s == "" then Some("")
    else if s[0] == '"' || s[0] == '\n' then None
    else if s[0] != '\\' then Then(Some(s[0]), Unescape(s[1..]))
    else if |s| >= 4 && s[1] == 'x' then Then(HexRune(s[2..4]), Unescape(s[4..]))
    else if |s| >= 6 && s[1] == 'u' then Then(HexRune(s[2..6]), Unescape(s[6..]))
    else if |s| >= 10 && s[1] == 'U' then Then(HexRune(s[2..10]), Unescape(s[10..]))
    else if |s| >= 2 then Then(Unescaped(s[1]), Unescape(s[2..]))
    else None
  }

  function Unescaped(c: char): Option<char> {
    if c == '"' || c == '\\' then Some(c)
    else if c == 'a' then Some('\U{07}') else if c == 'b' then Some('\U{08}') else if c == 'f' then Some('\U{0C}')
    else if c == 'n' then Some('\n') else if c == 'r' then Some('\r') else if c == 't' then Some('\t')
    else if c == 'v' then Some('\U{0B}') else None
  }

  /** The value that a word of the file stands for. */
  function Decoded(w: string): Option<string> {
    if w != "" && w[0] == '"' then
      if |w| >= 2 && w[|w| - 1] == '"' then Unescape(w[1..|w| - 1]) else None
    else Some(w)
  }

  function Power(width: nat): nat { if width == 0 then 1 else 16 * Power(width - 1) }

  lemma {:induction false} HexReads(n: nat, width: nat)
    requires n < Power(width)
    ensures |Hex(n, width)| == width && Text.Value(Hex(n, width), 16) == n
    ensures width > 0 ==> Text.AllHex(Hex(n, width))
  {
    if width > 0 {
      HexReads(n / 16, width - 1);
      Text.ValueSnoc(Hex(n / 16, width - 1), HexDigit(n % 16), 16);
    }
  }

  lemma HexRuneReads(c: char, width: nat)
    requires 0 < width && c as int < Power(width)
    ensures |Hex(c as int, width)| == width && HexRune(Hex(c as int, width)) == Some(c)
  {
    hide Text.AllHex, Hex, Text.Value;
    HexReads(c as int, width);
  }

  lemma Powers()
    ensures Power(2) == 0x100 && Power(4) == 0x1_0000 && Power(8) == 0x1_0000_0000
  {
    assert Power(1) == 16 && Power(2) == 256 && Power(3) == 4096 && Power(4) == 65536;
    assert Power(5) == 0x10_0000 && Power(6) == 0x100_0000 && Power(7) == 0x1000_0000;
  }

  /** The pieces of a hexadecimal escape. */
  lemma EscapePieces(letter: char, digits: string, rest: string)
    ensures var s := ['\\', letter] + digits + rest;
      s[0] == '\\' && s[1] == letter && |s| >= 2 + |digits| && s[2..2 + |digits|] == digits && s[2 + |digits|..] == rest
  {
  }

  lemma LongEscape(c: char, letter: char, width: nat, rest: string)
    requires (letter == 'x' && width == 2) || (letter == 'u' && width == 4) || (letter == 'U' && width == 8)
    requires c as int < Power(width)
    ensures Unescape(['\\', letter] + Hex(c as int, width) + rest) == Then(Some(c), Unescape(rest))
  {
    hide HexRune, Hex, Power;
    HexRuneReads(c, width);
    EscapePieces(letter, Hex(c as int, width), rest);
  }

  lemma ShortEscape(c: char, letter: char, rest: string)
    requires Unescaped(letter) == Some(c)
    ensures Unescape(['\\', letter] + rest) == Then(Some(c), Unescape(rest))
  {
    hide HexRune;
    assert (['\\', letter] + rest)[2..] == rest;
  }

  lemma PlainRune(c: char, rest: string)
    requires c != '\\' && c != '"' && c != '\n'
    ensures Unescape([c] + rest) == Then(Some(c), Unescape(rest))
  {
    assert ([c] + rest)[1..] == rest;
  }

  lemma RuneReads(c: char, wide: char -> bool, rest: string)
    ensures Unescape(Escape(c, wide) + rest) == Then(Some(c), Unescape(rest))
  {
    hide Unescape, Hex, HexRune, Power;
    Powers();
    if c == '"' || c == '\\' { ShortEscape(c, c, rest); }
    else if ' ' <= c <= '~' { PlainRune(c, rest); }
    else if c == '\U{07}' { ShortEscape(c, 'a', rest); assert "\\a" == ['\\', 'a']; }
    else if c == '\U{08}' { ShortEscape(c, 'b', rest); assert "\\b" == ['\\', 'b']; }
    else if c == '\U{0C}' { ShortEscape(c, 'f', rest); assert "\\f" == ['\\', 'f']; }
    else if c == '\n' { ShortEscape(c, 'n', rest); assert "\\n" == ['\\', 'n']; }
    else if c == '\r' { ShortEscape(c, 'r', rest); assert "\\r" == ['\\', 'r']; }
    else if c == '\t' { ShortEscape(c, 't', rest); assert "\\t" == ['\\', 't']; }
    else if c == '\U{0B}' { ShortEscape(c, 'v', rest); assert "\\v" == ['\\', 'v']; }
    else if c < '\U{80}' { LongEscape(c, 'x', 2, rest); assert "\\x" == ['\\', 'x']; }
    else if wide(c) { PlainRune(c, rest); }
    else if c < '\U{10000}' { LongEscape(c, 'u', 4, rest); assert "\\u" == ['\\', 'u']; }
    else { LongEscape(c, 'U', 8, rest); assert "\\U" == ['\\', 'U']; }
  }

  lemma {:induction false} EscapesRead(v: string, wide: char -> bool)
    ensures Unescape(EscapeAll(v, wide)) == Some(v)
  {
    hide Unescape, Escape;
    if v == "" {
      EmptyReads();
    } else {
      RuneReads(v[0], wide, EscapeAll(v[1..], wide));
      EscapesRead(v[1..], wide);
      assert [v[0]] + v[1..] == v;
    }
  }

  lemma EmptyReads()
    ensures Unescape("") == Some("")
  {
  }

  /** OpenVPN reads the text as one word: it is quoted, or has nothing that ends a word or needs quotes. */
  predicate OneWord(w: string) {
    (w != "" && w[0] == '"') || forall c :: c in w ==> c !in [' ', '\t', '\r', '\n', '"', '\\']
  }

  /** MAIN: whatever a setting is, its reader gets it back from the file, where it is quoted or a single word. */
  lemma SettingReadsBack(v: string, wide: char -> bool)
    ensures var w := ConfigValue(v, wide); Decoded(w) == Some(v) && OneWord(w)
  {
    hide Unescape, EscapeAll;
    EscapesRead(v, wide);
    assert v != "" ==> v[0] in v;
    if NeedsQuotes(v) {
      var inner := EscapeAll(v, wide);
      assert ConfigValue(v, wide) == "\"" + inner + "\"";
      assert ("\"" + inner + "\"")[1..|inner| + 1] == inner;
    }
  }

  // ----- the lines of a repaired file -----------------------------------------------------------------

  /** d is the one line that sets the directive. */
  predicate OnlyLine(lines: seq<string>, key: string, d: string) {
    exists i :: 0 <= i < |lines| && SetsAt(lines, key, d, i)
  }

  predicate SetsAt(lines: seq<string>, key: string, d: string, i: nat)
    requires i < |lines|
  {
    && Key(lines[i]) == key && Text.TrimSpace(lines[i]) == d
    && forall j :: 0 <= j < |lines| && Key(lines[j]) == key ==> j == i
  }

  predicate HasLine(lines: seq<string>, d: string) { exists l :: l in lines && Text.TrimSpace(l) == d }

  lemma {:induction false} NoneSets(lines: seq<string>, key: string)
    ensures Count(lines, key) == 0 <==> forall i :: 0 <= i < |lines| ==> Key(lines[i]) != key
  {
    hide Key;
    if lines != [] {
      NoneSets(lines[..|lines| - 1], key);
      assert forall i :: 0 <= i < |lines| - 1 ==> lines[..|lines| - 1][i] == lines[i];
    }
  }

  lemma {:induction false} CountedOnce(lines: seq<string>, key: string)
    requires Count(lines, key) == 1
    ensures OnlyLine(lines, key, Last(lines, key))
  {
    hide Key, Text.TrimSpace;
    var n := |lines| - 1;
    var front := lines[..n];
    if Key(lines[n]) == key {
      NoneSets(front, key);
      assert forall i :: 0 <= i < n ==> front[i] == lines[i];
      assert SetsAt(lines, key, Last(lines, key), n);
    } else {
      CountedOnce(front, key);
      var i :| 0 <= i < n && SetsAt(front, key, Last(front, key), i);
      assert forall j :: 0 <= j < n ==> front[j] == lines[j];
      assert SetsAt(lines, key, Last(lines, key), i);
    }
  }

  /** What a repair leaves of one of the agent's lines. */
  lemma LineInstalled(u: Setup, text: string, i: nat)
    requires CleanSetup(u) && Named(IdentityIn(u, Lines(text)))
    requires i < |AgentLines(u, IdentityIn(u, Lines(text)))|
    ensures var d := AgentLines(u, IdentityIn(u, Lines(text)))[i]; OnlyLine(Lines(RepairOnce(u, text).0), Key(d), d)
  {
    hide Settles, CleanSetup, Named, RepairOnce, IdentityIn, Lines, AgentLines, RequiredLines, Present, OnlyLine, Key, Count, Last;
    var d := AgentLines(u, IdentityIn(u, Lines(text)))[i];
    RepairInstalls(u, text);
    assert d in AgentLines(u, IdentityIn(u, Lines(text)));
    assert IsCurrent(Lines(RepairOnce(u, text).0), d);
    CountedOnce(Lines(RepairOnce(u, text).0), Key(d));
  }

  lemma AgentLinesAre(u: Setup, id: Identity)
    ensures var l := AgentLines(u, id);
      && |l| == 19 && l[0] == HookLines(u)[0] && l[1] == HookLines(u)[1]
      && (forall i :: 0 <= i < 15 ==> l[2 + i] == EnvLines(u, id)[i])
      && l[17] == RuntimeLines(id)[0] && l[18] == RuntimeLines(id)[1]
  {
    LineCounts(u, id);
    hide HookLines, EnvLines, RuntimeLines;
  }

  lemma ConnectText(bin: string)
    ensures Line("client-connect", InQuotes(bin + " hook connect")) == "client-connect \"" + bin + " hook connect\""
  {
    var a, b, q := "client-connect", " hook connect", "\"";
    assert (a + " ") + (q + (bin + b) + q) == (a + " " + q) + bin + (b + q);
    assert a + " " + q == "client-connect \"" && b + q == " hook connect\"";
  }

  lemma DisconnectText(bin: string)
    ensures Line("client-disconnect", InQuotes(bin + " hook disconnect")) == "client-disconnect \"" + bin + " hook disconnect\""
  {
    var a, b, q := "client-disconnect", " hook disconnect", "\"";
    assert (a + " ") + (q + (bin + b) + q) == (a + " " + q) + bin + (b + q);
    assert a + " " + q == "client-disconnect \"" && b + q == " hook disconnect\"";
  }

  lemma HookTexts(u: Setup)
    ensures HookLines(u)[0] == "client-connect \"" + u.bin + " hook connect\""
    ensures HookLines(u)[1] == "client-disconnect \"" + u.bin + " hook disconnect\""
  {
    hide Line, InQuotes;
    ConnectText(u.bin);
    DisconnectText(u.bin);
  }

  /** MAIN: in a repaired file the one client-connect line runs the agent's connect hook, and the one client-disconnect
      line its disconnect hook. */
  lemma RepairedHooks(u: Setup, text: string)
    requires CleanSetup(u) && Named(IdentityIn(u, Lines(text)))
    ensures var lines := Lines(RepairOnce(u, text).0);
      && OnlyLine(lines, "client-connect", "client-connect \"" + u.bin + " hook connect\"")
      && OnlyLine(lines, "client-disconnect", "client-disconnect \"" + u.bin + " hook disconnect\"")
  {
    hide *;
    var id := IdentityIn(u, Lines(text));
    AgentLinesAre(u, id);
    HookTexts(u);
    HookKeys(u);
    LineInstalled(u, text, 0);
    LineInstalled(u, text, 1);
  }

  /** The one setenv line of a setting, whose value reads back. */
  ghost predicate Says(lines: seq<string>, name: string, value: string) {
    exists word :: Decoded(word) == Some(value) && OneWord(word)
                   && OnlyLine(lines, "setenv OVNODE_" + name, "setenv OVNODE_" + name + " " + word)
  }

  lemma SettingText(name: string, word: string)
    ensures EnvLine("OVNODE_" + name, word) == "setenv OVNODE_" + name + " " + word
  {
    var a, b := "setenv", "OVNODE_";
    assert (a + " ") + ((b + name + " ") + word) == (a + " " + b) + name + " " + word;
    assert a + " " + b == "setenv OVNODE_";
  }

  lemma SettingKey(name: string)
    ensures "setenv " + ("OVNODE_" + name) == "setenv OVNODE_" + name
  {
    var a, b := "setenv ", "OVNODE_";
    assert a + (b + name) == (a + b) + name;
    assert a + b == "setenv OVNODE_";
  }

  lemma EnvLineIs(u: Setup, id: Identity, i: nat)
    requires i < 15
    ensures EnvLines(u, id)[i] == EnvLine("OVNODE_" + SETTINGS[i], ConfigValue(Values(u, id)[i], u.wide))
    ensures EnvName(i) == "OVNODE_" + SETTINGS[i]
  {
    hide EnvLine, ConfigValue, Values;
  }

  /** The value of the i-th setting. */
  function SettingValue(u: Setup, id: Identity, i: nat): string
    requires i < 15
  {
    if i < 12 then u.exported[i] else if i == 12 then id.user else if i == 13 then id.group else u.exported[12]
  }

  lemma ValueAt(u: Setup, id: Identity, i: nat)
    requires i < 15
    ensures |SETTINGS| == 15 && Values(u, id)[i] == SettingValue(u, id, i)
  {
  }

  lemma RepairedSetting(u: Setup, text: string, i: nat)
    requires CleanSetup(u) && Named(IdentityIn(u, Lines(text))) && i < 15
    ensures Says(Lines(RepairOnce(u, text).0), SETTINGS[i], SettingValue(u, IdentityIn(u, Lines(text)), i))
  {
    hide *;
    var id, lines := IdentityIn(u, Lines(text)), Lines(RepairOnce(u, text).0);
    ValueAt(u, id, i);
    var value := SettingValue(u, id, i);
    var word := ConfigValue(value, u.wide);
    AgentLinesAre(u, id);
    EnvLineIs(u, id, i);
    EnvNameIsWord(i);
    EnvKey(EnvName(i), word);
    SettingText(SETTINGS[i], word);
    SettingKey(SETTINGS[i]);
    SettingReadsBack(value, u.wide);
    LineInstalled(u, text, 2 + i);
    SaysBy(lines, SETTINGS[i], value, word);
  }

  lemma SaysBy(lines: seq<string>, name: string, value: string, word: string)
    requires Decoded(word) == Some(value) && OneWord(word)
    requires OnlyLine(lines, "setenv OVNODE_" + name, "setenv OVNODE_" + name + " " + word)
    ensures Says(lines, name, value)
  {
    hide OnlyLine, Decoded, OneWord;
  }

  lemma SettingNames()
    ensures |SETTINGS| == 15
    ensures SETTINGS[0] == "OPENVPN_ROOT" && SETTINGS[1] == "DATA_DIR" && SETTINGS[2] == "USERS_DIR"
    ensures SETTINGS[3] == "SESSIONS_DIR" && SETTINGS[4] == "USAGE_DIR" && SETTINGS[5] == "STATUS_FILE"
    ensures SETTINGS[6] == "LOG_DIR" && SETTINGS[7] == "LOG_FILE" && SETTINGS[8] == "MANAGEMENT_HOST"
    ensures SETTINGS[9] == "MANAGEMENT_PORT" && SETTINGS[10] == "MGMT_PASS_FILE" && SETTINGS[11] == "ALLOW_REMOTE_MGMT"
    ensures SETTINGS[12] == "RUNTIME_USER" && SETTINGS[13] == "RUNTIME_GROUP" && SETTINGS[14] == "SESSION_TTL"
  {
  }

  /** MAIN: in a repaired file every setting has one setenv line, and the hooks read its value back from it; the runtime
      user and group are the ones that the environment or the file named before. */
  lemma RepairedSettings(u: Setup, text: string)
    requires CleanSetup(u) && Named(IdentityIn(u, Lines(text)))
    ensures var lines, id, v := Lines(RepairOnce(u, text).0), IdentityIn(u, Lines(text)), u.exported;
      && Says(lines, "OPENVPN_ROOT", v[0]) && Says(lines, "DATA_DIR", v[1]) && Says(lines, "USERS_DIR", v[2])
      && Says(lines, "SESSIONS_DIR", v[3]) && Says(lines, "USAGE_DIR", v[4]) && Says(lines, "STATUS_FILE", v[5])
      && Says(lines, "LOG_DIR", v[6]) && Says(lines, "LOG_FILE", v[7]) && Says(lines, "MANAGEMENT_HOST", v[8])
      && Says(lines, "MANAGEMENT_PORT", v[9]) && Says(lines, "MGMT_PASS_FILE", v[10])
      && Says(lines, "ALLOW_REMOTE_MGMT", v[11]) && Says(lines, "RUNTIME_USER", id.user)
      && Says(lines, "RUNTIME_GROUP", id.group) && Says(lines, "SESSION_TTL", v[12])
  {
    hide *;
    var id, lines := IdentityIn(u, Lines(text)), Lines(RepairOnce(u, text).0);
    SettingNames();
    SettingValues(u, id);
    forall i | 0 <= i < 15 ensures Says(lines, SETTINGS[i], SettingValue(u, id, i)) { RepairedSetting(u, text, i); }
  }

  lemma SettingValues(u: Setup, id: Identity)
    ensures forall i :: 0 <= i < 12 ==> SettingValue(u, id, i) == u.exported[i]
    ensures SettingValue(u, id, 12) == id.user && SettingValue(u, id, 13) == id.group
    ensures SettingValue(u, id, 14) == u.exported[12]
  {
  }

  /** The line has two words or more and starts with this one. */
  predicate NamesFirst(line: string, word: string) { |Fields(line)| >= 2 && Fields(line)[0] == word }

  /** Line i is the first to name this. */
  predicate FirstNaming(lines: seq<string>, word: string, i: nat) {
    i < |lines| && NamesFirst(lines[i], word) && forall j :: 0 <= j < i ==> !NamesFirst(lines[j], word)
  }

  lemma {:induction false} FirstGives(lines: seq<string>, word: string, fallback: string, i: nat)
    requires FirstNaming(lines, word, i)
    ensures Directive(lines, word, fallback) == TrimQuotes(Fields(lines[i])[1])
    decreases i
  {
    hide Fields, TrimQuotes;
    if i > 0 {
      assert !NamesFirst(lines[0], word) && forall j :: 0 <= j < |lines| - 1 ==> lines[1..][j] == lines[j + 1];
      FirstGives(lines[1..], word, fallback, i - 1);
    }
  }

  lemma {:induction false} NoneGives(lines: seq<string>, word: string, fallback: string)
    requires forall i :: 0 <= i < |lines| ==> !NamesFirst(lines[i], word)
    ensures Directive(lines, word, fallback) == fallback
    decreases |lines|
  {
    hide Fields, TrimQuotes;
    if lines != [] {
      assert !NamesFirst(lines[0], word) && forall j :: 0 <= j < |lines| - 1 ==> lines[1..][j] == lines[j + 1];
      NoneGives(lines[1..], word, fallback);
    }
  }

  /** MAIN: the runtime user and group are the environment's; else the second word, without quotes, of the first line that
      names one; else nobody and nogroup. */
  lemma IdentityReadsExactly(u: Setup, text: string, i: nat)
    ensures var lines, id := Lines(text), IdentityIn(u, Lines(text));
      && (u.user != "" ==> id.user == u.user) && (u.group != "" ==> id.group == u.group)
      && (u.user == "" && FirstNaming(lines, "user", i) ==> id.user == TrimQuotes(Fields(lines[i])[1]))
      && (u.group == "" && FirstNaming(lines, "group", i) ==> id.group == TrimQuotes(Fields(lines[i])[1]))
      && (u.user == "" && (forall j :: 0 <= j < |lines| ==> !NamesFirst(lines[j], "user")) ==> id.user == "nobody")
      && (u.group == "" && (forall j :: 0 <= j < |lines| ==> !NamesFirst(lines[j], "group")) ==> id.group == "nogroup")
  {
    hide TrimQuotes, Lines, Directive, Fields;
    var lines := Lines(text);
    if FirstNaming(lines, "user", i) { FirstGives(lines, "user", "nobody", i); }
    if FirstNaming(lines, "group", i) { FirstGives(lines, "group", "nogroup", i); }
    if forall j :: 0 <= j < |lines| ==> !NamesFirst(lines[j], "user") { NoneGives(lines, "user", "nobody"); }
    if forall j :: 0 <= j < |lines| ==> !NamesFirst(lines[j], "group") { NoneGives(lines, "group", "nogroup"); }
  }

  /** MAIN: a repaired file names the user and group that the environment or the file named before, on one line each. */
  lemma RepairedIdentity(u: Setup, text: string)
    requires CleanSetup(u) && Named(IdentityIn(u, Lines(text)))
    ensures var lines, id := Lines(RepairOnce(u, text).0), IdentityIn(u, Lines(text));
      OnlyLine(lines, "user", "user " + id.user) && OnlyLine(lines, "group", "group " + id.group)
  {
    hide *;
    var id := IdentityIn(u, Lines(text));
    AgentLinesAre(u, id);
    RuntimeKeys(id);
    RuntimeTexts(id);
    LineInstalled(u, text, 17);
    LineInstalled(u, text, 18);
  }

  lemma RuntimeTexts(id: Identity)
    ensures RuntimeLines(id)[0] == "user " + id.user && RuntimeLines(id)[1] == "group " + id.group
  {
    assert "user" + " " == "user " && "group" + " " == "group ";
  }

  lemma RequiredHeads()
    ensures Line("tls-version-min", "1.3") == "tls-version-min 1.3" && Line("remote-cert-tls", "client") == "remote-cert-tls client"
    ensures Line("script-security", "2") == "script-security 2" && Line("status-version", "3") == "status-version 3"
  {
  }

  lemma RequiredTails(port: string, word: string, pid: string, crl: string)
    ensures Line("management", "127.0.0.1 " + port + " " + word) == "management 127.0.0.1 " + port + " " + word
    ensures Line("writepid", pid) == "writepid " + pid && Line("crl-verify", crl) == "crl-verify " + crl
  {
    var a, b := "management", "127.0.0.1 ";
    assert (a + " ") + ((b + port + " ") + word) == (a + " " + b) + port + " " + word;
    assert a + " " + b == "management 127.0.0.1 " && "writepid" + " " == "writepid " && "crl-verify" + " " == "crl-verify ";
  }

  lemma RequiredIs(u: Setup)
    ensures var r, word := RequiredLines(u), ConfigValue(u.exported[10], u.wide);
      && "tls-version-min 1.3" in r && "remote-cert-tls client" in r && "script-security 2" in r && "status-version 3" in r
      && "duplicate-cn" in r && "writepid " + u.pidFile in r && "crl-verify " + u.crlFile in r
      && "management 127.0.0.1 " + Text.Render(u.port, 10) + " " + word in r
  {
    hide Line, ConfigValue, Text.Render;
    RequiredHeads();
    RequiredTails(Text.Render(u.port, 10), ConfigValue(u.exported[10], u.wide), u.pidFile, u.crlFile);
    var r := RequiredLines(u);
    assert r[0] in r && r[1] in r && r[2] in r && r[3] in r && r[4] in r && r[5] in r && r[6] in r && r[7] in r;
  }

  lemma PresentHas(lines: seq<string>, d: string)
    requires d in Present(lines)
    ensures HasLine(lines, d)
  {
    hide Text.TrimSpace;
  }

  /** MAIN: a repaired file has all eight required lines, the management line with the port and the password file. */
  lemma RepairedRequirements(u: Setup, text: string)
    requires CleanSetup(u) && Named(IdentityIn(u, Lines(text)))
    ensures var lines := Lines(RepairOnce(u, text).0);
      && HasLine(lines, "tls-version-min 1.3") && HasLine(lines, "remote-cert-tls client")
      && HasLine(lines, "script-security 2") && HasLine(lines, "status-version 3") && HasLine(lines, "duplicate-cn")
      && HasLine(lines, "writepid " + u.pidFile) && HasLine(lines, "crl-verify " + u.crlFile)
      && exists word :: Decoded(word) == Some(u.exported[10]) && OneWord(word)
                        && HasLine(lines, "management 127.0.0.1 " + Text.Render(u.port, 10) + " " + word)
  {
    hide *;
    var lines, word := Lines(RepairOnce(u, text).0), ConfigValue(u.exported[10], u.wide);
    RequiredIs(u);
    SettingReadsBack(u.exported[10], u.wide);
    forall d | d in RequiredLines(u) ensures HasLine(lines, d) {
      RepairInstalls(u, text);
      PresentHas(lines, d);
    }
    assert HasLine(lines, "management 127.0.0.1 " + Text.Render(u.port, 10) + " " + word);
  }

  /** MAIN: a call that fails leaves the file as it is; one that succeeds and reports no change does too; without the
      management password or with an unreadable file every call fails. For a clean setup and a file that names user
      and group, a call that succeeds is followed by one that finds nothing to do. */
  lemma EnsureSettles(conf: File, u: Setup, initial: string, password: bool, writes: bool, writes2: bool)
    ensures var (next, r) := Ensured(conf, u, initial, password, writes);
      && (r.Err? || r == Ok(false) ==> next == conf)
      && (!password || conf == Unreadable ==> r.Err?)
      && (conf == Absent && r.Ok? ==> next == Holds(initial) && initial != "")
      && (conf.Holds? && CleanSetup(u) && Named(IdentityIn(u, Lines(conf.text))) && r.Ok? ==>
            Ensured(next, u, initial, true, writes2) == (next, Ok(false)))
  {
    hide RepairOnce, CleanSetup, Named, IdentityIn, Lines;
    if conf.Holds? {
      RepairIsProjection(u, conf.text);
      UnchangedKeeps(u, conf.text);
      UnchangedKeeps(u, RepairOnce(u, conf.text).0);
    }
  }

  lemma UnchangedKeeps(u: Setup, text: string)
    ensures !RepairOnce(u, text).1 ==> RepairOnce(u, text).0 == text
  {
    hide WantedFor, UpToDate, NewLines;
  }
}
