/** The lines that the agent wants in server.conf, where the runtime user and group may come from the file
    itself, and when their repair settles (internal/ovpn/serverconf.go:210-280, internal/fsx/permissions.go:19-49). */
module AgentDirectives {
  import opened ServerConf
  import opened ConfRepair
  import Text

  // ----- the directive of each line --------------------------------------------------------------------

  predicate IsWord(w: string) { w != "" && forall i :: 0 <= i < |w| ==> !Text.IsSpace(w[i]) && !IsQuote(w[i]) }

  lemma {:induction false} WordEnds(w: string, rest: string)
    requires forall i :: 0 <= i < |w| ==> !Text.IsSpace(w[i])
    ensures WordLength(w + " " + rest) == |w|
  {
    var s := w + " " + rest;
    if w != "" {
      assert s[0] == w[0] && s[1..] == w[1..] + " " + rest;
      WordEnds(w[1..], rest);
    } else {
      assert s[0] == ' ';
    }
  }

  lemma FieldsWord(w: string, rest: string)
    requires IsWord(w)
    ensures Fields(w + " " + rest) == [w] + Fields(rest)
  {
    var s := w + " " + rest;
    WordEnds(w, rest);
    assert s[0] == w[0] && s[..|w|] == w && s[|w|..] == " " + rest;
    assert (" " + rest)[1..] == rest;
    assert Fields(" " + rest) == Fields(rest);
  }

  lemma DirectiveKey(w: string, rest: string)
    requires IsWord(w) && w != "setenv"
    ensures Key(Line(w, rest)) == w
  {
    FieldsWord(w, rest);
  }

  lemma EnvKey(name: string, value: string)
    requires IsWord(name)
    ensures Key(EnvLine(name, value)) == "setenv " + name
  {
    assert IsWord("setenv");
    FieldsWord("setenv", Line(name, value));
    FieldsWord(name, value);
    assert TrimQuotes(name) == name;
  }

  // ----- the settings' names are different words ----------------------------------------------------------

  predicate IsSettingChar(c: char) { 'A' <= c <= 'Z' || c == '_' }

  predicate IsSetting(s: string) { |s| >= 4 && forall i :: 0 <= i < |s| ==> IsSettingChar(s[i]) }

  /** A number that tells the settings apart: length, third character, fourth from the end. */
  function Tag(s: string): int
    requires |s| >= 4
  {
    (|s| * 256 + s[2] as int) * 256 + s[|s| - 4] as int
  }

  const TAGS: seq<int> := [
    804178, 545887, 607583, 807775, 606559, 737606, 477023, 542534, 1003080, 1003088, 937286, 1133645, 806485, 872018,
    742239]

  lemma FirstSettings(i: nat)
    requires i < 5
    ensures IsSetting(SETTINGS[i]) && Tag(SETTINGS[i]) == TAGS[i]
  {
  }

  lemma MiddleSettings(i: nat)
    requires 5 <= i < 10
    ensures IsSetting(SETTINGS[i]) && Tag(SETTINGS[i]) == TAGS[i]
  {
  }

  lemma LastSettings(i: nat)
    requires 10 <= i < 15
    ensures IsSetting(SETTINGS[i]) && Tag(SETTINGS[i]) == TAGS[i]
  {
  }

  lemma SettingTag(i: nat)
    requires i < |SETTINGS|
    ensures IsSetting(SETTINGS[i]) && Tag(SETTINGS[i]) == TAGS[i]
  {
    hide IsSetting, Tag;
    if i < 5 { FirstSettings(i); } else if i < 10 { MiddleSettings(i); } else { LastSettings(i); }
  }

  lemma SettingsDiffer(i: nat, j: nat)
    requires i < j < |SETTINGS|
    ensures SETTINGS[i] != SETTINGS[j]
  {
    hide IsSetting, Tag;
    SettingTag(i);
    SettingTag(j);
    assert TAGS[i] != TAGS[j];
  }

  lemma EnvNameIsWord(i: nat)
    requires i < |SETTINGS|
    ensures IsWord(EnvName(i))
  {
    SettingTag(i);
    hide Tag;
    assert forall k :: 0 <= k < |EnvName(i)| ==> IsSettingChar(EnvName(i)[k]);
  }

  lemma EnvNamesDiffer(i: nat, j: nat)
    requires i < j < |SETTINGS|
    ensures "setenv " + EnvName(i) != "setenv " + EnvName(j)
  {
    SettingsDiffer(i, j);
    CancelPrefix("OVNODE_", SETTINGS[i], SETTINGS[j]);
    CancelPrefix("setenv ", EnvName(i), EnvName(j));
  }

  lemma CancelPrefix(prefix: string, a: string, b: string)
    requires a != b
    ensures prefix + a != prefix + b
  {
    assert (prefix + a)[|prefix|..] == a && (prefix + b)[|prefix|..] == b;
  }

  // ----- the directives that the lines own --------------------------------------------------------------------

  function EnvKeys(): seq<string> { seq(|SETTINGS|, i requires 0 <= i < |SETTINGS| => "setenv " + EnvName(i)) }

  /** The owned directives, in the order of their lines. */
  function AgentKeys(): seq<string> { ["client-connect", "client-disconnect"] + EnvKeys() + ["user", "group"] }

  lemma HookKeys(u: Setup)
    ensures Key(HookLines(u)[0]) == "client-connect" && Key(HookLines(u)[1]) == "client-disconnect"
  {
    hide Key, Fields, Line, InQuotes;
    DirectiveKey("client-connect", InQuotes(u.bin + " hook connect"));
    DirectiveKey("client-disconnect", InQuotes(u.bin + " hook disconnect"));
  }

  lemma RuntimeKeys(id: Identity)
    ensures Key(RuntimeLines(id)[0]) == "user" && Key(RuntimeLines(id)[1]) == "group"
  {
    hide Key, Fields, Line;
    DirectiveKey("user", id.user);
    DirectiveKey("group", id.group);
  }

  lemma LineCounts(u: Setup, id: Identity)
    ensures |HookLines(u)| == 2 && |EnvLines(u, id)| == |SETTINGS| == |EnvKeys()| && |RuntimeLines(id)| == 2
  {
  }

  lemma LineKey(u: Setup, id: Identity, i: nat)
    requires i < |AgentLines(u, id)|
    ensures Key(AgentLines(u, id)[i]) == AgentKeys()[i]
  {
    LineCounts(u, id);
    hide Key, EnvName, HookLines, RuntimeLines, Values, ConfigValue;
    HookKeys(u);
    RuntimeKeys(id);
    if 2 <= i < 2 + |SETTINGS| {
      EnvNameIsWord(i - 2);
      EnvKey(EnvName(i - 2), ConfigValue(Values(u, id)[i - 2], u.wide));
    }
  }

  lemma EnvKeyIsEnv(i: nat)
    requires i < |SETTINGS|
    ensures EnvKeys()[i] == "setenv " + EnvName(i) && EnvKeys()[i][0] == 's' && EnvKeys()[i][6] == ' '
  {
    hide EnvName;
  }

  lemma KeysDiffer(i: nat, j: nat)
    requires i < j < |AgentKeys()|
    ensures AgentKeys()[i] != AgentKeys()[j]
  {
    hide EnvName, EnvKeys;
    var n := |SETTINGS|;
    assert |EnvKeys()| == n by { KeyCount(); }
    if 2 <= i < 2 + n { EnvKeyIsEnv(i - 2); }
    if 2 <= j < 2 + n { EnvKeyIsEnv(j - 2); }
    if 2 <= i && j < 2 + n { EnvNamesDiffer(i - 2, j - 2); }
  }

  lemma KeyCount()
    ensures |EnvKeys()| == |SETTINGS|
  {
  }

  lemma OwnedKeys(u: Setup, id: Identity)
    ensures DistinctKeys(AgentLines(u, id)) && |AgentLines(u, id)| == |AgentKeys()|
    ensures forall k :: k in Owned(AgentLines(u, id)) <==> k in AgentKeys()
    ensures "" !in Owned(AgentLines(u, id))
  {
    LineCounts(u, id);
    hide Key, EnvName, EnvLine, EnvLines, HookLines, RuntimeLines;
    var lines, keys := AgentLines(u, id), AgentKeys();
    assert |lines| == |keys|;
    forall i | 0 <= i < |lines| ensures Key(lines[i]) == keys[i] && keys[i] != "" {
      LineKey(u, id, i);
      if 2 <= i < 2 + |SETTINGS| { EnvKeyIsEnv(i - 2); }
    }
    forall i, j | 0 <= i < j < |lines| ensures Key(lines[i]) != Key(lines[j]) { KeysDiffer(i, j); }
    forall k | k in keys ensures k in Owned(lines) {
      var i :| 0 <= i < |keys| && keys[i] == k;
      assert lines[i] in lines;
    }
  }

  // ----- the required lines are about other directives --------------------------------------------------------

  function RequiredKeys(): seq<string> {
    ["tls-version-min", "remote-cert-tls", "management", "writepid", "script-security", "status-version", "duplicate-cn",
     "crl-verify"]
  }

  lemma WordKey(w: string)
    requires IsWord(w) && w != "setenv"
    ensures Key(w) == w
  {
    WordAlone(w);
  }

  lemma {:induction false} WordAlone(w: string)
    requires IsWord(w)
    ensures Fields(w) == [w]
  {
    WholeWord(w);
    assert w[..|w|] == w && w[|w|..] == "";
  }

  lemma {:induction false} WholeWord(w: string)
    requires forall i :: 0 <= i < |w| ==> !Text.IsSpace(w[i])
    ensures WordLength(w) == |w|
  {
    if w != "" { WholeWord(w[1..]); }
  }

  lemma RequiredWord(i: nat)
    requires i < |RequiredKeys()|
    ensures IsWord(RequiredKeys()[i]) && RequiredKeys()[i] != "setenv"
  {
    var k := RequiredKeys()[i];
    assert |k| >= 7;
    assert forall j :: 0 <= j < |k| ==> 'a' <= k[j] <= 'z' || k[j] == '-';
  }

  lemma RequiredLineKey(u: Setup, i: nat)
    requires i < |RequiredLines(u)|
    ensures |RequiredLines(u)| == |RequiredKeys()| && Key(RequiredLines(u)[i]) == RequiredKeys()[i]
  {
    RequiredWord(i);
    hide Key, Fields, Line, ConfigValue, Text.Render, IsWord;
    var k := RequiredKeys()[i];
    if i == 6 { WordKey(k); } else { DirectiveKey(k, RequiredValue(u, i)); }
  }

  /** What follows the directive of a required line. */
  function RequiredValue(u: Setup, i: nat): string {
    if i == 0 then "1.3" else if i == 1 then "client"
    else if i == 2 then "127.0.0.1 " + Text.Render(u.port, 10) + " " + ConfigValue(u.exported[PASS_FILE], u.wide)
    else if i == 3 then u.pidFile else if i == 4 then "2" else if i == 5 then "3" else u.crlFile
  }

  lemma RequiredKeysForeign(i: nat)
    requires i < |RequiredKeys()|
    ensures RequiredKeys()[i] !in AgentKeys()
  {
    hide EnvName, EnvKeys;
    KeyCount();
    var k := RequiredKeys()[i];
    assert |k| >= 7 && k[6] != ' ';
    forall j | 0 <= j < |AgentKeys()| ensures AgentKeys()[j] != k {
      if 2 <= j < 2 + |SETTINGS| { EnvKeyIsEnv(j - 2); }
    }
  }

  lemma RequiredIsForeign(u: Setup)
    ensures forall d :: d in RequiredLines(u) ==> Key(d) !in AgentKeys()
  {
    hide Key, AgentKeys, ConfigValue, Text.Render;
    forall i | 0 <= i < |RequiredLines(u)| ensures Key(RequiredLines(u)[i]) !in AgentKeys() {
      RequiredLineKey(u, i);
      RequiredKeysForeign(i);
    }
  }
}
