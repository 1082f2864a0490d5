/** Which of the lines that the agent wants in server.conf read back as themselves. */
module ConfTidy {
  import opened ServerConf
  import opened ConfRepair
  import opened AgentDirectives
  import Text

  // ----- tidy lines --------------------------------------------------------------------------------

  /** A value after which nothing is trimmed. */
  predicate Solid(v: string) { v != "" && !Text.IsSpace(v[|v| - 1]) && '\n' !in v }

  /** A setting that is exported as it should be. */
  predicate Exportable(v: string) { v != "" && (NeedsQuotes(v) || !Text.IsSpace(v[|v| - 1])) }

  lemma TidyExactly(l: string)
    ensures Tidy(l) <==> '\n' !in l && Text.Trimmed(l)
  {
  }

  lemma ValueSolid(v: string, wide: char -> bool)
    ensures Solid(ConfigValue(v, wide)) <==> Exportable(v)
    ensures Solid(v) ==> Exportable(v)
  {
    if NeedsQuotes(v) {
      var q := ConfigValue(v, wide);
      assert q[|q| - 1] == '"';
      assert '\n' !in EscapeAll(v, wide);
    }
  }

  lemma LineEnds(w: string, v: string)
    requires IsWord(w)
    ensures var l := Line(w, v);
      && l[0] == w[0] && l[|l| - 1] == (if v == "" then ' ' else v[|v| - 1])
      && ('\n' !in l <==> '\n' !in v)
  {
    assert forall c :: c in Line(w, v) <==> c in w || c == ' ' || c in v;
    assert '\n' !in w;
  }

  /** A line is tidy exactly when its value is solid. */
  lemma LineTidy(w: string, v: string)
    requires IsWord(w)
    ensures Tidy(Line(w, v)) <==> Solid(v)
    ensures Solid(Line(w, v)) <==> Solid(v)
  {
    LineEnds(w, v);
    TidyExactly(Line(w, v));
    hide Tidy, Line;
  }

  lemma QuotedSolid(v: string)
    ensures Solid(InQuotes(v)) <==> '\n' !in v
  {
    assert forall c :: c in InQuotes(v) <==> c == '"' || c in v;
  }

  lemma HookTidy(word: string, bin: string, rest: string)
    requires IsWord(word) && '\n' !in rest
    ensures Tidy(Line(word, InQuotes(bin + rest))) <==> '\n' !in bin
  {
    hide Tidy, Solid, Line, IsWord, InQuotes;
    LineTidy(word, InQuotes(bin + rest));
    QuotedSolid(bin + rest);
    assert forall c :: c in bin + rest <==> c in bin || c in rest;
  }

  predicate EachTidy(lines: seq<string>) { forall i :: 0 <= i < |lines| ==> Tidy(lines[i]) }

  lemma EachIsAll(lines: seq<string>)
    ensures EachTidy(lines) <==> forall d :: d in lines ==> Tidy(d)
  {
    hide Tidy;
    assert forall i :: 0 <= i < |lines| ==> lines[i] in lines;
  }

  lemma EachOfParts(a: seq<string>, b: seq<string>, c: seq<string>)
    ensures EachTidy(a + b + c) <==> EachTidy(a) && EachTidy(b) && EachTidy(c)
  {
    hide Tidy;
    var all := a + b + c;
    assert forall i :: 0 <= i < |a| ==> all[i] == a[i];
    assert forall i :: 0 <= i < |b| ==> all[|a| + i] == b[i];
    assert forall i :: 0 <= i < |c| ==> all[|a| + |b| + i] == c[i];
  }

  lemma PairTidy(a: string, b: string)
    ensures EachTidy([a, b]) <==> Tidy(a) && Tidy(b)
  {
    hide Tidy;
    assert [a, b][0] == a && [a, b][1] == b;
  }

  lemma ConnectTidy(bin: string)
    ensures Tidy(Line("client-connect", InQuotes(bin + " hook connect"))) <==> '\n' !in bin
  {
    assert IsWord("client-connect");
    hide Tidy, Line, IsWord, InQuotes;
    HookTidy("client-connect", bin, " hook connect");
  }

  lemma DisconnectTidy(bin: string)
    ensures Tidy(Line("client-disconnect", InQuotes(bin + " hook disconnect"))) <==> '\n' !in bin
  {
    assert IsWord("client-disconnect");
    hide Tidy, Line, IsWord, InQuotes;
    HookTidy("client-disconnect", bin, " hook disconnect");
  }

  lemma HooksTidy(u: Setup)
    ensures EachTidy(HookLines(u)) <==> '\n' !in u.bin
  {
    hide Tidy, EachTidy, Line, InQuotes;
    ConnectTidy(u.bin);
    DisconnectTidy(u.bin);
    PairTidy(HookLines(u)[0], HookLines(u)[1]);
  }

  lemma RuntimeTidy(id: Identity)
    ensures EachTidy(RuntimeLines(id)) <==> Solid(id.user) && Solid(id.group)
  {
    assert IsWord("user") && IsWord("group");
    hide Tidy, EachTidy, Solid, Line, IsWord;
    LineTidy("user", id.user);
    LineTidy("group", id.group);
    PairTidy(RuntimeLines(id)[0], RuntimeLines(id)[1]);
  }

  lemma EnvLineTidy(i: nat, v: string, wide: char -> bool)
    requires i < |SETTINGS|
    ensures Tidy(EnvLine(EnvName(i), ConfigValue(v, wide))) <==> Exportable(v)
  {
    EnvNameIsWord(i);
    assert IsWord("setenv");
    hide EnvName, Tidy, Solid, Exportable, Line, IsWord, ConfigValue;
    LineTidy("setenv", Line(EnvName(i), ConfigValue(v, wide)));
    LineTidy(EnvName(i), ConfigValue(v, wide));
    ValueSolid(v, wide);
  }

  lemma EnvTidy(u: Setup, id: Identity)
    ensures EachTidy(EnvLines(u, id)) <==> forall v :: v in Values(u, id) ==> Exportable(v)
  {
    hide Tidy, Exportable, EnvName, EnvLine, ConfigValue;
    var vs := Values(u, id);
    forall i | 0 <= i < |SETTINGS| ensures Tidy(EnvLines(u, id)[i]) <==> Exportable(vs[i]) {
      EnvLineTidy(i, vs[i], u.wide);
    }
    assert forall i :: 0 <= i < |SETTINGS| ==> vs[i] in vs;
  }

  lemma ValuesAre(u: Setup, id: Identity)
    ensures forall v :: v in Values(u, id) <==> v in u.exported || v == id.user || v == id.group
  {
    assert u.exported == u.exported[..RUNTIME_USER] + u.exported[RUNTIME_USER..];
  }

  /** What the agent's own lines need to read back as themselves. */
  predicate CleanLines(u: Setup, id: Identity) {
    '\n' !in u.bin && (forall v :: v in u.exported ==> Exportable(v)) && Solid(id.user) && Solid(id.group)
  }

  lemma AgentTidy(u: Setup, id: Identity)
    ensures EachTidy(AgentLines(u, id)) <==> CleanLines(u, id)
  {
    ValueSolid(id.user, u.wide);
    ValueSolid(id.group, u.wide);
    hide Tidy, Solid, Exportable, EachTidy, HookLines, EnvLines, RuntimeLines, Values, ConfigValue;
    HooksTidy(u);
    EnvTidy(u, id);
    RuntimeTidy(id);
    ValuesAre(u, id);
    EachOfParts(HookLines(u), EnvLines(u, id), RuntimeLines(id));
  }

  lemma ConstantsTidy()
    ensures Solid("1.3") && Solid("client") && Solid("2") && Solid("3") && Tidy("duplicate-cn")
  {
    TidyExactly("duplicate-cn");
    hide Tidy;
  }

  lemma RequiredLineTidy(u: Setup, i: nat)
    requires i < |RequiredLines(u)| && i != 6
    ensures Tidy(RequiredLines(u)[i]) <==> Solid(RequiredValue(u, i))
  {
    RequiredWord(i);
    hide Tidy, Solid, IsWord, Line, ConfigValue, Text.Render, RequiredValue;
    RequiredLineIs(u, i);
    LineTidy(RequiredKeys()[i], RequiredValue(u, i));
  }

  lemma RequiredLineIs(u: Setup, i: nat)
    requires i < |RequiredLines(u)| && i != 6
    ensures i < |RequiredKeys()| && RequiredLines(u)[i] == Line(RequiredKeys()[i], RequiredValue(u, i))
  {
    hide Line, ConfigValue, Text.Render;
  }

  lemma PortSolid(u: Setup)
    ensures var v := ConfigValue(u.exported[PASS_FILE], u.wide);
      Solid("127.0.0.1 " + Text.Render(u.port, 10) + " " + v) <==> Solid(v)
  {
    hide ConfigValue;
    var v, head := ConfigValue(u.exported[PASS_FILE], u.wide), "127.0.0.1 " + Text.Render(u.port, 10) + " ";
    var l := head + v;
    assert '\n' !in head by { assert forall c :: c in Text.Render(u.port, 10) ==> Text.IsDigit(c); }
    assert forall c :: c in l <==> c in head || c in v;
    assert l[|l| - 1] == if v == "" then ' ' else v[|v| - 1];
  }

  /** What the i-th required line needs to be tidy. */
  predicate RequiredOk(u: Setup, i: nat) {
    if i == 2 then Exportable(u.exported[PASS_FILE])
    else if i == 3 then Solid(u.pidFile)
    else i == 7 ==> Solid(u.crlFile)
  }

  lemma RequiredValueOk(u: Setup, i: nat)
    requires i < 8 && i != 6
    ensures Solid(RequiredValue(u, i)) <==> RequiredOk(u, i)
  {
    ConstantsTidy();
    hide Tidy, Solid, Exportable, ConfigValue, Text.Render;
    if i == 2 {
      PortSolid(u);
      ValueSolid(u.exported[PASS_FILE], u.wide);
    }
  }

  lemma RequiredTidyAt(u: Setup, i: nat)
    requires i < |RequiredLines(u)|
    ensures Tidy(RequiredLines(u)[i]) <==> RequiredOk(u, i)
  {
    RequiredCount(u);
    hide Tidy, Solid, Exportable, RequiredOk, RequiredLines, RequiredValue;
    if i == 6 {
      ConstantsTidy();
      BareLineOk(u);
    } else {
      RequiredLineTidy(u, i);
      RequiredValueOk(u, i);
    }
  }

  lemma RequiredCount(u: Setup)
    ensures |RequiredLines(u)| == 8 && RequiredLines(u)[6] == "duplicate-cn"
  {
    hide Line, ConfigValue, Text.Render;
  }

  lemma BareLineOk(u: Setup)
    ensures RequiredOk(u, 6)
  {
  }

  lemma RequiredTidy(u: Setup)
    ensures EachTidy(RequiredLines(u)) <==>
      Exportable(u.exported[PASS_FILE]) && Solid(u.pidFile) && Solid(u.crlFile)
  {
    hide Tidy, Solid, Exportable, RequiredLines;
    RequiredCount(u);
    forall i | 0 <= i < 8 ensures Tidy(RequiredLines(u)[i]) <==> RequiredOk(u, i) { RequiredTidyAt(u, i); }
    assert RequiredOk(u, 2) && RequiredOk(u, 3) && RequiredOk(u, 7) <==>
      Exportable(u.exported[PASS_FILE]) && Solid(u.pidFile) && Solid(u.crlFile);
  }
}
