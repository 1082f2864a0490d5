/** When the repair of server.conf settles, given that the lines it wants depend on the file. */
module ConfSettles {
  import opened ServerConf
  import opened ConfRepair
  import opened AgentDirectives
  import opened ConfTidy
  import Text

  // ----- the identity that a file names -------------------------------------------------------------------

  predicate NoSpace(s: string) { forall i :: 0 <= i < |s| ==> !Text.IsSpace(s[i]) }

  lemma {:induction false} WordNoSpace(s: string)
    ensures NoSpace(s[..WordLength(s)])
  {
    if s != "" && !Text.IsSpace(s[0]) {
      WordNoSpace(s[1..]);
      assert forall i :: 0 < i < WordLength(s) ==> s[..WordLength(s)][i] == s[1..][..WordLength(s[1..])][i - 1];
    }
  }

  lemma {:induction false} FieldsNoSpace(s: string)
    ensures forall i :: 0 <= i < |Fields(s)| ==> Fields(s)[i] != "" && NoSpace(Fields(s)[i])
    decreases |s|
  {
    if s == "" {
    } else if Text.IsSpace(s[0]) {
      FieldsNoSpace(s[1..]);
    } else {
      WordNoSpace(s);
      FieldsNoSpace(s[WordLength(s)..]);
    }
  }

  /** Trimming quotes off is done once it is done. */
  lemma {:induction false} TrimQuotesOnce(s: string)
    requires NoSpace(s)
    ensures NoSpace(TrimQuotes(s)) && TrimQuotes(TrimQuotes(s)) == TrimQuotes(s)
    decreases |s|
  {
    if s != "" && IsQuote(s[0]) { TrimQuotesOnce(s[1..]); }
    else if s != "" && IsQuote(s[|s| - 1]) { TrimQuotesOnce(s[..|s| - 1]); }
  }

  /** A value as a file can give it. */
  predicate Bare(v: string) { NoSpace(v) && TrimQuotes(v) == v }

  lemma {:induction false} DirectiveIsBare(lines: seq<string>, name: string, fallback: string)
    requires Bare(fallback)
    ensures Bare(Directive(lines, name, fallback))
  {
    if lines != [] {
      var f := Fields(lines[0]);
      if |f| >= 2 && f[0] == name {
        FieldsNoSpace(lines[0]);
        TrimQuotesOnce(f[1]);
      } else {
        DirectiveIsBare(lines[1..], name, fallback);
      }
    }
  }

  /** Both names are there. */
  predicate Named(id: Identity) { id.user != "" && id.group != "" }

  /** A setup whose directives can be read back, whatever user and group the file names. */
  predicate CleanSetup(u: Setup) {
    && '\n' !in u.bin && (forall v :: v in u.exported ==> Exportable(v))
    && Solid(u.pidFile) && Solid(u.crlFile)
    && (u.user != "" ==> Solid(u.user)) && (u.group != "" ==> Solid(u.group))
  }

  lemma BareIsSolid(v: string)
    requires NoSpace(v)
    ensures Solid(v) <==> v != ""
    ensures '\n' !in v
  {
    assert Text.IsSpace('\n');
    assert forall c :: c in v ==> !Text.IsSpace(c);
  }

  lemma IdentitySolid(u: Setup, lines: seq<string>)
    ensures var id := IdentityIn(u, lines);
      && (Solid(id.user) <==> if u.user != "" then Solid(u.user) else id.user != "")
      && (Solid(id.group) <==> if u.group != "" then Solid(u.group) else id.group != "")
      && ((u.user == "" || '\n' !in u.user) ==> '\n' !in id.user)
      && ((u.group == "" || '\n' !in u.group) ==> '\n' !in id.group)
      && (u.user == "" ==> Bare(id.user)) && (u.group == "" ==> Bare(id.group))
  {
    assert Bare("nobody") && Bare("nogroup");
    hide Bare;
    DirectiveIsBare(lines, "user", "nobody");
    DirectiveIsBare(lines, "group", "nogroup");
    var id := IdentityIn(u, lines);
    if u.user == "" { BareNoSpace(id.user); BareIsSolid(id.user); }
    if u.group == "" { BareNoSpace(id.group); BareIsSolid(id.group); }
  }

  lemma BareNoSpace(v: string)
    requires Bare(v)
    ensures NoSpace(v)
  {
  }

  /** The lines wanted of a text settle exactly for a clean setup and a text that names user and group. */
  lemma SettlesExactly(u: Setup, text: string)
    ensures var w, id := WantedFor(u, text), IdentityIn(u, Lines(text));
      && (AllTidy(w) <==> CleanSetup(u) && Named(id))
      && (Settles(w) <==> AllTidy(w))
      && (CleanSetup(u) ==> Separate(w))
  {
    var id := IdentityIn(u, Lines(text));
    SolidIsNotEmpty(id.user);
    SolidIsNotEmpty(id.group);
    assert u.exported[PASS_FILE] in u.exported;
    IdentitySolid(u, Lines(text));
    AgentTidy(u, id);
    RequiredTidy(u);
    EachIsAll(AgentLines(u, id));
    EachIsAll(RequiredLines(u));
    OwnedKeys(u, id);
    RequiredIsForeign(u);
    if CleanSetup(u) { CleanNoBreaks(u, id); }
    hide Tidy, Solid, Exportable, EachTidy, Key, AgentLines, AgentKeys, RequiredLines, IdentityIn, Lines, Owned,
      NoBreaks, DistinctKeys,
      Bare;
  }

  lemma SolidIsNotEmpty(v: string)
    ensures Solid(v) ==> v != "" && '\n' !in v
  {
  }

  /** Even without a user or group, the wanted lines of a clean setup have no line breaks. */
  lemma CleanNoBreaks(u: Setup, id: Identity)
    requires CleanSetup(u) && '\n' !in id.user && '\n' !in id.group
    ensures NoBreaks(AgentLines(u, id)) && NoBreaks(RequiredLines(u))
  {
    assert u.exported[PASS_FILE] in u.exported;
    hide Tidy, Solid, Exportable, EachTidy, HookLines, EnvLines, RuntimeLines, RequiredLines;
    HooksTidy(u);
    RequiredTidy(u);
    TidyNoBreaks(HookLines(u));
    TidyNoBreaks(RequiredLines(u));
    EnvNoBreaks(u, id);
    RuntimeNoBreaks(id);
    assert forall d :: d in AgentLines(u, id) <==> d in HookLines(u) || d in EnvLines(u, id) || d in RuntimeLines(id);
  }

  lemma TidyNoBreaks(lines: seq<string>)
    requires EachTidy(lines)
    ensures NoBreaks(lines)
  {
    hide Text.TrimSpace;
  }

  lemma RuntimeNoBreaks(id: Identity)
    requires '\n' !in id.user && '\n' !in id.group
    ensures NoBreaks(RuntimeLines(id))
  {
    assert IsWord("user") && IsWord("group");
    hide Line, IsWord;
    LineEnds("user", id.user);
    LineEnds("group", id.group);
  }

  lemma EnvNoBreaks(u: Setup, id: Identity)
    requires CleanSetup(u) && '\n' !in id.user && '\n' !in id.group
    ensures NoBreaks(EnvLines(u, id))
  {
    hide EnvName, ConfigValue, Exportable, EnvLine;
    ValuesAre(u, id);
    var vs := Values(u, id);
    forall i | 0 <= i < |SETTINGS| ensures '\n' !in EnvLine(EnvName(i), ConfigValue(vs[i], u.wide)) {
      assert vs[i] in vs;
      ValueNoBreaks(vs[i], u.wide);
      EnvLineNoBreaks(i, ConfigValue(vs[i], u.wide));
    }
  }

  lemma ValueNoBreaks(v: string, wide: char -> bool)
    ensures '\n' !in ConfigValue(v, wide)
  {
    if NeedsQuotes(v) { assert '\n' !in EscapeAll(v, wide); }
  }

  lemma EnvLineNoBreaks(i: nat, v: string)
    requires i < |SETTINGS| && '\n' !in v
    ensures '\n' !in EnvLine(EnvName(i), v)
  {
    EnvNameIsWord(i);
    assert IsWord("setenv");
    hide EnvName, Line, IsWord;
    LineEnds(EnvName(i), v);
    LineEnds("setenv", Line(EnvName(i), v));
  }

  // ----- the identity after a repair ---------------------------------------------------------------------------

  predicate Answers(l: string, name: string) { |Fields(l)| >= 2 && Fields(l)[0] == name }

  lemma {:induction false} DirectiveSkips(a: seq<string>, b: seq<string>, name: string, fallback: string)
    requires forall i :: 0 <= i < |a| ==> !Answers(a[i], name)
    ensures Directive(a + b, name, fallback) == Directive(b, name, fallback)
  {
    hide Fields;
    if a == [] {
      assert a + b == b;
    } else {
      assert (a + b)[0] == a[0] && (a + b)[1..] == a[1..] + b && !Answers(a[0], name);
      DirectiveSkips(a[1..], b, name, fallback);
    }
  }

  lemma AnswersHasKey(l: string, name: string)
    requires Answers(l, name) && name != "setenv"
    ensures Key(l) == name
  {
  }

  /** A value, or the fallback for none. */
  function Kept(v: string, fallback: string): string { if v == "" then fallback else v }

  lemma LineFields(name: string, v: string)
    requires IsWord(name) && NoSpace(v)
    ensures Fields(Line(name, v)) == [name] + (if v == "" then [] else [v])
  {
    FieldsWord(name, v);
    if v != "" { BareFields(v); }
  }

  lemma LineGives(name: string, v: string, rest: seq<string>, fallback: string)
    requires IsWord(name) && Bare(v)
    requires forall i :: 0 <= i < |rest| ==> !Answers(rest[i], name)
    ensures Directive([Line(name, v)] + rest, name, fallback) == Kept(v, fallback)
  {
    var l := Line(name, v);
    LineFields(name, v);
    hide Fields, Line, IsWord, NoSpace, Answers;
    assert ([l] + rest)[0] == l && ([l] + rest)[1..] == rest;
    DirectiveSkips(rest, [], name, fallback);
    assert rest + [] == rest;
  }

  lemma BareFields(v: string)
    requires NoSpace(v) && v != ""
    ensures Fields(v) == [v]
  {
    WholeWord(v);
    assert v[..|v|] == v && v[|v|..] == "";
  }

  /** No line is about the directive. */
  predicate Lacks(lines: seq<string>, key: string) { forall i :: 0 <= i < |lines| ==> Key(lines[i]) != key }

  lemma LacksConcat(a: seq<string>, b: seq<string>, key: string)
    requires Lacks(a, key) && Lacks(b, key)
    ensures Lacks(a + b, key)
  {
    hide Key;
  }

  lemma LackingDoNotAnswer(lines: seq<string>, name: string)
    requires name != "setenv" && Lacks(lines, name)
    ensures forall i :: 0 <= i < |lines| ==> !Answers(lines[i], name)
  {
    hide Key, Answers;
    forall i | 0 <= i < |lines| ensures !Answers(lines[i], name) {
      if Answers(lines[i], name) { AnswersHasKey(lines[i], name); }
    }
  }

  lemma ForeignLacksKey(lines: seq<string>, owned: set<string>, key: string)
    requires key in owned
    ensures Lacks(Foreign(lines, owned), key)
  {
    hide Key, Foreign;
    ForeignExactly(lines, owned);
    var f := Foreign(lines, owned);
    assert forall i :: 0 <= i < |f| ==> f[i] in f;
  }

  lemma AddedLacksKey(required: seq<string>, present: set<string>, owned: seq<string>, key: string)
    requires key in owned && forall d :: d in required ==> Key(d) !in owned
    ensures Lacks(Missing(required, present), key)
  {
    hide Key, Missing;
    MissingExactly(required, present);
    var m := Missing(required, present);
    assert forall i :: 0 <= i < |m| ==> m[i] in m;
  }

  lemma OthersLackKey(u: Setup, id: Identity, i: nat)
    requires i < |AgentLines(u, id)|
    ensures var agent := AgentLines(u, id); Lacks(agent[..i], Key(agent[i])) && Lacks(agent[i + 1..], Key(agent[i]))
  {
    OwnedKeys(u, id);
    hide Key, AgentLines, AgentKeys, Owned;
  }

  /** What comes before and after the agent's i-th line in a rewritten file. */
  function Before(u: Setup, text: string, i: nat): seq<string>
    requires i < |AgentLines(u, IdentityIn(u, Lines(text)))|
  {
    var agent := AgentLines(u, IdentityIn(u, Lines(text)));
    Foreign(Lines(text), Owned(agent)) + agent[..i]
  }

  function After(u: Setup, text: string, i: nat): seq<string>
    requires i < |AgentLines(u, IdentityIn(u, Lines(text)))|
  {
    AgentLines(u, IdentityIn(u, Lines(text)))[i + 1..] + ToAdd(WantedFor(u, text), text) + [""]
  }

  lemma SplitAround(u: Setup, text: string, i: nat)
    requires i < |AgentLines(u, IdentityIn(u, Lines(text)))|
    ensures NewLines(WantedFor(u, text), text) + [""] ==
            Before(u, text, i) + ([AgentLines(u, IdentityIn(u, Lines(text)))[i]] + After(u, text, i))
  {
    hide Foreign, Missing, Owned, AgentLines, RequiredLines, IdentityIn, Lines, Present;
    var agent, t := AgentLines(u, IdentityIn(u, Lines(text))), ToAdd(WantedFor(u, text), text);
    var f := Foreign(Lines(text), Owned(agent));
    Regroup(f, agent, t + [""], i);
    Text.SeqAssoc(f + agent, t, [""]);
    Text.SeqAssoc(agent[i + 1..], t, [""]);
  }

  lemma Regroup(f: seq<string>, agent: seq<string>, rest: seq<string>, i: nat)
    requires i < |agent|
    ensures (f + agent) + rest == (f + agent[..i]) + ([agent[i]] + (agent[i + 1..] + rest))
  {
    assert agent == agent[..i] + [agent[i]] + agent[i + 1..];
  }

  /** Only the agent's own line is about an owned directive of a rewritten file. */
  lemma OnlyOneLine(u: Setup, text: string, i: nat)
    requires i < |AgentLines(u, IdentityIn(u, Lines(text)))|
    ensures var key := Key(AgentLines(u, IdentityIn(u, Lines(text)))[i]);
      Lacks(Before(u, text, i), key) && Lacks(After(u, text, i), key)
  {
    var id := IdentityIn(u, Lines(text));
    var agent := AgentLines(u, id);
    var key := Key(agent[i]);
    assert Lacks([""], key) by {
      OwnedKeys(u, id);
      assert agent[i] in agent && key in Owned(agent);
      assert Key("") == "" by { assert Fields("") == []; }
    }
    OwnedKeys(u, id);
    RequiredIsForeign(u);
    assert agent[i] in agent && key in Owned(agent);
    hide Key, Foreign, Missing, AgentLines, RequiredLines, IdentityIn, Lines, Present, AgentKeys, Lacks, Owned;
    ForeignLacksKey(Lines(text), Owned(agent), key);
    OthersLackKey(u, id, i);
    AddedLacksKey(RequiredLines(u), Present(Lines(text)), AgentKeys(), key);
    LacksConcat(Foreign(Lines(text), Owned(agent)), agent[..i], key);
    LacksConcat(agent[i + 1..], ToAdd(WantedFor(u, text), text), key);
    LacksConcat(agent[i + 1..] + ToAdd(WantedFor(u, text), text), [""], key);
  }

  const USER_LINE := 17
  const GROUP_LINE := 18

  lemma IdentityLines(u: Setup, id: Identity)
    ensures |AgentLines(u, id)| == 19
    ensures AgentLines(u, id)[USER_LINE] == Line("user", id.user) && Key(AgentLines(u, id)[USER_LINE]) == "user"
    ensures AgentLines(u, id)[GROUP_LINE] == Line("group", id.group) && Key(AgentLines(u, id)[GROUP_LINE]) == "group"
  {
    LineCounts(u, id);
    assert |SETTINGS| == 15;
    hide Key, EnvLines, HookLines, Line;
    RuntimeKeys(id);
  }

  /** What a rewritten file says about the user, or the group. */
  lemma RewrittenDirective(u: Setup, text: string, i: nat, name: string, v: string, fallback: string)
    requires i < |AgentLines(u, IdentityIn(u, Lines(text)))| && IsWord(name) && name != "setenv" && Bare(v)
    requires var l := AgentLines(u, IdentityIn(u, Lines(text)))[i]; l == Line(name, v) && Key(l) == name
    ensures Directive(NewLines(WantedFor(u, text), text) + [""], name, fallback) == Kept(v, fallback)
  {
    hide Key, NewLines, AgentLines, IdentityIn, Lines, Before, After, WantedFor, Bare, IsWord, Line, Lacks, Answers;
    SplitAround(u, text, i);
    OnlyOneLine(u, text, i);
    LackingDoNotAnswer(Before(u, text, i), name);
    LackingDoNotAnswer(After(u, text, i), name);
    LineGives(name, v, After(u, text, i), fallback);
    DirectiveSkips(Before(u, text, i), [Line(name, v)] + After(u, text, i), name, fallback);
  }

  lemma IdentityAfterRewrite(u: Setup, text: string)
    requires CleanSetup(u) && RepairOnce(u, text).1
    ensures var id, id' := IdentityIn(u, Lines(text)), IdentityIn(u, Lines(RepairOnce(u, text).0));
      && (id'.user == if u.user != "" then u.user else Kept(id.user, "nobody"))
      && (id'.group == if u.group != "" then u.group else Kept(id.group, "nogroup"))
  {
    var id := IdentityIn(u, Lines(text));
    assert IsWord("user") && IsWord("group");
    SettlesExactly(u, text);
    IdentitySolid(u, Lines(text));
    IdentityLines(u, id);
    hide Key, NewLines, AgentLines, Lines, Bare, IsWord, Line, Settles, AllTidy, CleanSetup, Named, Solid, UpToDate;
    Rewritten(WantedFor(u, text), text);
    if u.user == "" { RewrittenDirective(u, text, USER_LINE, "user", id.user, "nobody"); }
    if u.group == "" { RewrittenDirective(u, text, GROUP_LINE, "group", id.group, "nogroup"); }
  }

  lemma UnchangedIsTidy(u: Setup, text: string)
    requires !RepairOnce(u, text).1
    ensures CleanSetup(u) && Named(IdentityIn(u, Lines(text))) && RepairOnce(u, text).0 == text
  {
    hide AllTidy, CleanSetup, Named, WantedFor, IdentityIn, UpToDate, Settles, Separate;
    SettlesExactly(u, text);
    if !AllTidy(WantedFor(u, text)) { UntidyNeverSettles(WantedFor(u, text), text); }
  }

  /** MAIN: a repair keeps the user and group that the file names exactly when it names both; else the
      defaults take the place of what is missing. */
  lemma IdentityKept(u: Setup, text: string)
    requires CleanSetup(u)
    ensures var id, id' := IdentityIn(u, Lines(text)), IdentityIn(u, Lines(RepairOnce(u, text).0));
      (id' == id <==> Named(id)) && Named(id')
  {
    hide RepairOnce, IdentityIn, Lines, CleanSetup;
    if RepairOnce(u, text).1 { IdentityAfterRewrite(u, text); SetNames(u, text); } else { UnchangedIsTidy(u, text); }
  }

  /** A user or group that the environment sets is the identity's. */
  lemma SetNames(u: Setup, text: string)
    ensures var id := IdentityIn(u, Lines(text));
      (u.user != "" ==> id.user == u.user) && (u.group != "" ==> id.group == u.group)
  {
  }

  // ----- when the repair settles -----------------------------------------------------------------------------

  lemma LastOfParts(a: seq<string>, l: string, b: seq<string>, key: string)
    requires Lacks(b, key) && Key(l) == key
    ensures Last(a + ([l] + b), key) == Text.TrimSpace(l)
  {
    hide Key, Text.TrimSpace;
    LacksCount(b, key);
    CountConcat([l], b, key);
    CountConcat(a, [l] + b, key);
    assert [l][..0] == [] && Count([l], key) == 1 && Last([l], key) == Text.TrimSpace(l);
  }

  lemma LacksCount(lines: seq<string>, key: string)
    requires Lacks(lines, key)
    ensures Count(lines, key) == 0
  {
    hide Key, Count;
    CountNone(lines, key);
  }

  /** A file rewritten for an empty name does not say what the next call wants. */
  lemma EmptyNameIsStale(u: Setup, text: string, i: nat, name: string, wanted: string)
    requires i < |AgentLines(u, IdentityIn(u, Lines(text)))| && IsWord(name) && name != "setenv" && wanted != ""
    requires var l := AgentLines(u, IdentityIn(u, Lines(text)))[i]; l == Line(name, "") && Key(l) == name
    ensures !IsCurrent(NewLines(WantedFor(u, text), text) + [""], Line(name, wanted))
  {
    DirectiveKey(name, wanted);
    TrimNoLonger(Line(name, ""));
    assert |Line(name, wanted)| > |Line(name, "")|;
    hide Key, NewLines, AgentLines, IdentityIn, Lines, Before, After, WantedFor, IsWord, Line, Lacks, Last, Count,
      Text.TrimSpace;
    SplitAround(u, text, i);
    OnlyOneLine(u, text, i);
    LastOfParts(Before(u, text, i), Line(name, ""), After(u, text, i), name);
  }

  lemma TrimNoLonger(s: string)
    ensures |Text.TrimSpace(s)| <= |s|
  {
  }

  lemma NotCurrentIsChanged(w: Wanted, text: string, d: string)
    requires d in w.desired && !IsCurrent(Lines(text), d)
    ensures Repair(w, text).1
  {
    hide IsCurrent, Missing, Present, Lines;
  }

  lemma EmptyNameIsRepaired(u: Setup, text: string, i: nat, name: string, wanted: string)
    requires CleanSetup(u) && RepairOnce(u, text).1
    requires i < |AgentLines(u, IdentityIn(u, Lines(text)))| && IsWord(name) && name != "setenv" && wanted != ""
    requires var l := AgentLines(u, IdentityIn(u, Lines(text)))[i]; l == Line(name, "") && Key(l) == name
    requires Line(name, wanted) in WantedFor(u, RepairOnce(u, text).0).desired
    ensures RepairOnce(u, RepairOnce(u, text).0).1
  {
    hide Key, NewLines, AgentLines, Lines, IsWord, Line, Settles, AllTidy, CleanSetup, IdentityIn, IsCurrent,
      WantedFor, UpToDate,
      Named;
    SettlesExactly(u, text);
    Rewritten(WantedFor(u, text), text);
    EmptyNameIsStale(u, text, i, name, wanted);
    NotCurrentIsChanged(WantedFor(u, RepairOnce(u, text).0), RepairOnce(u, text).0, Line(name, wanted));
  }

  lemma WantsIdentity(u: Setup, text: string)
    ensures var id, desired := IdentityIn(u, Lines(text)), WantedFor(u, text).desired;
      Line("user", id.user) in desired && Line("group", id.group) in desired
  {
    hide Key, Line, AgentLines, RequiredLines, IdentityIn, Lines;
    IdentityLines(u, IdentityIn(u, Lines(text)));
  }

  lemma StaleWithoutNames(u: Setup, text: string)
    requires CleanSetup(u) && !Named(IdentityIn(u, Lines(text)))
    ensures RepairOnce(u, RepairOnce(u, text).0).1
  {
    assert IsWord("user") && IsWord("group");
    hide Key, AgentLines, Lines, IsWord, Line, CleanSetup, IdentityIn, WantedFor, RepairOnce;
    var id, next := IdentityIn(u, Lines(text)), RepairOnce(u, text).0;
    if !RepairOnce(u, text).1 {
      UnchangedIsTidy(u, text);
    } else {
      IdentityKept(u, text);
      IdentityLines(u, id);
      WantsIdentity(u, next);
      if id.user == "" {
        EmptyNameIsRepaired(u, text, USER_LINE, "user", IdentityIn(u, Lines(next)).user);
      } else {
        EmptyNameIsRepaired(u, text, GROUP_LINE, "group", IdentityIn(u, Lines(next)).group);
      }
    }
  }

  /** MAIN: a second repair changes nothing exactly when the setup is clean and the first one found a user
      and a group, in the environment or as the first line of two words in the file. */
  lemma RepairIsProjection(u: Setup, text: string)
    ensures !RepairOnce(u, RepairOnce(u, text).0).1 <==> CleanSetup(u) && Named(IdentityIn(u, Lines(text)))
  {
    var next := RepairOnce(u, text).0;
    hide RepairOnce, CleanSetup, Named, IdentityIn, Lines;
    if !RepairOnce(u, next).1 { UnchangedIsTidy(u, next); }
    if CleanSetup(u) {
      if Named(IdentityIn(u, Lines(text))) {
        IdentityKept(u, text);
        SameIdentitySettles(u, text);
      } else {
        StaleWithoutNames(u, text);
      }
    }
  }

  lemma SameIdentitySettles(u: Setup, text: string)
    requires CleanSetup(u) && Named(IdentityIn(u, Lines(text)))
    requires IdentityIn(u, Lines(RepairOnce(u, text).0)) == IdentityIn(u, Lines(text))
    ensures !RepairOnce(u, RepairOnce(u, text).0).1
  {
    hide Settles, CleanSetup, Named, Repair, IdentityIn, Lines, AllTidy, Separate;
    SettlesExactly(u, text);
    SettledIsUpToDate(WantedFor(u, text), text);
  }

  /** MAIN: whatever the file, two repairs settle it exactly for a clean setup; without one, no call ever
      finds the file up to date. */
  lemma TwoRepairsSettle(u: Setup)
    ensures CleanSetup(u) <==> forall text :: !RepairOnce(u, RepairOnce(u, RepairOnce(u, text).0).0).1
    ensures !CleanSetup(u) ==> forall text :: RepairOnce(u, text).1
  {
    hide RepairOnce, CleanSetup, Named, IdentityIn, Lines;
    forall text ensures !RepairOnce(u, text).1 ==> CleanSetup(u) {
      if !RepairOnce(u, text).1 { UnchangedIsTidy(u, text); }
    }
    forall text ensures CleanSetup(u) ==> !RepairOnce(u, RepairOnce(u, RepairOnce(u, text).0).0).1 {
      if CleanSetup(u) {
        IdentityKept(u, text);
        RepairIsProjection(u, RepairOnce(u, text).0);
      }
    }
    assert !CleanSetup(u) ==> RepairOnce(u, RepairOnce(u, RepairOnce(u, "").0).0).1;
  }

  /** The case in which one repair is not enough: the file names an empty user in quotes. The first repair
      writes no name, the second the default, and the third finds nothing to do. */
  lemma QuotedEmptyUserTakesTwo(u: Setup)
    requires CleanSetup(u) && u.user == ""
    ensures var text := "user \"\"";
      && RepairOnce(u, RepairOnce(u, text).0).1
      && !RepairOnce(u, RepairOnce(u, RepairOnce(u, text).0).0).1
  {
    var text := "user \"\"";
    Text.SplitPlain(text, '\n');
    assert IdentityIn(u, Lines(text)).user == "" by { QuotedEmptyUser(); }
    hide RepairOnce, CleanSetup, IdentityIn, Lines;
    RepairIsProjection(u, text);
    TwoRepairsSettle(u);
  }

  lemma QuotedEmptyUser()
    ensures Directive(["user \"\""], "user", "nobody") == ""
  {
    var q := "\"\"";
    assert Line("user", q) == "user \"\"";
    assert IsWord("user");
    FieldsWord("user", q);
    BareFields(q);
    TwoQuotes();
    hide Fields, TrimQuotes;
    assert Fields("user \"\"") == ["user", q];
  }

  lemma TwoQuotes()
    ensures TrimQuotes("\"\"") == ""
  {
    assert "\"\""[1..] == "\"" && "\""[1..] == "";
  }

  /** MAIN: after a repair of a clean setup and a file that names user and group, every owned directive is
      there exactly once with its value, and every required line is there. */
  lemma RepairInstalls(u: Setup, text: string)
    requires CleanSetup(u) && Named(IdentityIn(u, Lines(text)))
    ensures var lines, id := Lines(RepairOnce(u, text).0), IdentityIn(u, Lines(text));
      && IdentityIn(u, lines) == id
      && (forall d :: d in AgentLines(u, id) ==> IsCurrent(lines, d))
      && (forall d :: d in RequiredLines(u) ==> d in Present(lines))
  {
    hide Settles, CleanSetup, Named, Repair, IdentityIn, Lines, AllTidy, Separate, IsCurrent, AgentLines,
      RequiredLines, Present;
    SettlesExactly(u, text);
    IdentityKept(u, text);
    RepairInstallsDirectives(WantedFor(u, text), text);
  }

  /** The directives that are the agent's; they depend neither on the setup nor on the file. */
  function AgentOwned(): set<string> { set i | 0 <= i < |AgentKeys()| :: AgentKeys()[i] }

  /** MAIN: every repair of a clean setup keeps all lines about other directives, in order; it only adds the
      required lines that were missing and one blank line. */
  lemma ForeignLinesKept(u: Setup, text: string)
    requires CleanSetup(u)
    ensures var (next, changed) := RepairOnce(u, text);
      Foreign(Lines(next), AgentOwned()) ==
      Foreign(Lines(text), AgentOwned()) + if changed then ToAdd(WantedFor(u, text), text) + [""] else []
  {
    OwnedKeys(u, IdentityIn(u, Lines(text)));
    hide Settles, CleanSetup, Repair, IdentityIn, Lines, AllTidy, Separate, Foreign, AgentLines, AgentKeys, Missing, Named;
    SettlesExactly(u, text);
    ForeignLinesSurvive(WantedFor(u, text), text);
    assert Owned(WantedFor(u, text).desired) == AgentOwned();
  }
}
