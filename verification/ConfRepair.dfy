/** The repair of server.conf is a projection that keeps foreign lines. */
module ConfRepair {
  import opened Wrappers
  import opened ServerConf
  import Text

  // ----- concatenation ----------------------------------------------------------------------------

  lemma {:induction false} ForeignConcat(a: seq<string>, b: seq<string>, owned: set<string>)
    ensures Foreign(a + b, owned) == Foreign(a, owned) + Foreign(b, owned)
  {
    hide Key;
    if b == [] {
      assert a + b == a;
    } else {
      assert (a + b)[..|a + b| - 1] == a + b[..|b| - 1] && (a + b)[|a + b| - 1] == b[|b| - 1];
      ForeignConcat(a, b[..|b| - 1], owned);
    }
  }

  lemma {:induction false} CountConcat(a: seq<string>, b: seq<string>, key: string)
    ensures Count(a + b, key) == Count(a, key) + Count(b, key)
    ensures Last(a + b, key) == if Count(b, key) > 0 then Last(b, key) else Last(a, key)
  {
    hide Key;
    if b == [] {
      assert a + b == a;
    } else {
      assert (a + b)[..|a + b| - 1] == a + b[..|b| - 1] && (a + b)[|a + b| - 1] == b[|b| - 1];
      CountConcat(a, b[..|b| - 1], key);
    }
  }

  lemma {:induction false} CountNone(lines: seq<string>, key: string)
    requires forall l :: l in lines ==> Key(l) != key
    ensures Count(lines, key) == 0
  {
    hide Key;
    if lines != [] { CountNone(lines[..|lines| - 1], key); }
  }

  lemma {:induction false} ForeignExactly(lines: seq<string>, owned: set<string>)
    ensures forall l :: l in Foreign(lines, owned) <==> l in lines && Key(l) !in owned
  {
    hide Key;
    if lines != [] {
      ForeignExactly(lines[..|lines| - 1], owned);
      assert lines == lines[..|lines| - 1] + [lines[|lines| - 1]];
    }
  }

  lemma {:induction false} ForeignAll(lines: seq<string>, owned: set<string>)
    requires forall i :: 0 <= i < |lines| ==> Key(lines[i]) !in owned
    ensures Foreign(lines, owned) == lines
  {
    hide Key;
    if lines != [] { ForeignAll(lines[..|lines| - 1], owned); }
  }

  lemma {:induction false} ForeignNone(lines: seq<string>, owned: set<string>)
    requires forall i :: 0 <= i < |lines| ==> Key(lines[i]) in owned
    ensures Foreign(lines, owned) == []
  {
    hide Key;
    if lines != [] { ForeignNone(lines[..|lines| - 1], owned); }
  }

  lemma {:induction false} MissingExactly(required: seq<string>, present: set<string>)
    ensures forall d :: d in Missing(required, present) <==> d in required && d !in present
  {
    if required != [] {
      MissingExactly(required[..|required| - 1], present);
      assert required == required[..|required| - 1] + [required[|required| - 1]];
    }
  }

  lemma {:induction false} MissingNone(required: seq<string>, present: set<string>)
    requires forall d :: d in required ==> d in present
    ensures Missing(required, present) == []
  {
    if required != [] { MissingNone(required[..|required| - 1], present); }
  }

  // ----- trimming a line keeps its key ----------------------------------------------------------------

  lemma {:induction false} WordLengthSpace(s: string, c: char)
    requires Text.IsSpace(c)
    ensures WordLength(s + [c]) == WordLength(s)
  {
    if s != "" && !Text.IsSpace(s[0]) {
      assert (s + [c])[1..] == s[1..] + [c];
      WordLengthSpace(s[1..], c);
    }
  }

  lemma {:induction false} FieldsSpace(s: string, c: char)
    requires Text.IsSpace(c)
    ensures Fields(s + [c]) == Fields(s)
    decreases |s|
  {
    if s == "" {
      assert Fields([c]) == Fields([c][1..]);
      assert "" + [c] == [c];
    } else if Text.IsSpace(s[0]) {
      assert (s + [c])[1..] == s[1..] + [c];
      FieldsSpace(s[1..], c);
    } else {
      WordLengthSpace(s, c);
      var n := WordLength(s);
      assert (s + [c])[..n] == s[..n] && (s + [c])[n..] == s[n..] + [c];
      FieldsSpace(s[n..], c);
    }
  }

  lemma {:induction false} FieldsTrimLeft(s: string)
    ensures Fields(Text.TrimLeft(s)) == Fields(s)
  {
    if s != "" && Text.IsSpace(s[0]) { FieldsTrimLeft(s[1..]); }
  }

  lemma {:induction false} FieldsTrimRight(s: string)
    ensures Fields(Text.TrimRight(s)) == Fields(s)
  {
    if s != "" && Text.IsSpace(s[|s| - 1]) {
      var init := s[..|s| - 1];
      FieldsTrimRight(init);
      FieldsSpace(init, s[|s| - 1]);
      assert init + [s[|s| - 1]] == s;
    }
  }

  lemma KeyTrimmed(line: string)
    ensures Key(Text.TrimSpace(line)) == Key(line)
  {
    FieldsTrimLeft(line);
    FieldsTrimRight(Text.TrimLeft(line));
  }

  // ----- reading back what a repair writes --------------------------------------------------------------

  lemma {:induction false} JoinTerminated(parts: seq<string>)
    requires parts != []
    ensures Text.Join(parts, '\n') + "\n" == Text.Join(parts + [""], '\n')
  {
    if |parts| == 1 {
      assert (parts + [""])[1..] == [""];
    } else {
      JoinTerminated(parts[1..]);
      assert (parts + [""])[1..] == parts[1..] + [""];
      var tail := Text.Join(parts[1..], '\n');
      Text.SeqAssoc(parts[0] + ['\n'], tail, "\n");
    }
  }

  /** A line that reads back as itself. */
  predicate Tidy(l: string) { '\n' !in l && Text.TrimSpace(l) == l }

  predicate AllTidy(w: Wanted) {
    (forall d :: d in w.desired ==> Tidy(d)) && (forall d :: d in w.required ==> Tidy(d))
  }

  predicate NoBreaks(lines: seq<string>) { forall l :: l in lines ==> '\n' !in l }

  lemma Rewritten(w: Wanted, text: string)
    requires NoBreaks(w.desired) && NoBreaks(w.required) && Repair(w, text).1
    ensures Lines(Repair(w, text).0) == NewLines(w, text) + [""]
  {
    hide Count, Last, Key;
    var lines := NewLines(w, text);
    MissingExactly(w.required, Present(Lines(text)));
    ForeignExactly(Lines(text), Owned(w.desired));
    assert lines != [] by {
      if w.desired == [] { assert Current(Lines(text), w.desired); }
    }
    JoinTerminated(lines);
    Text.SplitJoin(lines + [""], '\n');
  }

  // ----- when the repair settles ------------------------------------------------------------------------

  predicate DistinctKeys(desired: seq<string>) {
    forall i, j :: 0 <= i < j < |desired| ==> Key(desired[i]) != Key(desired[j])
  }

  /** Every wanted line reads back as itself, owned directives are named once each, and no required line
      is about an owned directive. */
  predicate Settles(w: Wanted) {
    && AllTidy(w) && DistinctKeys(w.desired) && "" !in Owned(w.desired)
    && forall d :: d in w.required ==> Key(d) !in Owned(w.desired)
  }

  /** The wanted lines have no line breaks, and foreign lines are told apart from owned ones. */
  predicate Separate(w: Wanted) {
    && NoBreaks(w.desired) && NoBreaks(w.required) && "" !in Owned(w.desired)
    && forall d :: d in w.required ==> Key(d) !in Owned(w.desired)
  }

  lemma {:induction false} OncePerKey(desired: seq<string>, i: nat)
    requires i < |desired| && DistinctKeys(desired)
    ensures Count(desired, Key(desired[i])) == 1 && Last(desired, Key(desired[i])) == Text.TrimSpace(desired[i])
  {
    hide Key;
    var init, last := desired[..|desired| - 1], desired[|desired| - 1];
    if i == |desired| - 1 {
      CountNone(init, Key(last));
    } else {
      OncePerKey(init, i);
    }
  }

  lemma OnceAmong(a: seq<string>, b: seq<string>, c: seq<string>, d: seq<string>, key: string)
    requires Count(a, key) == 0 && Count(b, key) == 1 && Count(c, key) == 0 && Count(d, key) == 0
    ensures Count(a + b + c + d, key) == 1 && Last(a + b + c + d, key) == Last(b, key)
  {
    hide Key, Count, Last;
    CountConcat(a, b, key);
    CountConcat(a + b, c, key);
    CountConcat(a + b + c, d, key);
  }

  lemma ForeignLacks(lines: seq<string>, owned: set<string>, key: string)
    requires key in owned
    ensures Count(Foreign(lines, owned), key) == 0
  {
    hide Key, Foreign, Count;
    ForeignExactly(lines, owned);
    CountNone(Foreign(lines, owned), key);
  }

  lemma AddedLacks(required: seq<string>, present: set<string>, owned: set<string>, key: string)
    requires key in owned && forall d :: d in required ==> Key(d) !in owned
    ensures Count(Missing(required, present), key) == 0
  {
    hide Key, Missing, Count;
    MissingExactly(required, present);
    CountNone(Missing(required, present), key);
  }

  lemma DesiredOnce(w: Wanted, i: nat)
    requires Settles(w) && i < |w.desired|
    ensures var key := Key(w.desired[i]);
      Count(w.desired, key) == 1 && Last(w.desired, key) == w.desired[i] && key in Owned(w.desired) && key != ""
  {
    hide Key, Count, Last;
    assert Tidy(w.desired[i]);
    OncePerKey(w.desired, i);
  }

  lemma BlankLacks(key: string)
    requires key != ""
    ensures Count([""], key) == 0
  {
    assert Fields("") == [] && [""][..0] == [];
  }

  /** After a rewrite every owned directive is there once, as desired. */
  lemma OwnedOnce(w: Wanted, text: string, i: nat)
    requires Settles(w) && i < |w.desired|
    ensures IsCurrent(NewLines(w, text) + [""], w.desired[i])
  {
    var key, owned := Key(w.desired[i]), Owned(w.desired);
    DesiredOnce(w, i);
    hide Key, Foreign, Missing, Count, Last, AllTidy, DistinctKeys, Present, Lines;
    ForeignLacks(Lines(text), owned, key);
    AddedLacks(w.required, Present(Lines(text)), owned, key);
    BlankLacks(key);
    OnceAmong(Foreign(Lines(text), owned), w.desired, ToAdd(w, text), [""], key);
  }

  /** After a rewrite every required line is there. */
  lemma RequiredPresent(w: Wanted, text: string, d: string)
    requires Settles(w) && d in w.required
    ensures d in Present(NewLines(w, text) + [""])
  {
    hide Key, Foreign, Missing;
    var lines := Lines(text);
    MissingExactly(w.required, Present(lines));
    if d in Present(lines) {
      var l :| l in lines && Text.TrimSpace(l) == d;
      KeyTrimmed(l);
      ForeignExactly(lines, Owned(w.desired));
      assert l in NewLines(w, text) + [""];
    } else {
      assert d in ToAdd(w, text) && d in NewLines(w, text) + [""];
    }
  }

  lemma SettledIsUpToDate(w: Wanted, text: string)
    requires Settles(w)
    ensures !Repair(w, Repair(w, text).0).1
  {
    hide Key, Foreign, Missing, Count, Last, Settles, IsCurrent;
    if Repair(w, text).1 {
      var next := Repair(w, text).0;
      SettlesIsSeparate(w);
      Rewritten(w, text);
      forall d | d in w.desired ensures IsCurrent(Lines(next), d) {
        var i :| 0 <= i < |w.desired| && w.desired[i] == d;
        OwnedOnce(w, text, i);
      }
      forall d | d in w.required ensures d in Present(Lines(next)) { RequiredPresent(w, text, d); }
      MissingNone(w.required, Present(Lines(next)));
    }
  }

  lemma SettlesIsSeparate(w: Wanted)
    requires Settles(w)
    ensures Separate(w)
  {
    hide Key;
  }

  // ----- when it does not ---------------------------------------------------------------------------------

  lemma {:induction false} LastIsTrimmed(lines: seq<string>, key: string)
    requires forall l :: l in lines ==> '\n' !in l
    ensures '\n' !in Last(lines, key) && Text.TrimSpace(Last(lines, key)) == Last(lines, key)
  {
    if lines != [] && Key(lines[|lines| - 1]) != key { LastIsTrimmed(lines[..|lines| - 1], key); }
  }

  /** A wanted line that does not read back as itself is never found. */
  lemma UntidyNeverSettles(w: Wanted, text: string)
    requires !AllTidy(w)
    ensures !UpToDate(w, text)
  {
    hide Key, Missing, Count, Last;
    var lines := Lines(text);
    if d :| d in w.desired && !Tidy(d) {
      LastIsTrimmed(lines, Key(d));
      assert !IsCurrent(lines, d);
    } else {
      var d :| d in w.required && !Tidy(d);
      assert d !in Present(lines);
      MissingExactly(w.required, Present(lines));
      assert d in ToAdd(w, text);
    }
  }

  /** MAIN: after a repair every owned directive is there exactly once with its desired value, and every
      required line is there. */
  lemma RepairInstallsDirectives(w: Wanted, text: string)
    requires Settles(w)
    ensures var lines := Lines(Repair(w, text).0);
      (forall d :: d in w.desired ==> IsCurrent(lines, d)) && (forall d :: d in w.required ==> d in Present(lines))
  {
    hide Key, Foreign, Missing, Count, Last, Settles, IsCurrent, Present;
    var next := Repair(w, text).0;
    SettledIsUpToDate(w, text);
    assert UpToDate(w, next);
    MissingExactly(w.required, Present(Lines(next)));
    assert forall d :: d in w.required && d !in Present(Lines(next)) ==> d in ToAdd(w, next);
  }

  lemma ForeignOfParts(a: seq<string>, b: seq<string>, c: seq<string>, d: seq<string>, owned: set<string>)
    requires forall l :: l in a || l in c || l in d ==> Key(l) !in owned
    requires forall l :: l in b ==> Key(l) in owned
    ensures Foreign(a + b + c + d, owned) == a + c + d
  {
    hide Key, Foreign;
    ForeignAll(a, owned);
    ForeignNone(b, owned);
    ForeignAll(c, owned);
    ForeignAll(d, owned);
    ForeignConcat(a, b, owned);
    ForeignConcat(a + b, c, owned);
    ForeignConcat(a + b + c, d, owned);
  }

  /** MAIN: a repair keeps every line of a directive that the agent does not own, in order; it only adds
      the required lines that were missing and one blank line at the end. */
  lemma ForeignLinesSurvive(w: Wanted, text: string)
    requires Separate(w)
    ensures var (next, changed), owned := Repair(w, text), Owned(w.desired);
      Foreign(Lines(next), owned) ==
      Foreign(Lines(text), owned) + if changed then ToAdd(w, text) + [""] else []
  {
    var owned := Owned(w.desired);
    assert Key("") == "" by { assert Fields("") == []; }
    hide Key, Foreign, Missing, Current, Text.Split, Text.Join, Present;
    if Repair(w, text).1 {
      var foreign, toAdd := Foreign(Lines(text), owned), ToAdd(w, text);
      Rewritten(w, text);
      MissingExactly(w.required, Present(Lines(text)));
      ForeignExactly(Lines(text), owned);
      ForeignOfParts(foreign, w.desired, toAdd, [""], owned);
      Text.SeqAssoc(foreign, toAdd, [""]);
    }
  }
}
