/** What the policy files of a user say to their reader, line by line (internal/store/store.go:46-124). */
module PolicyLaws {
  import opened Wrappers
  import opened Policy
  import Text

  // ----- the fields of the merged file ---------------------------------------------------------------

  predicate IsLimit(l: string) {
    Text.HasPrefix(l, "limit=") && Text.AllDigits(l[6..]) && Text.Value(l[6..], 10) <= Text.INT64_MAX
  }

  predicate IsDisabled(l: string) { l == "disabled=0" || l == "disabled=1" }

  predicate IsName(l: string) { Text.HasPrefix(l, "name=") && forall c :: c in l[5..] ==> c >= ' ' && c != '\U{7F}' }

  predicate SameField(a: string, b: string) {
    (IsLimit(a) && IsLimit(b)) || (IsDisabled(a) && IsDisabled(b)) || (IsName(a) && IsName(b))
  }

  /** Blank lines and fields, no field twice. */
  predicate GoodLines(lines: seq<string>) {
    && (forall i :: 0 <= i < |lines| ==> lines[i] == "" || IsLimit(lines[i]) || IsDisabled(lines[i]) || IsName(lines[i]))
    && (forall i, j :: 0 <= i < j < |lines| ==> !SameField(lines[i], lines[j]))
  }

  /** What a reading of the lines knows. */
  predicate Reflects(r: Reading, lines: seq<string>) {
    && r.seen <= {"limit", "disabled", "name"}
    && ("limit" in r.seen <==> exists l :: l in lines && IsLimit(l))
    && ("disabled" in r.seen <==> exists l :: l in lines && IsDisabled(l))
    && ("name" in r.seen <==> exists l :: l in lines && IsName(l))
    && r.st.limitSet == ("limit" in r.seen) && r.disabledSet == ("disabled" in r.seen) && r.st.nameSet == ("name" in r.seen)
    && (forall l :: l in lines && IsLimit(l) ==> r.st.limit == Text.Value(l[6..], 10))
    && (r.st.disabled <==> "disabled=1" in lines)
    && (forall l :: l in lines && IsName(l) ==> r.st.name == l[5..])
  }

  lemma CutKey(l: string, k: string)
    requires '=' !in k
    ensures var (key, v, ok) := Text.Cut(l, '=');
      (Text.HasPrefix(l, k + "=") <==> ok && key == k) && (ok && key == k ==> v == l[|k| + 1..])
  {
    var (key, v, ok) := Text.Cut(l, '=');
    if Text.HasPrefix(l, k + "=") {
      assert l == k + ['='] + l[|k| + 1..];
      Text.CutConcat(k, '=', l[|k| + 1..]);
    }
    if ok && key == k {
      assert l == k + ['='] + v;
      Text.Around(k, '=', v);
      assert k + "=" <= l;
    }
  }

  lemma NameChars(v: string)
    ensures ValidName(v) <==> forall c :: c in v ==> c >= ' ' && c != '\U{7F}'
  {
    assert forall i :: 0 <= i < |v| ==> v[i] in v;
  }

  lemma DisabledText(l: string, v: string)
    requires Text.HasPrefix(l, "disabled=") && v == l[9..]
    ensures l == "disabled=0" <==> v == "0"
    ensures l == "disabled=1" <==> v == "1"
  {
    assert l == "disabled=" + v;
    assert "disabled=0" == "disabled=" + "0" && "disabled=1" == "disabled=" + "1";
  }

  /** One line of the merged file, by its field. */
  function Taken(r: Reading, l: string): Option<Reading> {
    if l == "" then Some(r)
    else if IsLimit(l) && "limit" !in r.seen then
      Some(r.(st := r.st.(limit := Text.Value(l[6..], 10), limitSet := true), seen := r.seen + {"limit"}))
    else if IsDisabled(l) && "disabled" !in r.seen then
      Some(Reading(r.st.(disabled := l == "disabled=1"), true, r.seen + {"disabled"}))
    else if IsName(l) && "name" !in r.seen then
      Some(r.(st := r.st.(name := l[5..], nameSet := true), seen := r.seen + {"name"}))
    else None
  }

  lemma Keys(l: string)
    ensures var (k, v, ok) := Text.Cut(l, '=');
      && (Text.HasPrefix(l, "limit=") <==> ok && k == "limit") && (ok && k == "limit" ==> v == l[6..])
      && (Text.HasPrefix(l, "disabled=") <==> ok && k == "disabled") && (ok && k == "disabled" ==> v == l[9..])
      && (Text.HasPrefix(l, "name=") <==> ok && k == "name") && (ok && k == "name" ==> v == l[5..])
  {
    assert "limit" + "=" == "limit=" && "disabled" + "=" == "disabled=" && "name" + "=" == "name=";
    hide Text.Cut, Text.HasPrefix;
    CutKey(l, "limit");
    CutKey(l, "disabled");
    CutKey(l, "name");
  }

  lemma LineIsTaken(r: Reading, l: string)
    requires r.seen <= {"limit", "disabled", "name"}
    ensures ReadLine(r, l) == Taken(r, l)
  {
    hide Text.Cut, Text.AllDigits, Text.Value, ValidName;
    Keys(l);
    var (k, v, ok) := Text.Cut(l, '=');
    NameChars(v);
    if Text.HasPrefix(l, "disabled=") { DisabledText(l, v); }
    DisabledPrefix(l);
  }

  lemma DisabledPrefix(l: string)
    ensures IsDisabled(l) ==> Text.HasPrefix(l, "disabled=")
  {
  }

  // ----- the whole merged file ---------------------------------------------------------------------------

  lemma GoodSnoc(lines: seq<string>, l: string)
    ensures GoodLines(lines + [l]) <==>
      && GoodLines(lines) && (l == "" || IsLimit(l) || IsDisabled(l) || IsName(l))
      && forall k :: k in lines ==> !SameField(k, l)
  {
    hide IsLimit, IsDisabled, IsName, SameField;
    var all := lines + [l];
    assert all[|lines|] == l && forall i :: 0 <= i < |lines| ==> all[i] == lines[i];
    if GoodLines(all) {
      forall k | k in lines ensures !SameField(k, l) {
        var i :| 0 <= i < |lines| && lines[i] == k;
        assert !SameField(all[i], all[|lines|]);
      }
    }
  }

  /** Which field a line is, no line being two. */
  lemma OneField(l: string)
    ensures !(IsLimit(l) && IsDisabled(l)) && !(IsLimit(l) && IsName(l)) && !(IsDisabled(l) && IsName(l))
    ensures l == "" ==> !IsLimit(l) && !IsDisabled(l) && !IsName(l)
    ensures l == "disabled=1" ==> IsDisabled(l)
  {
    if IsLimit(l) { assert l[0] == 'l'; }
    if IsDisabled(l) { assert l[0] == 'd'; }
    if IsName(l) { assert l[0] == 'n'; }
  }

  lemma TakenReflects(r: Reading, lines: seq<string>, l: string)
    requires Reflects(r, lines) && Taken(r, l).Some?
    ensures Reflects(Taken(r, l).value, lines + [l])
  {
    hide IsLimit, IsDisabled, IsName, Text.Value;
    OneField(l);
    assert forall k :: k in lines + [l] <==> k in lines || k == l;
    forall k | k in lines ensures IsLimit(k) ==> "limit" in r.seen { }
    forall k | k in lines ensures IsName(k) ==> "name" in r.seen { }
    forall k | k in lines ensures IsDisabled(k) ==> "disabled" in r.seen { }
    OneField("disabled=1");
  }

  lemma TakenExactly(r: Reading, lines: seq<string>, l: string)
    requires Reflects(r, lines)
    ensures Taken(r, l).Some? <==>
      (l == "" || IsLimit(l) || IsDisabled(l) || IsName(l)) && forall k :: k in lines ==> !SameField(k, l)
  {
    hide IsLimit, IsDisabled, IsName, Text.Value;
    OneField(l);
  }

  lemma {:induction false} LinesReadExactly(lines: seq<string>)
    ensures ReadLines(START, lines).Some? <==> GoodLines(lines)
    ensures ReadLines(START, lines).Some? ==> Reflects(ReadLines(START, lines).value, lines)
  {
    hide ReadLine, Taken, GoodLines, Reflects, SameField;
    if lines == [] {
      NothingRead();
    } else {
      var front, l := lines[..|lines| - 1], lines[|lines| - 1];
      assert lines == front + [l];
      LinesReadExactly(front);
      ReadLinesConcat(START, front, [l]);
      GoodSnoc(front, l);
      var r := ReadLines(START, front);
      if r.Some? {
        ReadOneLine(r.value, l);
        SeenKeys(r.value, front);
        LineIsTaken(r.value, l);
        TakenExactly(r.value, front, l);
        if Taken(r.value, l).Some? { TakenReflects(r.value, front, l); }
      }
    }
  }

  lemma NothingRead()
    ensures ReadLines(START, []) == Some(START) && GoodLines([]) && Reflects(START, [])
  {
  }

  lemma SeenKeys(r: Reading, lines: seq<string>)
    requires Reflects(r, lines)
    ensures r.seen <= {"limit", "disabled", "name"}
  {
  }

  /** The lines of the merged file; a file that is not there has none. */
  function StateLines(p: Files): seq<string> {
    if p.state.Holds? then Text.Split(p.state.text, '\n') else []
  }

  /** The merged file is absent, or well formed and not blank. */
  predicate StateReadable(p: Files) {
    match p.state
    case Absent => true
    case Unreadable => false
    case Holds(_) => GoodLines(StateLines(p)) && exists l :: l in StateLines(p) && l != ""
  }

  lemma MergedReadsExactly(p: Files)
    ensures ReadMerged(p.state).Some? <==> StateReadable(p)
    ensures ReadMerged(p.state).Some? ==> Reflects(ReadMerged(p.state).value, StateLines(p))
  {
    hide ReadLines, GoodLines, Reflects, Text.Split;
    NothingRead();
    if p.state.Holds? {
      var lines := StateLines(p);
      LinesReadExactly(lines);
      if GoodLines(lines) { BlankExactly(ReadLines(START, lines).value, lines); }
    }
  }

  lemma BlankExactly(r: Reading, lines: seq<string>)
    requires GoodLines(lines) && Reflects(r, lines)
    ensures r.seen == {} <==> forall l :: l in lines ==> l == ""
  {
    hide IsLimit, IsDisabled, IsName, SameField, Text.Value;
    forall l | l in lines && l != "" ensures r.seen != {} {
      var i :| 0 <= i < |lines| && lines[i] == l;
      assert "limit" in r.seen || "disabled" in r.seen || "name" in r.seen;
    }
    forall l | l in lines && l == "" ensures !IsLimit(l) && !IsDisabled(l) && !IsName(l) { OneField(l); }
  }

  // ----- the legacy files behind it ------------------------------------------------------------------------

  /** A legacy limit file with this number: digits, then at most a carriage return and a newline. */
  ghost predicate LimitText(text: string, n: nat) { exists digits :: LimitDigits(text, n, digits) }

  predicate LimitDigits(text: string, n: nat, digits: string) {
    && Text.AllDigits(digits) && Text.Value(digits, 10) == n <= Text.INT64_MAX
    && (text == digits || text == digits + "\n" || text == digits + "\r" || text == digits + "\r\n")
  }

  lemma TrimmedDigits(text: string, digits: string)
    requires Text.AllDigits(digits)
    requires text == digits || text == digits + "\n" || text == digits + "\r" || text == digits + "\r\n"
    ensures TrimSuffix(TrimSuffix(text, '\n'), '\r') == digits
  {
    assert digits[|digits| - 1] in digits;
    assert (digits + "\r\n")[..|digits| + 1] == digits + "\r";
    assert (digits + "\r")[..|digits|] == digits && (digits + "\n")[..|digits|] == digits;
  }

  lemma UntrimmedText(text: string)
    ensures var digits := TrimSuffix(TrimSuffix(text, '\n'), '\r');
      text == digits || text == digits + "\n" || text == digits + "\r" || text == digits + "\r\n"
  {
    var a := TrimSuffix(text, '\n');
    var b := TrimSuffix(a, '\r');
    assert text == a || text == a + "\n";
    assert a == b || a == b + "\r";
    assert (b + "\r") + "\n" == b + "\r\n";
  }

  lemma LegacyLimitExactly(text: string, n: nat)
    ensures ParseLimit(TrimSuffix(TrimSuffix(text, '\n'), '\r')) == Some(n) <==> LimitText(text, n)
  {
    hide Text.AllDigits, Text.Value, TrimSuffix;
    var digits := TrimSuffix(TrimSuffix(text, '\n'), '\r');
    UntrimmedText(text);
    if ParseLimit(digits) == Some(n) { assert LimitDigits(text, n, digits); }
    if LimitText(text, n) {
      var d :| LimitDigits(text, n, d);
      TrimmedDigits(text, d);
    }
  }

  // ----- what the reader acts on ------------------------------------------------------------------------------

  /** The files say this about the flag: the merged file's line, else the presence of the legacy file. */
  ghost predicate SaysDisabled(p: Files, off: bool) {
    if exists l :: l in StateLines(p) && IsDisabled(l) then off == ("disabled=1" in StateLines(p))
    else p.disabled != Unreadable && off == p.disabled.Holds?
  }

  /** And this about the limit: the merged file's line, else the legacy file's number, else 1. */
  ghost predicate SaysLimit(p: Files, n: nat) {
    if exists l :: l in StateLines(p) && IsLimit(l) then exists l :: l in StateLines(p) && IsLimit(l) && Text.Value(l[6..], 10) == n
    else match p.limit
      case Absent => n == 1
      case Unreadable => false
      case Holds(text) => LimitText(text, n)
  }

  lemma FlagReads(p: Files, off: bool)
    requires ReadMerged(p.state).Some?
    ensures ReadDisabled(ReadMerged(p.state).value, p.disabled) == Some(off) <==> SaysDisabled(p, off)
  {
    hide ReadMerged, IsDisabled, IsLimit, IsName, StateLines, Text.Value;
    MergedReadsExactly(p);
  }

  lemma LimitReads(p: Files, n: nat)
    requires ReadMerged(p.state).Some?
    ensures var r := ReadLimit(ReadMerged(p.state).value, p.limit);
      r.Some? && (if r.value.1 then r.value.0 else 1) == n <==> SaysLimit(p, n)
  {
    hide ReadMerged, IsDisabled, IsLimit, IsName, StateLines, Text.Value, LimitText, ParseLimit, TrimSuffix;
    MergedReadsExactly(p);
    if p.limit.Holds? { LegacyLimitExactly(p.limit.text, n); }
  }

  /** MAIN: a user's policy reads as this flag and this limit exactly when the merged file is absent or well formed, and
      it, or where it is silent the legacy files, say so; every other policy is unreadable. */
  lemma PolicyReadsExactly(p: Files, off: bool, n: nat)
    ensures var v := ViewOf(p);
      v.Some? && v.value.disabled == off && v.value.limit == n <==> StateReadable(p) && SaysDisabled(p, off) && SaysLimit(p, n)
  {
    hide ReadMerged, ReadDisabled, ReadLimit, StateReadable, SaysDisabled, SaysLimit, NameFrom;
    MergedReadsExactly(p);
    if ReadMerged(p.state).Some? {
      FlagReads(p, off);
      LimitReads(p, n);
    }
  }

  /** The name is that of the merged file's line, else of the legacy file, without the white space around it. */
  lemma NameReadsExactly(p: Files)
    requires ViewOf(p).Some?
    ensures forall l :: l in StateLines(p) && IsName(l) ==> ViewOf(p).value.name == Text.TrimSpace(l[5..])
    ensures (forall l :: l in StateLines(p) ==> !IsName(l)) ==>
      ViewOf(p).value.name == if p.name.Holds? then Text.TrimSpace(p.name.text) else ""
  {
    hide ReadMerged, ReadDisabled, ReadLimit, StateLines, IsName, IsLimit, IsDisabled, Text.TrimSpace, Text.Value;
    MergedReadsExactly(p);
  }

  /** A user with nothing but a legacy file: the disabled file disables, the limit file sets the limit. */
  lemma LegacyFilesAreHonoured(p: Files, n: nat)
    requires p.state == Absent
    ensures p.disabled.Holds? && p.limit == Absent ==>
      ViewOf(p).Some? && ViewOf(p).value.disabled && ViewOf(p).value.limit == 1
    ensures p.disabled == Absent && p.limit.Holds? && LimitText(p.limit.text, n) ==>
      ViewOf(p).Some? && !ViewOf(p).value.disabled && ViewOf(p).value.limit == n
    ensures p.disabled == Unreadable || p.limit == Unreadable ==> ViewOf(p).None?
  {
    hide ReadMerged, ReadDisabled, ReadLimit, LimitText, NameFrom, ReadUserState, ViewOf, IsLimit, IsDisabled;
    PolicyReadsExactly(p, p.disabled.Holds?, 1);
    PolicyReadsExactly(p, false, n);
    if ViewOf(p).Some? && (p.disabled == Unreadable || p.limit == Unreadable) {
      LimitIsNat(p);
      PolicyReadsExactly(p, ViewOf(p).value.disabled, ViewOf(p).value.limit);
    }
  }

  lemma LimitIsNat(p: Files)
    requires ViewOf(p).Some?
    ensures ViewOf(p).value.limit >= 0
  {
    ReadInRange(p);
  }
}
