/** The per-user policy: one merged file beside the legacy split files
    (internal/store/state.go, store.go and users.go). */
module Policy {
  import opened Wrappers
  import Text

  /** The policy files of one user directory; a directory that does not exist holds none. */
  datatype Files = Files(state: File, limit: File, disabled: File, name: File)

  const NO_FILES := Files(Absent, Absent, Absent, Absent)

  datatype UserState = UserState(limit: int, limitSet: bool, disabled: bool, name: string, nameSet: bool)

  const NO_STATE := UserState(0, false, false, "", false)

  predicate ValidName(name: string) {
    forall i :: 0 <= i < |name| ==> name[i] >= ' ' && name[i] != '\U{7F}'
  }

  /** strconv.Atoi on digits only. */
  function ParseLimit(v: string): (r: Option<int>)
    ensures r.Some? ==> 0 <= r.value <= Text.INT64_MAX
  {
    if Text.AllDigits(v) && Text.Value(v, 10) <= Text.INT64_MAX then Some(Text.Value(v, 10)) else None
  }

  // ----- reading the merged file ------------------------------------------------------------------

  datatype Reading = Reading(st: UserState, disabledSet: bool, seen: set<string>)

  /** One line of the merged file; None is a corrupt policy. */
  function ReadLine(r: Reading, line: string): Option<Reading> {
    var (k, v, ok) := Text.Cut(line, '=');
    var seen := r.seen + {k};
    if line == "" then Some(r)
    else if !ok || k in r.seen then None
    else if k == "limit" then
      match ParseLimit(v)
      case None => None
      case Some(n) => Some(r.(st := r.st.(limit := n, limitSet := true), seen := seen))
    else if k == "disabled" then
      if v == "0" || v == "1" then Some(Reading(r.st.(disabled := v == "1"), true, seen)) else None
    else if k == "name" then
      if ValidName(v) then Some(r.(st := r.st.(name := v, nameSet := true), seen := seen)) else None
    else None
  }

  function ReadLines(r: Reading, lines: seq<string>): Option<Reading>
    decreases |lines|
  {
    if lines == [] then Some(r)
    else match ReadLine(r, lines[0])
      case None => None
      case Some(next) => ReadLines(next, lines[1..])
  }

  const START := Reading(NO_STATE, false, {})

  function ReadMerged(file: File): Option<Reading> {
    match file
    case Absent => Some(START)
    case Unreadable => None
    case Holds(text) =>
      var r := ReadLines(START, Text.Split(text, '\n'));
      if r.Some? && r.value.seen == {} then None else r
  }

  function TrimSuffix(s: string, c: char): string {
    if s != "" && s[|s| - 1] == c then s[..|s| - 1] else s
  }

  /** The legacy marker counts only when the merged file is silent about it. */
  function ReadDisabled(r: Reading, file: File): Option<bool> {
    if r.disabledSet then Some(r.st.disabled)
    else match file
      case Absent => Some(false)
      case Unreadable => None
      case Holds(_) => Some(true)
  }

  function ReadLimit(r: Reading, file: File): Option<(int, bool)> {
    if r.st.limitSet then Some((r.st.limit, true))
    else match file
      case Absent => Some((0, false))
      case Unreadable => None
      case Holds(text) =>
        match ParseLimit(TrimSuffix(TrimSuffix(text, '\n'), '\r'))
        case None => None
        case Some(n) => Some((n, true))
  }

  function ReadUserState(p: Files): Option<UserState> {
    match ReadMerged(p.state)
    case None => None
    case Some(r) =>
      match ReadDisabled(r, p.disabled)
      case None => None
      case Some(off) =>
        match ReadLimit(r, p.limit)
        case None => None
        case Some((limit, limitSet)) => Some(r.st.(disabled := off, limit := limit, limitSet := limitSet))
  }

  function NameFrom(st: UserState, file: File): string {
    if st.nameSet then Text.TrimSpace(st.name)
    else if file.Holds? then Text.TrimSpace(file.text) else ""
  }

  function ReadName(p: Files): string {
    match ReadUserState(p)
    case None => ""
    case Some(st) => NameFrom(st, p.name)
  }

  // ----- merging a partial update ------------------------------------------------------------------

  /** The name the merge starts from: the merged one, else the legacy file's; None refuses the write. */
  function CurrentName(st: UserState, file: File): Option<(string, bool)> {
    if st.nameSet then Some((st.name, true))
    else match file
      case Absent => Some(("", false))
      case Unreadable => None
      case Holds(text) => if ValidName(Text.TrimSpace(text)) then Some((Text.TrimSpace(text), true)) else None
  }

  datatype Update = Update(name: Option<string>, limit: Option<int>, disabled: Option<bool>)

  function NewLimit(st: UserState, u: Update): int {
    if u.limit.Some? then (if u.limit.value < 0 then 0 else u.limit.value)
    else if st.limitSet then st.limit else 1
  }

  predicate WritesLimit(st: UserState, u: Update) {
    st.limitSet || u.limit.Some? || u.disabled.Some? || u.name.None?
  }

  /** The lines of the merged file that an update writes. */
  function NewLines(st: UserState, current: (string, bool), u: Update): seq<string> {
    var off := if u.disabled.Some? then u.disabled.value else st.disabled;
    var name := if u.name.Some? then (u.name.value, true) else current;
    (if WritesLimit(st, u) then ["limit=" + Text.FormatInt(NewLimit(st, u))] else [])
    + ["disabled=" + if off then "1" else "0"]
    + (if name.1 then ["name=" + name.0] else [])
  }

  /** The merged file to write, or None when the update is refused before any write. */
  function NewBody(p: Files, u: Update): Option<string> {
    if u.name.Some? && !ValidName(u.name.value) then None
    else match ReadUserState(p)
      case None => None
      case Some(st) =>
        match CurrentName(st, p.name)
        case None => None
        case Some(current) => Some(Text.Join(NewLines(st, current, u) + [""], '\n'))
  }

  /** The files after an update that was stopped, by a crash or an error, after some of its commits:
      the merged file, then the three legacy removals. */
  function WriteUserPolicy(p: Files, u: Update, commits: nat): (r: (Files, bool)) {
    var body := NewBody(p, u);
    if body.None? || commits == 0 then (p, false)
    else (Files(Holds(body.value),
                if commits >= 2 then Absent else p.limit,
                if commits >= 3 then Absent else p.disabled,
                if commits >= 4 then Absent else p.name), commits >= 4)
  }

  /** The user directory as the store updates it, file by file. */
  class UserDir {
    var files: Files

    constructor ()
      ensures files == NO_FILES
    {
      files := NO_FILES;
    }

    method Load() returns (st: Option<UserState>)
      ensures st == ReadUserState(files)
    {
      var r := START;
      match files.state {
      case Unreadable => return None;
      case Absent =>
      case Holds(text) =>
        var lines := Text.Split(text, '\n');
        for i := 0 to |lines|
          invariant ReadLines(r, lines[i..]) == ReadLines(START, lines)
        {
          var next := ReadLine(r, lines[i]);
          assert lines[i..][1..] == lines[i + 1..];
          if next.None? { return None; }
          r := next.value;
        }
        if r.seen == {} { return None; }
      }
      var off := ReadDisabled(r, files.disabled);
      if off.None? { return None; }
      var limit := ReadLimit(r, files.limit);
      if limit.None? { return None; }
      st := Some(r.st.(disabled := off.value, limit := limit.value.0, limitSet := limit.value.1));
    }

    /** Read, merge, write the merged file, and remove the legacy files one by one. The call stops
        after the given number of commits when there are more to do. */
    method Update(u: Update, commits: nat) returns (ok: bool)
      modifies this
      ensures (files, ok) == WriteUserPolicy(old(files), u, commits)
    {
      if u.name.Some? && !ValidName(u.name.value) { return false; }
      var current := Load();
      if current.None? { return false; }
      var st := current.value;
      var name := CurrentName(st, files.name);
      if name.None? { return false; }
      var body := Text.Join(NewLines(st, name.value, u) + [""], '\n');
      if commits == 0 { return false; }
      files := files.(state := Holds(body));
      if commits == 1 { return false; }
      files := files.(limit := Absent);
      if commits == 2 { return false; }
      files := files.(disabled := Absent);
      if commits == 3 { return false; }
      files := files.(name := Absent);
      return true;
    }
  }

  // ----- what an update does to the policy that readers see ------------------------------------------

  const DEFAULT_LIMIT := 1

  /** The policy a reader acts on: the login limit with its default, the disabled flag and the name. */
  datatype View = View(limit: int, disabled: bool, name: string)

  function ViewFrom(st: UserState, file: File): View {
    View(if st.limitSet then st.limit else DEFAULT_LIMIT, st.disabled, NameFrom(st, file))
  }

  function ViewOf(p: Files): (v: Option<View>)
    ensures v.Some? ==> v.value.name == ReadName(p)
  {
    match ReadUserState(p)
    case None => None
    case Some(st) => Some(ViewFrom(st, p.name))
  }

  /** Replace the given fields and keep the others. */
  function Merged(v: View, u: Update): View {
    View(if u.limit.Some? then (if u.limit.value < 0 then 0 else u.limit.value) else v.limit,
         if u.disabled.Some? then u.disabled.value else v.disabled,
         if u.name.Some? then Text.TrimSpace(u.name.value) else v.name)
  }

  /** What the written file says. */
  function NewReading(st: UserState, current: (string, bool), u: Update): UserState {
    var name := if u.name.Some? then (u.name.value, true) else current;
    UserState(if WritesLimit(st, u) then NewLimit(st, u) else 0, WritesLimit(st, u),
              if u.disabled.Some? then u.disabled.value else st.disabled, name.0, name.1)
  }

  lemma {:induction false} ReadLinesConcat(r: Reading, a: seq<string>, b: seq<string>)
    ensures ReadLines(r, a + b) ==
            match ReadLines(r, a) { case None => None case Some(mid) => ReadLines(mid, b) }
    decreases |a|
  {
    if a == [] {
      assert a + b == b;
    } else {
      assert (a + b)[1..] == a[1..] + b;
      var next := ReadLine(r, a[0]);
      if next.Some? { ReadLinesConcat(next.value, a[1..], b); }
    }
  }

  lemma ReadOneLine(r: Reading, line: string)
    ensures ReadLines(r, [line]) == ReadLine(r, line)
  {
    assert [line][1..] == [];
    if ReadLine(r, line).Some? { assert ReadLines(ReadLine(r, line).value, []) == ReadLine(r, line); }
  }

  lemma KeyLine(k: string, v: string)
    requires '=' !in k
    ensures Text.Cut(k + "=" + v, '=') == (k, v, true) && k + "=" + v != ""
  {
    Text.CutConcat(k, '=', v);
    assert k + "=" + v == k + ['='] + v;
  }

  lemma ReadLimitLine(n: int)
    requires 0 <= n <= Text.INT64_MAX
    ensures ReadLine(START, "limit=" + Text.FormatInt(n)) ==
            Some(Reading(NO_STATE.(limit := n, limitSet := true), false, {"limit"}))
  {
    KeyLine("limit", Text.FormatInt(n));
    assert "limit=" + Text.FormatInt(n) == "limit" + "=" + Text.FormatInt(n);
    Text.ValueRender(n, 10);
    assert Text.AllDigits(Text.FormatInt(n)) && ParseLimit(Text.FormatInt(n)) == Some(n);
    assert {} + {"limit"} == {"limit"};
  }

  lemma ReadDisabledLine(r: Reading, off: bool)
    requires "disabled" !in r.seen
    ensures ReadLine(r, "disabled=" + if off then "1" else "0") ==
            Some(Reading(r.st.(disabled := off), true, r.seen + {"disabled"}))
  {
    var v := if off then "1" else "0";
    KeyLine("disabled", v);
    assert "disabled=" + v == "disabled" + "=" + v;
  }

  lemma ReadNameLine(r: Reading, name: string)
    requires "name" !in r.seen && ValidName(name)
    ensures ReadLine(r, "name=" + name) ==
            Some(r.(st := r.st.(name := name, nameSet := true), seen := r.seen + {"name"}))
  {
    KeyLine("name", name);
    assert "name=" + name == "name" + "=" + name;
  }

  predicate Sane(u: Update) {
    (u.name.Some? ==> ValidName(u.name.value)) && (u.limit.Some? ==> u.limit.value <= Text.INT64_MAX)
  }

  lemma NewLinesPlain(st: UserState, current: (string, bool), u: Update)
    requires Sane(u) && ValidName(current.0) && 0 <= NewLimit(st, u)
    ensures forall l :: l in NewLines(st, current, u) + [""] ==> '\n' !in l
  {
    var name := if u.name.Some? then (u.name.value, true) else current;
    assert '\n' !in name.0 by { assert ValidName(name.0); }
    assert '\n' !in Text.FormatInt(NewLimit(st, u));
  }

  /** Reading the merged file that an update writes. */
  lemma ReadNewLines(st: UserState, current: (string, bool), u: Update)
    requires Sane(u) && ValidName(current.0) && (!current.1 ==> current.0 == "")
    requires 0 <= NewLimit(st, u) <= Text.INT64_MAX
    ensures var r := ReadLines(START, NewLines(st, current, u) + [""]);
      r.Some? && r.value.st == NewReading(st, current, u) && r.value.disabledSet && r.value.seen != {}
  {
    var off := if u.disabled.Some? then u.disabled.value else st.disabled;
    var name := if u.name.Some? then (u.name.value, true) else current;
    var a := if WritesLimit(st, u) then ["limit=" + Text.FormatInt(NewLimit(st, u))] else [];
    var d := ["disabled=" + if off then "1" else "0"];
    var n := if name.1 then ["name=" + name.0] else [];
    var r1 := if WritesLimit(st, u) then Reading(NO_STATE.(limit := NewLimit(st, u), limitSet := true), false, {"limit"})
              else START;
    var r2 := Reading(r1.st.(disabled := off), true, r1.seen + {"disabled"});
    var r3 := if name.1 then r2.(st := r2.st.(name := name.0, nameSet := true), seen := r2.seen + {"name"}) else r2;
    assert ReadLines(START, a) == Some(r1) by {
      if WritesLimit(st, u) { ReadLimitLine(NewLimit(st, u)); ReadOneLine(START, a[0]); }
    }
    assert ReadLines(r1, d) == Some(r2) by {
      assert "disabled" !in r1.seen;
      ReadDisabledLine(r1, off);
      ReadOneLine(r1, d[0]);
    }
    assert ReadLines(r2, n) == Some(r3) by {
      assert "name" !in r2.seen;
      if name.1 { ReadNameLine(r2, name.0); ReadOneLine(r2, n[0]); }
    }
    assert ReadLines(r3, [""]) == Some(r3) by { ReadOneLine(r3, ""); }
    ReadLinesConcat(START, a, d);
    ReadLinesConcat(START, a + d, n);
    ReadLinesConcat(START, a + d + n, [""]);
    assert "disabled" in r3.seen;
  }

  /** An update that is neither refused nor stopped before its first commit. */
  predicate Accepted(p: Files, u: Update) { NewBody(p, u).Some? }

  /** The merge goes through exactly when the policy and any name it must carry over can be read. */
  lemma AcceptedExactly(p: Files, u: Update)
    requires Sane(u)
    ensures Accepted(p, u) <==> ReadUserState(p).Some? && CurrentName(ReadUserState(p).value, p.name).Some?
    ensures !Accepted(p, u) ==> forall commits :: WriteUserPolicy(p, u, commits) == (p, false)
  {
  }

  lemma ReadRange(r: Reading, lines: seq<string>)
    requires ValidName(r.st.name) && (r.st.limitSet ==> 0 <= r.st.limit <= Text.INT64_MAX)
    requires !r.st.nameSet ==> r.st.name == ""
    ensures var out := ReadLines(r, lines);
      out.Some? ==> ValidName(out.value.st.name) && (out.value.st.limitSet ==> 0 <= out.value.st.limit <= Text.INT64_MAX)
                    && (!out.value.st.nameSet ==> out.value.st.name == "")
    decreases |lines|
  {
    if lines != [] && ReadLine(r, lines[0]).Some? { ReadRange(ReadLine(r, lines[0]).value, lines[1..]); }
  }

  predicate InRange(st: UserState) {
    && ValidName(st.name) && (!st.nameSet ==> st.name == "")
    && (st.limitSet ==> 0 <= st.limit <= Text.INT64_MAX)
  }

  lemma ReadInRange(p: Files)
    requires ReadUserState(p).Some?
    ensures InRange(ReadUserState(p).value)
    ensures !ReadUserState(p).value.limitSet ==> p.limit == Absent
  {
    if p.state.Holds? { ReadRange(START, Text.Split(p.state.text, '\n')); }
  }

  /** Reading back what an update wrote, whatever legacy files are still there. */
  lemma ReadUpdated(p': Files, st: UserState, current: (string, bool), u: Update)
    requires Sane(u) && InRange(st) && ValidName(current.0) && (!current.1 ==> current.0 == "")
    requires p'.state == Holds(Text.Join(NewLines(st, current, u) + [""], '\n'))
    requires !WritesLimit(st, u) ==> p'.limit == Absent
    ensures ReadUserState(p') == Some(NewReading(st, current, u))
  {
    var lines := NewLines(st, current, u) + [""];
    NewLinesPlain(st, current, u);
    Text.SplitJoin(lines, '\n');
    ReadNewLines(st, current, u);
    var r := ReadMerged(p'.state).value;
    assert ReadDisabled(r, p'.disabled) == Some(r.st.disabled);
    assert ReadLimit(r, p'.limit) == Some((r.st.limit, r.st.limitSet));
  }

  /** Merging on what the file says is merging on what readers see. */
  lemma ViewOfNewReading(file: File, file': File, st: UserState, current: (string, bool), u: Update)
    requires InRange(st) && CurrentName(st, file) == Some(current)
    requires u.name.None? && !current.1 ==> file' == Absent
    ensures ViewFrom(NewReading(st, current, u), file') == Merged(ViewFrom(st, file), u)
  {
    assert NameFrom(st, file) == Text.TrimSpace(current.0);
  }

  /** MAIN: from any readable mix of merged and legacy files, and whenever the update stops, readers see
      wholly the old policy or the old policy with exactly the given fields replaced. */
  lemma UpdateIsExactAndAtomic(p: Files, u: Update, commits: nat)
    requires Sane(u) && Accepted(p, u)
    ensures ViewOf(p).Some?
    ensures var (p', ok) := WriteUserPolicy(p, u, commits);
      && (commits == 0 ==> p' == p)
      && (commits > 0 ==> ViewOf(p') == Some(Merged(ViewOf(p).value, u)))
      && (ok <==> commits >= 4)
      && (ok ==> p'.limit == Absent && p'.disabled == Absent && p'.name == Absent)
  {
    if commits > 0 {
      var st := ReadUserState(p).value;
      var current := CurrentName(st, p.name).value;
      ReadInRange(p);
      var p' := WriteUserPolicy(p, u, commits).0;
      ReadUpdated(p', st, current, u);
      ViewOfNewReading(p.name, p'.name, st, current, u);
    }
  }
}
