/** Which counter files can be read, what becomes of the others, and when a counter's epoch changes
    (internal/store/counter.go:80-153 and 239-302). */
module CounterLaws {
  import opened Wrappers
  import opened Counter
  import opened CounterHistory
  import Names

  /** A legacy number below 2^64, or version 2 with an epoch, a total and sessions. */
  predicate WellFormed(f: CounterFile) {
    match f
    case Unavailable => false
    case Digits(n) => n < 0x1_0000_0000_0000_0000
    case Json(version, epoch, total, sessions) =>
      version == Some(2) && epoch.Some? && epoch.value != "" && total.Some? && sessions.Some?
  }

  /** The total and the sessions that a file stands for. */
  predicate StandsFor(f: CounterFile, st: UsageState) {
    match f
    case Unavailable => false
    case Digits(n) => st.total == n && st.sessions == map[]
    case Json(_, epoch, total, sessions) =>
      && epoch == Some(st.epoch) && total == Some(st.total) && sessions.Some? && st.sessions.Keys == sessions.value.Keys
      && forall id :: id in st.sessions ==>
           st.sessions[id].bytes == sessions.value[id].bytes && st.sessions[id].closed == sessions.value[id].closed
  }

  /** MAIN: a counter can be read exactly when its file is absent or well formed: an absent one counts nothing under the
      fresh epoch, any other what its file says. */
  lemma CounterReadsExactly(files: Files, safe: string, epoch: string)
    ensures var r := ReadFile(files, safe, epoch);
      && (r.Ok? <==> (safe in files ==> WellFormed(files[safe])))
      && (r.Ok? && safe in files ==> StandsFor(files[safe], r.value))
      && (safe !in files ==> r == Ok(UsageState(2, epoch, 0, map[])))
  {
  }

  lemma UnreadableStays(files: Files, cn: string, c: Call)
    requires Names.SafeCN(cn).Some? && Names.SafeCN(cn).value in files && !WellFormed(files[Names.SafeCN(cn).value])
    ensures Perform(files, cn, c) == files
  {
    hide Names.SafeCN, Names.StoreKey, ReadFile, WellFormed, StandsFor, RecordState, BankState, PruneState, ResetState, Encode,
      Upgraded;
    forall epoch: string ensures ReadFile(files, Names.SafeCN(cn).value, epoch).Err? {
      CounterReadsExactly(files, Names.SafeCN(cn).value, epoch);
    }
  }

  /** MAIN: a counter file that cannot be read is never rewritten, whatever is called, so it never turns into a zero. */
  lemma {:induction false} UnreadableCounterIsKept(files: Files, cn: string, calls: seq<Call>)
    requires Names.SafeCN(cn).Some? && Names.SafeCN(cn).value in files && !WellFormed(files[Names.SafeCN(cn).value])
    ensures PerformAll(files, cn, calls) == files
  {
    hide Perform, WellFormed, Names.SafeCN;
    if calls != [] {
      UnreadableCounterIsKept(files, cn, calls[..|calls| - 1]);
      UnreadableStays(files, cn, calls[|calls| - 1]);
    }
  }

  // ----- epochs ----------------------------------------------------------------------------------------

  /** The epoch after some calls: that of the last reset whose lock and write worked, else the one before. */
  function EpochAfter(epoch: string, calls: seq<Call>): string {
    if calls == [] then epoch
    else
      var c := calls[|calls| - 1];
      if c.op.ResetTo? && c.disk.lockOk && c.disk.writeOk then c.op.epoch else EpochAfter(epoch, calls[..|calls| - 1])
  }

  predicate HasEpoch(files: Files, cn: string, epoch: string) {
    Names.SafeCN(cn).Some? &&
    var r := ReadFile(files, Names.SafeCN(cn).value, "");
    r.Ok? && r.value.version == 2 && r.value.epoch == epoch
  }

  lemma SameEpochRead(files: Files, safe: string, epoch: string, other: string)
    requires ReadFile(files, safe, "").Ok? && ReadFile(files, safe, "").value.version == 2
    requires ReadFile(files, safe, "").value.epoch == epoch != ""
    ensures ReadFile(files, safe, other) == ReadFile(files, safe, "") && Filled(ReadFile(files, safe, "").value.sessions)
  {
    ReadFills(files, safe, "");
  }

  lemma CommitHasEpoch(files: Files, cn: string, st: UsageState, op: Op)
    requires Names.SafeCN(cn).Some? && st.version == 2 && st.epoch != "" && Filled(st.sessions)
    requires Apply(st, op).Some? && (op.ResetTo? ==> op.epoch != "")
    ensures HasEpoch(files[Names.SafeCN(cn).value := Encode(Apply(st, op).value)], cn, if op.ResetTo? then op.epoch else st.epoch)
  {
    hide Names.SafeCN, ReadFile, Encode;
    ApplyFills(st, op);
    FilledReadsBack(files, Names.SafeCN(cn).value, Apply(st, op).value, "");
  }

  lemma EpochStep(files: Files, cn: string, c: Call, epoch: string)
    requires HasEpoch(files, cn, epoch) && epoch != "" && (c.op.ResetTo? ==> c.op.epoch != "")
    ensures HasEpoch(Perform(files, cn, c), cn,
                     if c.op.ResetTo? && c.disk.lockOk && c.disk.writeOk then c.op.epoch else epoch)
  {
    hide Names.SafeCN, Names.StoreKey, ReadFile, Encode, RecordState, BankState, PruneState, ResetState, Filled;
    var safe := Names.SafeCN(cn).value;
    var st := ReadFile(files, safe, "").value;
    SameEpochRead(files, safe, epoch, c.epoch);
    if c.op.ResetTo? { SameEpochRead(files, safe, epoch, c.op.epoch); }
    if Apply(st, c.op).Some? { CommitHasEpoch(files, cn, st, c.op); }
  }

  /** MAIN: the epoch of a counter changes exactly by resets, each committed one setting its own. */
  lemma {:induction false} OnlyResetsRotateEpochs(files: Files, cn: string, calls: seq<Call>, epoch: string)
    requires HasEpoch(files, cn, epoch) && epoch != "" && GoodEpochs(calls)
    ensures HasEpoch(PerformAll(files, cn, calls), cn, EpochAfter(epoch, calls)) && EpochAfter(epoch, calls) != ""
  {
    hide Perform, HasEpoch;
    if calls != [] {
      var before, c := calls[..|calls| - 1], calls[|calls| - 1];
      assert c in calls && forall x :: x in before ==> x in calls;
      OnlyResetsRotateEpochs(files, cn, before, epoch);
      EpochStep(PerformAll(files, cn, before), cn, c, EpochAfter(epoch, before));
    }
  }
}
