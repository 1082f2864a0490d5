/** The lease that ties the node to one panel (internal/pairing/pairing.go). Times are Unix seconds. */
module Pairing {
  import Text

  const LEASE_SECONDS := 1800
  const REFRESH_SECONDS := 60

  /** The lease file as its reader finds it; an empty panel means unpaired. */
  datatype Lease = NoFile | CannotRead | Corrupt | Lease(panel: string, lastSeen: int)

  /** now - then in 64-bit arithmetic. */
  function Age(now: int, seen: int): int {
    var d := now - seen;
    if d > Text.INT64_MAX then d - 2 * (Text.INT64_MAX + 1)
    else if d < -Text.INT64_MAX - 1 then d + 2 * (Text.INT64_MAX + 1) else d
  }

  predicate Paired(f: Lease) { f.Lease? && f.panel != "" }

  /** One call; locks and writes tell whether the lock is obtained and the new file lands. */
  datatype Call = Call(panel: string, now: int, locks: bool, writes: bool)

  function Decide(f: Lease, c: Call): (Lease, bool) {
    if !c.locks || f.CannotRead? || f.Corrupt? then (f, false)
    else if c.panel == "" then (f, !Paired(f))
    else if Paired(f) && f.panel != c.panel && Age(c.now, f.lastSeen) <= LEASE_SECONDS then (f, false)
    else if Paired(f) && f.panel == c.panel && Age(c.now, f.lastSeen) < REFRESH_SECONDS then (f, true)
    else if !c.writes then (f, false)
    else (Lease(c.panel, c.now), true)
  }

  class Pairing {
    var file: Lease

    constructor ()
      ensures file == NoFile
    {
      file := NoFile;
    }

    method Enforce(c: Call) returns (ok: bool)
      modifies this
      ensures (file, ok) == Decide(old(file), c)
    {
      if !c.locks { return false; }
      var owner, lastSeen := "", 0;
      match file {
      case NoFile =>
      case CannotRead => return false;
      case Corrupt => return false;
      case Lease(panel, seen) => if panel != "" { owner, lastSeen := panel, seen; }
      }
      if c.panel == "" { return owner == ""; }
      if owner != "" && owner != c.panel {
        if Age(c.now, lastSeen) <= LEASE_SECONDS { return false; }
      }
      if owner == c.panel && Age(c.now, lastSeen) < REFRESH_SECONDS { return true; }
      if !c.writes { return false; }
      file := Lease(c.panel, c.now);
      return true;
    }
  }

  // ----- whole runs -----------------------------------------------------------------------------

  /** The lease file before each call and after the last. */
  predicate IsRun(files: seq<Lease>, calls: seq<Call>) {
    && |files| == |calls| + 1
    && (forall i :: 0 <= i < |calls| ==> IsStep(files[i], calls[i], files[i + 1]))
    && (forall i :: 0 <= i < |calls| ==> 0 <= calls[i].now <= Text.INT64_MAX)
    && (forall i, j :: 0 <= i < j < |calls| ==> calls[i].now <= calls[j].now)
  }

  predicate IsStep(f: Lease, c: Call, f': Lease) { f' == Decide(f, c).0 }

  predicate Granted(f: Lease, c: Call) { Decide(f, c).1 }

  /** Calls only ever leave a lease that was taken at the time of some call. */
  predicate Sound(f: Lease, now: int) { Paired(f) ==> 0 <= f.lastSeen <= now }

  lemma {:induction false} RunIsSound(files: seq<Lease>, calls: seq<Call>, i: nat)
    requires IsRun(files, calls) && !Paired(files[0]) && i < |calls|
    ensures Sound(files[i], calls[i].now) && Sound(files[i + 1], calls[i].now)
  {
    assert IsStep(files[i], calls[i], files[i + 1]);
    if i > 0 {
      RunIsSound(files, calls, i - 1);
      assert calls[i - 1].now <= calls[i].now;
    }
  }

  /** A grant leaves the caller as the owner, seen less than a refresh ago. */
  predicate Owns(f: Lease, panel: string, since: int) {
    Paired(f) && f.panel == panel && f.lastSeen > since - REFRESH_SECONDS
  }

  const MIN_HANDOVER := LEASE_SECONDS + 1 - (REFRESH_SECONDS - 1)

  /** After a grant at time t the lease stays with the panel for the handover time at least. */
  lemma {:induction false} OwnerKeepsLease(files: seq<Lease>, calls: seq<Call>, i: nat, j: nat)
    requires IsRun(files, calls) && !Paired(files[0]) && i < j < |files|
    requires calls[i].panel != "" && Granted(files[i], calls[i])
    ensures Owns(files[j], calls[i].panel, calls[i].now) || calls[j - 1].now >= calls[i].now + MIN_HANDOVER
    decreases j
  {
    assert IsStep(files[j - 1], calls[j - 1], files[j]);
    RunIsSound(files, calls, j - 1);
    if j - 1 > i {
      OwnerKeepsLease(files, calls, i, j - 1);
      assert calls[j - 2].now <= calls[j - 1].now && calls[i].now <= calls[j - 1].now;
    }
  }

  /** MAIN: two grants to different panels lie at least 1742 seconds apart. */
  lemma HandoverTakesTime(files: seq<Lease>, calls: seq<Call>, i: nat, j: nat)
    requires IsRun(files, calls) && !Paired(files[0]) && i < j < |calls|
    requires calls[i].panel != "" && Granted(files[i], calls[i])
    requires calls[j].panel != "" && Granted(files[j], calls[j]) && calls[j].panel != calls[i].panel
    ensures calls[j].now >= calls[i].now + 1742
  {
    OwnerKeepsLease(files, calls, i, j);
    RunIsSound(files, calls, j);
    assert calls[j - 1].now <= calls[j].now;
  }

  /** The bound is met: two panels can be served 1742 seconds apart. */
  lemma HandoverBoundIsTight()
    ensures exists files, calls :: Handover(files, calls)
  {
    var calls := [Call("a", 0, true, true), Call("a", 59, true, true), Call("b", 1801, true, true)];
    var files := [NoFile, Lease("a", 0), Lease("a", 0), Lease("b", 1801)];
    assert IsStep(files[0], calls[0], files[1]) && IsStep(files[1], calls[1], files[2]) && IsStep(files[2], calls[2], files[3]);
    assert Handover(files, calls);
  }

  predicate Handover(files: seq<Lease>, calls: seq<Call>) {
    && IsRun(files, calls) && files[0] == NoFile && |calls| == 3
    && Granted(files[1], calls[1]) && Granted(files[2], calls[2])
    && calls[1].panel != "" && calls[2].panel != "" && calls[1].panel != calls[2].panel
    && calls[2].now == calls[1].now + 1742
  }

  /** The lease stays as a grant left it while no panel is granted anything. */
  lemma {:induction false} NobodyElse(files: seq<Lease>, calls: seq<Call>, i: nat, j: nat)
    requires IsRun(files, calls) && i < j < |files|
    requires forall k :: i < k < j ==> !Granted(files[k], calls[k])
    ensures files[j] == files[i + 1]
    decreases j
  {
    assert IsStep(files[j - 1], calls[j - 1], files[j]);
    if j - 1 > i {
      NobodyElse(files, calls, i, j - 1);
      assert !Granted(files[j - 1], calls[j - 1]);
    }
  }

  /** MAIN: a foreign panel that calls more than 1800 seconds after the owner's last grant is granted. */
  lemma ExpiredLeaseIsGranted(files: seq<Lease>, calls: seq<Call>, i: nat, j: nat)
    requires IsRun(files, calls) && !Paired(files[0]) && i < j < |calls|
    requires calls[i].panel != "" && Granted(files[i], calls[i])
    requires forall k :: i < k < j ==> !Granted(files[k], calls[k])
    requires calls[j].panel != "" && calls[j].panel != calls[i].panel && calls[j].locks && calls[j].writes
    requires calls[j].now > calls[i].now + 1800
    ensures Granted(files[j], calls[j])
  {
    assert IsStep(files[i], calls[i], files[i + 1]);
    NobodyElse(files, calls, i, j);
    RunIsSound(files, calls, i);
  }

  /** MAIN: after any panel was granted, no anonymous call is granted. */
  lemma {:induction false} AnonymousRefusedOncePaired(files: seq<Lease>, calls: seq<Call>, i: nat, j: nat)
    requires IsRun(files, calls) && i < j < |files|
    requires calls[i].panel != "" && Granted(files[i], calls[i])
    ensures Paired(files[j]) && (j < |calls| && calls[j].panel == "" ==> !Granted(files[j], calls[j]))
    decreases j
  {
    assert IsStep(files[j - 1], calls[j - 1], files[j]);
    if j - 1 > i { AnonymousRefusedOncePaired(files, calls, i, j - 1); }
  }

  // ----- who is served ----------------------------------------------------------------------------

  /** Between i and j no other panel is granted anything. */
  predicate NoOtherPanel(files: seq<Lease>, calls: seq<Call>, i: nat, j: nat)
    requires |files| == |calls| + 1 && i < |calls| && j <= |calls|
  {
    forall k :: i < k < j && Granted(files[k], calls[k]) && calls[k].panel != "" ==> calls[k].panel == calls[i].panel
  }

  lemma {:induction false} OwnerStays(files: seq<Lease>, calls: seq<Call>, i: nat, j: nat)
    requires IsRun(files, calls) && i < j < |files| && NoOtherPanel(files, calls, i, j)
    requires calls[i].panel != "" && Granted(files[i], calls[i])
    ensures Paired(files[j]) && files[j].panel == calls[i].panel
    decreases j
  {
    assert IsStep(files[j - 1], calls[j - 1], files[j]);
    if j - 1 > i { OwnerStays(files, calls, i, j - 1); }
  }

  /** MAIN: the panel that was granted last is granted every call for which the lock and the write work, however late. */
  lemma OwnerIsServed(files: seq<Lease>, calls: seq<Call>, i: nat, j: nat)
    requires IsRun(files, calls) && i < j < |calls| && NoOtherPanel(files, calls, i, j)
    requires calls[i].panel != "" && Granted(files[i], calls[i])
    requires calls[j].panel == calls[i].panel && calls[j].locks && calls[j].writes
    ensures Granted(files[j], calls[j]) && Paired(files[j + 1]) && files[j + 1].panel == calls[j].panel
  {
    OwnerStays(files, calls, i, j);
    assert IsStep(files[j], calls[j], files[j + 1]);
  }

  lemma {:induction false} NothingTaken(files: seq<Lease>, calls: seq<Call>, j: nat)
    requires IsRun(files, calls) && j < |files|
    requires forall k :: 0 <= k < j && calls[k].panel != "" ==> !Granted(files[k], calls[k])
    ensures files[j] == files[0]
  {
    if j > 0 {
      assert IsStep(files[j - 1], calls[j - 1], files[j]);
      NothingTaken(files, calls, j - 1);
    }
  }

  /** MAIN: while no panel has been granted anything on an unpaired node, every panel whose lock and write work is granted
      and takes the lease, and every anonymous call that gets the lock is granted. */
  lemma UnpairedServesAnyone(files: seq<Lease>, calls: seq<Call>, j: nat)
    requires IsRun(files, calls) && j < |calls|
    requires files[0] == NoFile || (files[0].Lease? && files[0].panel == "")
    requires forall k :: 0 <= k < j && calls[k].panel != "" ==> !Granted(files[k], calls[k])
    ensures calls[j].panel != "" && calls[j].locks && calls[j].writes ==>
      Granted(files[j], calls[j]) && files[j + 1] == Lease(calls[j].panel, calls[j].now)
    ensures calls[j].panel == "" && calls[j].locks ==> Granted(files[j], calls[j])
  {
    NothingTaken(files, calls, j);
    assert IsStep(files[j], calls[j], files[j + 1]);
  }

  /** MAIN: a lease file that cannot be read or parsed, or a lock that is not obtained, refuses every call and stays. */
  lemma BrokenLeaseRefuses(files: seq<Lease>, calls: seq<Call>, j: nat)
    requires IsRun(files, calls) && j < |calls|
    requires files[j].CannotRead? || files[j].Corrupt? || !calls[j].locks
    ensures !Granted(files[j], calls[j]) && files[j + 1] == files[j]
  {
    assert IsStep(files[j], calls[j], files[j + 1]);
  }
}
