/** Queued operations on one user: each captures the user's identity before it waits for the lock and
    rechecks it under the lock (internal/ovpn/lifecycle.go:19-67, internal/store/store.go:152-172).
    The calls are separate processes or goroutines, so the model is a transition system. */
module Lifecycle {
  import opened Wrappers

  /** Where an identity was captured: the user directory, or the issued certificate when there is none. */
  datatype Place = Dir | IssuedCert

  /** A file system object; its number is not given to another one while it is linked or held open. */
  datatype Identity = Identity(at: Place, inode: nat)

  datatype Phase =
    | Opening                         // about to open the directory
    | NoDir                           // the directory was missing; about to open the certificate
    | Waiting(gen: Option<Identity>)  // holds its identity open and waits for the lock
    | Locked(gen: Option<Identity>)   // has the lock, not yet rechecked
    | Running(gen: Option<Identity>)  // in its body
    | Over(ran: bool)

  datatype State = State(dir: Option<nat>, issued: Option<nat>, calls: map<nat, Phase>, holder: Option<nat>)

  function Linked(s: State, at: Place): Option<nat> {
    match at case Dir => s.dir case IssuedCert => s.issued
  }

  datatype Event =
    | Begin(c: nat)
    | OpenDir(c: nat)
    | OpenIssued(c: nat)
    | Acquire(c: nat)
    | Recheck(c: nat)
    | Change(c: nat, dir: Option<nat>, issued: Option<nat>)  // the body of c links or unlinks
    | Outside(dir: Option<nat>, issued: Option<nat>)         // anything else does
    | Finish(c: nat)
    | Quit(c: nat)                                           // an error before the body, or the process dies

  function HeldBy(p: Phase): Option<nat> {
    if (p.Waiting? || p.Locked? || p.Running?) && p.gen.Some? then Some(p.gen.value.inode) else None
  }

  predicate Held(s: State, inode: nat) {
    exists c :: c in s.calls && HeldBy(s.calls[c]) == Some(inode)
  }

  /** A link may stay, go, or be to an object that is neither linked nor held open. */
  predicate Relinks(s: State, before: Option<nat>, after: Option<nat>) {
    after == before || after == None
    || (!Held(s, after.value) && s.dir != after && s.issued != after)
  }

  predicate Relinked(s: State, dir: Option<nat>, issued: Option<nat>) {
    Relinks(s, s.dir, dir) && Relinks(s, s.issued, issued)
  }

  predicate In(s: State, c: nat) { c in s.calls }

  function To(s: State, c: nat, p: Phase): State { s.(calls := s.calls[c := p]) }

  predicate Enabled(s: State, e: Event) {
    match e
    case Begin(c) => !In(s, c)
    case OpenDir(c) => In(s, c) && s.calls[c].Opening?
    case OpenIssued(c) => In(s, c) && s.calls[c].NoDir?
    case Acquire(c) => In(s, c) && s.calls[c].Waiting? && s.holder == None
    case Recheck(c) => In(s, c) && s.calls[c].Locked?
    case Change(c, dir, issued) => In(s, c) && s.calls[c].Running? && Relinked(s, dir, issued)
    case Outside(dir, issued) => Relinked(s, dir, issued)
    case Finish(c) => In(s, c) && s.calls[c].Running?
    case Quit(c) => In(s, c) && !s.calls[c].Over?
  }

  /** The recheck lets a call in when it captured nothing or what it captured is still there. */
  predicate SameGeneration(s: State, gen: Option<Identity>) {
    gen == None || Linked(s, gen.value.at) == Some(gen.value.inode)
  }

  function Next(s: State, e: Event): State
    requires Enabled(s, e)
  {
    match e
    case Begin(c) => To(s, c, Opening)
    case OpenDir(c) => To(s, c, if s.dir.Some? then Waiting(Some(Identity(Dir, s.dir.value))) else NoDir)
    case OpenIssued(c) =>
      To(s, c, Waiting(if s.issued.Some? then Some(Identity(IssuedCert, s.issued.value)) else None))
    case Acquire(c) => To(s, c, Locked(s.calls[c].gen)).(holder := Some(c))
    case Recheck(c) =>
      if SameGeneration(s, s.calls[c].gen) then To(s, c, Running(s.calls[c].gen))
      else To(s, c, Over(false)).(holder := None)
    case Change(_, dir, issued) => s.(dir := dir, issued := issued)
    case Outside(dir, issued) => s.(dir := dir, issued := issued)
    case Finish(c) => To(s, c, Over(true)).(holder := None)
    case Quit(c) => To(s, c, Over(s.calls[c].Running?)).(holder := if s.holder == Some(c) then None else s.holder)
  }

  /** A run: every event was possible when it happened. */
  predicate IsRun(run: seq<State>, events: seq<Event>) {
    && |run| == |events| + 1
    && forall i :: 0 <= i < |events| ==> IsStep(run[i], events[i], run[i + 1])
  }

  predicate IsStep(s: State, e: Event, s': State) { Enabled(s, e) && s' == Next(s, e) }

  predicate Initial(s: State) { s.calls == map[] && s.holder == None }

  // ----- mutual exclusion -----------------------------------------------------------------------

  /** Whoever is past the lock holds it, and a recorded holder is past the lock. */
  predicate HoldsLock(s: State, c: nat) {
    (In(s, c) && (s.calls[c].Locked? || s.calls[c].Running?)) <==> s.holder == Some(c)
  }

  ghost predicate Exclusive(s: State) { forall c :: HoldsLock(s, c) }

  lemma StepKeepsExclusive(s: State, e: Event, s': State)
    requires Exclusive(s) && IsStep(s, e, s')
    ensures Exclusive(s')
  {
    forall c ensures HoldsLock(s', c) {
      assert HoldsLock(s, c) && (e.Outside? || HoldsLock(s, e.c));
    }
  }

  lemma {:induction false} RunIsExclusive(run: seq<State>, events: seq<Event>, i: nat)
    requires IsRun(run, events) && Initial(run[0]) && i < |run|
    ensures Exclusive(run[i])
  {
    if i > 0 {
      RunIsExclusive(run, events, i - 1);
      assert IsStep(run[i - 1], events[i - 1], run[i]);
      StepKeepsExclusive(run[i - 1], events[i - 1], run[i]);
    }
  }

  /** MAIN: in every interleaving, no two bodies run at once. */
  lemma BodiesNeverOverlap(run: seq<State>, events: seq<Event>, i: nat, c: nat, d: nat)
    requires IsRun(run, events) && Initial(run[0]) && i < |run|
    requires In(run[i], c) && In(run[i], d) && run[i].calls[c].Running? && run[i].calls[d].Running?
    ensures c == d
  {
    RunIsExclusive(run, events, i);
    assert HoldsLock(run[i], c) && HoldsLock(run[i], d);
  }

  // ----- fencing --------------------------------------------------------------------------------

  /** The call captured the identity and has not entered its body. */
  predicate Queued(s: State, c: nat, id: Identity) {
    In(s, c) && (s.calls[c] == Waiting(Some(id)) || s.calls[c] == Locked(Some(id)))
  }

  /** The call can no longer enter its body: it is over, or what it captured is gone. */
  predicate Fenced(s: State, c: nat, id: Identity) {
    In(s, c) && (s.calls[c] == Over(false) || (Queued(s, c, id) && Linked(s, id.at) != Some(id.inode)))
  }

  lemma StepKeepsFence(s: State, e: Event, s': State, c: nat, id: Identity)
    requires IsStep(s, e, s') && Fenced(s, c, id)
    ensures Fenced(s', c, id)
  {
    if Queued(s, c, id) {
      assert HeldBy(s.calls[c]) == Some(id.inode);
      assert Held(s, id.inode);
    }
  }

  /** MAIN: a call whose captured directory or certificate was removed while it was queued never runs its
      body from then on, even when the user is created again. */
  lemma {:induction false} RemovedGenerationNeverRuns(run: seq<State>, events: seq<Event>, j: nat, k: nat, c: nat, id: Identity)
    requires IsRun(run, events) && j <= k < |run|
    requires Queued(run[j], c, id) && Linked(run[j], id.at) != Some(id.inode)
    ensures Fenced(run[k], c, id) && !run[k].calls[c].Running? && run[k].calls[c] != Over(true)
    decreases k
  {
    if k > j {
      RemovedGenerationNeverRuns(run, events, j, k - 1, c, id);
      assert IsStep(run[k - 1], events[k - 1], run[k]);
      StepKeepsFence(run[k - 1], events[k - 1], run[k], c, id);
    }
  }

  // ----- what a body can rely on ----------------------------------------------------------------

  /** Besides lifecycle bodies, only hooks touch the user, and they only create a missing directory: a
      take-over records its kill in there without the lifecycle lock. */
  predicate OnlyHooksOutside(run: seq<State>, events: seq<Event>)
    requires |run| == |events| + 1
  {
    forall i :: 0 <= i < |events| ==> CreatesAtMost(run[i], events[i])
  }

  predicate CreatesAtMost(s: State, e: Event) {
    e.Outside? ==> e.issued == s.issued && (e.dir == s.dir || s.dir == None)
  }

  predicate InBody(s: State, c: nat) { In(s, c) && s.calls[c].Running? }

  /** MAIN: from the recheck on, the user stays as the call found it until its own body changes it, but for a
      directory that a hook creates where there was none; so a body starts on, and keeps, exactly the
      generation that the call captured. */
  lemma {:induction false} BodyOwnsTheUser(run: seq<State>, events: seq<Event>, i: nat, k: nat, c: nat)
    requires IsRun(run, events) && Initial(run[0]) && OnlyHooksOutside(run, events)
    requires i < k < |run| && events[i] == Recheck(c) && InBody(run[i + 1], c)
    requires forall j :: i < j < k ==> events[j] != Finish(c) && events[j] != Quit(c) && !(events[j].Change? && events[j].c == c)
    ensures InBody(run[k], c) && run[k].calls[c].gen == run[i].calls[c].gen && SameGeneration(run[k], run[k].calls[c].gen)
    ensures run[k].issued == run[i].issued && (run[i].dir.Some? ==> run[k].dir == run[i].dir)
    decreases k
  {
    assert IsStep(run[i], events[i], run[i + 1]);
    if k > i + 1 {
      BodyOwnsTheUser(run, events, i, k - 1, c);
      assert IsStep(run[k - 1], events[k - 1], run[k]) && CreatesAtMost(run[k - 1], events[k - 1]);
      if events[k - 1].Change? { BodiesNeverOverlap(run, events, k - 1, c, events[k - 1].c); }
    }
  }
}
