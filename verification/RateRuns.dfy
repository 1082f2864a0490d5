/** The limiter against the plain history of accepted calls, over whole runs. */
module RateRuns {
  import opened Wrappers
  import opened RateLimit

  /** A call is prunes and one question to a limit, in some order; the failed-login buckets only matter
      to pruning and may change in any way. */
  datatype Event =
    | Prune(now: int)
    | Question(kind: Kind, client: string, now: int)
    | Failures(failed: Buckets, now: int)

  predicate IsStep(s: Limits, e: Event, s': Limits) {
    match e
    case Prune(now) => Pruned(s, s', now)
    case Question(kind, client, now) => s' == Ask(s, kind, client, now).0
    case Failures(failed, _) => s' == s.(failed := failed)
  }

  /** A run from a fresh limiter under a clock that never goes back. */
  predicate IsRun(run: seq<Limits>, events: seq<Event>) {
    && |run| == |events| + 1 && run[0] == FRESH
    && (forall i :: 0 <= i < |events| ==> IsStep(run[i], events[i], run[i + 1]))
    && (forall i :: 0 < i < |events| ==> events[i - 1].now <= events[i].now)
  }

  /** The stored calls that a limit counts for a client; all clients share the global limit. */
  function Times(s: Limits, kind: Kind, client: string): seq<int> { BucketOf(s, kind, client).ts }

  predicate About(e: Event, kind: Kind, client: string) {
    e.Question? && e.kind == kind && (kind.Global? || e.client == client)
  }

  predicate Accepted(s: Limits, e: Event) { e.Question? && Ask(s, e.kind, e.client, e.now).1 }

  /** A prune that drops calls of the client that are still in the window. */
  predicate Evicts(s: Limits, e: Event, s': Limits, kind: Kind, client: string) {
    e.Prune? && Times(s', kind, client) == [] && Trim(Times(s, kind, client), e.now, WINDOW) != []
    && !Skips(s, e.now)
  }

  /** The times of the client's calls that were accepted since it was last evicted: all of them, for a
      client that never was. */
  function History(run: seq<Limits>, events: seq<Event>, kind: Kind, client: string): seq<int>
    requires |run| == |events| + 1
  {
    if events == [] then []
    else
      var n := |events| - 1;
      var before := History(run[..n + 1], events[..n], kind, client);
      if Evicts(run[n], events[n], run[n + 1], kind, client) then []
      else if About(events[n], kind, client) && Accepted(run[n], events[n]) then before + [events[n].now]
      else before
  }

  /** The calls of a history that lie in the window. */
  function InWindow(h: seq<int>, now: int): seq<int> {
    if h == [] then []
    else InWindow(h[..|h| - 1], now) + if now - h[|h| - 1] < WINDOW then [h[|h| - 1]] else []
  }

  // ----- histories and windows ------------------------------------------------------------------

  predicate Ordered(h: seq<int>, now: int) {
    (forall i, j :: 0 <= i < j < |h| ==> h[i] <= h[j]) && (forall i :: 0 <= i < |h| ==> h[i] <= now)
  }

  lemma {:induction false} WindowConcat(a: seq<int>, b: seq<int>, now: int)
    ensures InWindow(a + b, now) == InWindow(a, now) + InWindow(b, now)
  {
    if b == [] {
      assert a + b == a;
    } else {
      var b0 := b[..|b| - 1];
      assert (a + b)[..|a + b| - 1] == a + b0 && (a + b)[|a + b| - 1] == b[|b| - 1];
      WindowConcat(a, b0, now);
    }
  }

  lemma {:induction false} WindowWhole(h: seq<int>, now: int)
    requires forall i :: 0 <= i < |h| ==> now - h[i] < WINDOW
    ensures InWindow(h, now) == h
  {
    if h != [] {
      WindowWhole(h[..|h| - 1], now);
      assert h[..|h| - 1] + [h[|h| - 1]] == h;
    }
  }

  /** Of an ordered history, trimming the front leaves exactly what is in the window. */
  lemma {:induction false} TrimIsWindow(h: seq<int>, now: int)
    requires Ordered(h, now)
    ensures Trim(h, now, WINDOW) == InWindow(h, now) && Ordered(Trim(h, now, WINDOW), now)
  {
    if h != [] && now - h[0] >= WINDOW {
      TrimIsWindow(h[1..], now);
      WindowConcat([h[0]], h[1..], now);
      assert [h[0]] + h[1..] == h && [h[0]][..0] == [];
      assert InWindow([h[0]], now) == [];
    } else {
      WindowWhole(h, now);
    }
  }

  /** What leaves the window never comes back. */
  lemma {:induction false} WindowLater(h: seq<int>, now: int, later: int)
    requires now <= later
    ensures InWindow(InWindow(h, now), later) == InWindow(h, later)
  {
    if h != [] {
      var init, last := h[..|h| - 1], h[|h| - 1];
      WindowLater(init, now, later);
      WindowConcat(InWindow(init, now), if now - last < WINDOW then [last] else [], later);
      assert [last][..0] == [];
      assert InWindow([last], later) == if later - last < WINDOW then [last] else [];
    }
  }

  // ----- what one step does to a client's stored calls ---------------------------------------------

  lemma PruneTimes(s: Limits, s': Limits, now: int, kind: Kind, client: string)
    requires Pruned(s, s', now)
    ensures Times(s', kind, client) == Times(s, kind, client)
            || Times(s', kind, client) == Trim(Times(s, kind, client), now, WINDOW)
            || Evicts(s, Prune(now), s', kind, client)
  {
    if !Skips(s, now) {
      match kind {
      case Client => MapTimes(s.buckets, s'.buckets, now, client);
      case Heavy => MapTimes(s.heavy, s'.heavy, now, client);
      case Global =>
      }
    }
  }

  lemma MapTimes(m: Buckets, m': Buckets, now: int, client: string)
    requires MapPruned(m, m', now, WINDOW)
    ensures Find(m', client).ts == Trim(Find(m, client).ts, now, WINDOW) || Find(m', client).ts == []
  {
    var t := TrimAll(m, now, WINDOW);
    assert Trim([], now, WINDOW) == [];
  }

  lemma AskTimes(s: Limits, e: Event, kind: Kind, client: string)
    requires e.Question?
    ensures var s' := Ask(s, e.kind, e.client, e.now).0;
      Times(s', kind, client) ==
      if About(e, kind, client) then
        Trim(Times(s, kind, client), e.now, WINDOW) + if Accepted(s, e) then [e.now] else []
      else Times(s, kind, client)
  {
    hide Trim;
  }

  // ----- the refinement ------------------------------------------------------------------------------

  /** The stored calls say the same about the window as the history does. */
  predicate Agree(ts: seq<int>, h: seq<int>, now: int) {
    Ordered(ts, now) && Ordered(h, now) && InWindow(ts, now) == InWindow(h, now)
  }

  lemma AgreeLater(ts: seq<int>, h: seq<int>, now: int, later: int)
    requires Agree(ts, h, now) && now <= later
    ensures Agree(ts, h, later) && Agree(Trim(ts, later, WINDOW), h, later)
  {
    WindowLater(ts, now, later);
    WindowLater(h, now, later);
    TrimIsWindow(ts, later);
    WindowLater(ts, later, later);
  }

  lemma MoreNow(h: seq<int>, now: int)
    requires Ordered(h, now)
    ensures Ordered(h + [now], now) && InWindow(h + [now], now) == InWindow(h, now) + [now]
  {
    assert (h + [now])[..|h|] == h && (h + [now])[|h|] == now;
  }

  lemma AgreeMore(ts: seq<int>, h: seq<int>, now: int)
    requires Agree(ts, h, now)
    ensures Agree(ts + [now], h + [now], now)
  {
    hide InWindow, Ordered;
    MoreNow(ts, now);
    MoreNow(h, now);
  }

  lemma StepAgrees(s: Limits, e: Event, s': Limits, h: seq<int>, now: int, kind: Kind, client: string)
    requires IsStep(s, e, s') && now <= e.now && Agree(Times(s, kind, client), h, now)
    ensures Agree(Times(s', kind, client),
                  if Evicts(s, e, s', kind, client) then []
                  else if About(e, kind, client) && Accepted(s, e) then h + [e.now] else h, e.now)
  {
    hide Agree, Trim, Ask, Pruned, Accepted;
    var ts := Times(s, kind, client);
    AgreeLater(ts, h, now, e.now);
    match e {
    case Prune(n) =>
      PruneTimes(s, s', n, kind, client);
      assert Agree([], [], n) by { AgreeEmpty(n); }
    case Question(_, _, n) =>
      AskTimes(s, e, kind, client);
      AgreeMore(Trim(ts, n, WINDOW), h, n);
      assert Trim(ts, n, WINDOW) + [] == Trim(ts, n, WINDOW);
    case Failures(_, _) =>
    }
  }

  lemma AgreeEmpty(now: int)
    ensures Agree([], [], now)
  {
  }

  lemma {:induction false} RunAgrees(run: seq<Limits>, events: seq<Event>, kind: Kind, client: string, now: int)
    requires IsRun(run, events) && (events != [] ==> events[|events| - 1].now <= now)
    ensures Agree(Times(run[|events|], kind, client), History(run, events, kind, client), now)
    decreases |events|
  {
    hide Agree, IsStep, Evicts, About, Accepted;
    if events == [] {
      AgreeEmpty(now);
    } else {
      var n := |events| - 1;
      RunPrefix(run, events, n);
      RunAgrees(run[..n + 1], events[..n], kind, client, events[n].now);
      var h := History(run[..n + 1], events[..n], kind, client);
      StepAgrees(run[n], events[n], run[n + 1], h, events[n].now, kind, client);
      AgreeLater(Times(run[n + 1], kind, client), History(run, events, kind, client), events[n].now, now);
    }
  }

  lemma RunPrefix(run: seq<Limits>, events: seq<Event>, n: nat)
    requires IsRun(run, events) && n <= |events|
    ensures IsRun(run[..n + 1], events[..n])
  {
    hide IsStep;
  }

  /** MAIN: in every run, a call is accepted exactly when fewer than the limit of the calls accepted from
      the client since its last eviction lie in the last minute. */
  lemma AcceptedExactly(run: seq<Limits>, events: seq<Event>, kind: Kind, client: string, now: int)
    requires IsRun(run, events) && (events != [] ==> events[|events| - 1].now <= now)
    ensures Accepted(run[|events|], Question(kind, client, now)) <==>
            |InWindow(History(run, events, kind, client), now)| < Max(kind)
  {
    RunAgrees(run, events, kind, client, now);
    TrimIsWindow(Times(run[|events|], kind, client), now);
  }

  lemma AcceptedAsk(s: Limits, kind: Kind, client: string, now: int)
    ensures Accepted(s, Question(kind, client, now)) == Ask(s, kind, client, now).1
  {
  }

  lemma ExtendRun(run: seq<Limits>, events: seq<Event>, e: Event, s': Limits)
    requires IsRun(run, events) && (events != [] ==> events[|events| - 1].now <= e.now)
    requires IsStep(run[|events|], e, s')
    ensures IsRun(run + [s'], events + [e])
  {
    hide IsStep;
    var run', events' := run + [s'], events + [e];
    forall i | 0 <= i < |events'| ensures IsStep(run'[i], events'[i], run'[i + 1]) {
      if i < |events| { assert IsStep(run[i], events[i], run[i + 1]); }
    }
  }

  /** A client call of the running limiter continues a run: a prune to a, the question to b, and after an
      accepted question another prune. */
  lemma AllowExtendsRun(run: seq<Limits>, events: seq<Event>, a: Limits, b: Limits, s': Limits, client: string, now: int,
                        ok: bool, retry: int)
    requires IsRun(run, events) && (events != [] ==> events[|events| - 1].now <= now)
    requires Pruned(run[|events|], a, now) && Ask(a, Client, client, now) == (b, ok, retry)
    requires if ok then Pruned(b, s', now) else s' == b
    ensures IsRun(run + [a] + [b], events + [Prune(now)] + [Question(Client, client, now)])
    ensures ok ==>
      IsRun(run + [a] + [b] + [s'], events + [Prune(now)] + [Question(Client, client, now)] + [Prune(now)])
  {
    assert |run| == |events| + 1;
    hide Ask, Pruned, IsRun;
    ExtendRun(run, events, Prune(now), a);
    ExtendRun(run + [a], events + [Prune(now)], Question(Client, client, now), b);
    if ok { ExtendRun(run + [a] + [b], events + [Prune(now)] + [Question(Client, client, now)], Prune(now), s'); }
  }

  /** The answer that the history demands after the prune to a. */
  predicate AnswerFits(run: seq<Limits>, events: seq<Event>, a: Limits, kind: Kind, client: string, now: int, ok: bool)
    requires |run| == |events| + 1
  {
    && IsRun(run + [a], events + [Prune(now)])
    && (ok <==> |InWindow(History(run + [a], events + [Prune(now)], kind, client), now)| < Max(kind))
  }

  lemma AnswerAfterPrune(run: seq<Limits>, events: seq<Event>, a: Limits, kind: Kind, client: string, now: int)
    requires IsRun(run, events) && (events != [] ==> events[|events| - 1].now <= now)
    requires Pruned(run[|events|], a, now)
    ensures AnswerFits(run, events, a, kind, client, now, Ask(a, kind, client, now).1)
  {
    assert |run| == |events| + 1;
    assert (run + [a])[|events| + 1] == a;
    hide Ask, Pruned, IsRun, History, InWindow, Accepted;
    ExtendRun(run, events, Prune(now), a);
    AcceptedExactly(run + [a], events + [Prune(now)], kind, client, now);
    AcceptedAsk(a, kind, client, now);
  }

  lemma AskedFits(run: seq<Limits>, events: seq<Event>, a: Limits, b: Limits, kind: Kind, client: string, now: int, ok: bool,
                  retry: int)
    requires IsRun(run, events) && (events != [] ==> events[|events| - 1].now <= now)
    requires Asked(run[|events|], a, b, kind, client, now, ok, retry)
    ensures AnswerFits(run, events, a, kind, client, now, ok)
  {
    hide Ask, Pruned, IsStep, AnswerFits;
    AnswerAfterPrune(run, events, a, kind, client, now);
  }

  /** MAIN: the running limiter answers every client call, whatever came before, as the history demands after
      the very prune that led to its new state. */
  lemma AllowAnswersExactly(run: seq<Limits>, events: seq<Event>, s': Limits, client: string, now: int, ok: bool, retry: int)
    requires IsRun(run, events) && (events != [] ==> events[|events| - 1].now <= now)
    requires Allowed(run[|events|], s', client, now, ok, retry)
    ensures exists a, b :: Asked(run[|events|], a, b, Client, client, now, ok, retry) && Settled(b, s', now, ok)
                           && AnswerFits(run, events, a, Client, client, now, ok)
  {
    assert |run| == |events| + 1;
    hide Asked, Settled, IsRun, AnswerFits;
    var a, b :| Asked(run[|events|], a, b, Client, client, now, ok, retry) && Settled(b, s', now, ok);
    AskedFits(run, events, a, b, Client, client, now, ok, retry);
  }

  /** MAIN: so do the heavy and the global limit. */
  lemma AskAnswersExactly(run: seq<Limits>, events: seq<Event>, s': Limits, kind: Kind, client: string, now: int, ok: bool,
                          retry: int)
    requires IsRun(run, events) && (events != [] ==> events[|events| - 1].now <= now)
    requires exists a :: Asked(run[|events|], a, s', kind, client, now, ok, retry)
    ensures exists a :: Asked(run[|events|], a, s', kind, client, now, ok, retry)
                        && AnswerFits(run, events, a, kind, client, now, ok)
  {
    assert |run| == |events| + 1;
    hide Asked, IsRun, AnswerFits;
    var a :| Asked(run[|events|], a, s', kind, client, now, ok, retry);
    AskedFits(run, events, a, s', kind, client, now, ok, retry);
  }

  // ----- who is evicted -----------------------------------------------------------------------------

  /** The clients that a limit knows. */
  function Known(s: Limits, kind: Kind): Buckets
    requires !kind.Global?
  {
    if kind.Client? then s.buckets else s.heavy
  }

  /** The time of the client's latest question, whatever its outcome. */
  function LatestAsk(events: seq<Event>, kind: Kind, client: string): Option<int> {
    if events == [] then None
    else if About(events[|events| - 1], kind, client) then Some(events[|events| - 1].now)
    else LatestAsk(events[..|events| - 1], kind, client)
  }

  lemma StepLast(s: Limits, e: Event, s': Limits, kind: Kind, client: string)
    requires !kind.Global? && IsStep(s, e, s') && client in Known(s', kind)
    ensures if About(e, kind, client) then Known(s', kind)[client].last == e.now
            else client in Known(s, kind) && Known(s', kind)[client].last == Known(s, kind)[client].last
  {
    hide Trim, MapPruned, Retry, Skips;
    if e.Prune? && s' != s { PruneKeepsLast(Known(s, kind), Known(s', kind), e.now, client); }
  }

  lemma PruneKeepsLast(m: Buckets, m': Buckets, now: int, client: string)
    requires MapPruned(m, m', now, WINDOW) && client in m'
    ensures client in m && m'[client].last == m[client].last
  {
    hide Trim;
  }

  /** In every run, what the limiter stores as a client's last call is the time of its latest question. */
  lemma {:induction false} LastIsLatestAsk(run: seq<Limits>, events: seq<Event>, kind: Kind, client: string)
    requires IsRun(run, events) && !kind.Global? && client in Known(run[|events|], kind)
    ensures LatestAsk(events, kind, client) == Some(Known(run[|events|], kind)[client].last)
    decreases |events|
  {
    hide IsStep, About;
    if events != [] {
      var n := |events| - 1;
      StepLast(run[n], events[n], run[n + 1], kind, client);
      if !About(events[n], kind, client) {
        RunPrefix(run, events, n);
        LastIsLatestAsk(run[..n + 1], events[..n], kind, client);
      }
    }
  }

  /** The prune at step i drops the client although it still has calls in the window. */
  predicate EvictedBy(run: seq<Limits>, events: seq<Event>, i: nat, kind: Kind, client: string)
    requires |run| == |events| + 1 && i < |events| && !kind.Global?
  {
    && events[i].Prune? && client in Known(run[i], kind) && client !in Known(run[i + 1], kind)
    && Trim(Known(run[i], kind)[client].ts, events[i].now, WINDOW) != []
  }

  lemma EvictedIsOlder(s: Limits, s': Limits, now: int, kind: Kind, gone: string, kept: string)
    requires !kind.Global? && Pruned(s, s', now)
    requires gone in Known(s, kind) && gone !in Known(s', kind) && Trim(Known(s, kind)[gone].ts, now, WINDOW) != []
    requires kept in Known(s', kind)
    ensures kept in Known(s, kind) && Known(s, kind)[gone].last <= Known(s, kind)[kept].last
  {
    hide Trim;
    var t := TrimAll(Known(s, kind), now, WINDOW);
    assert gone in t && kept in t;
  }

  /** MAIN: in every run, a client evicted with calls still in the window has asked, and not later than any
      client that the limit keeps. */
  lemma LeastRecentAreEvicted(run: seq<Limits>, events: seq<Event>, i: nat, kind: Kind, gone: string, kept: string)
    requires IsRun(run, events) && i < |events| && !kind.Global?
    requires EvictedBy(run, events, i, kind, gone) && kept in Known(run[i + 1], kind)
    ensures LatestAsk(events[..i], kind, gone).Some? && LatestAsk(events[..i], kind, kept).Some?
    ensures LatestAsk(events[..i], kind, gone).value <= LatestAsk(events[..i], kind, kept).value
  {
    hide Pruned, LatestAsk, Trim;
    assert IsStep(run[i], events[i], run[i + 1]);
    EvictedIsOlder(run[i], run[i + 1], events[i].now, kind, gone, kept);
    RunPrefix(run, events, i);
    LastIsLatestAsk(run[..i + 1], events[..i], kind, gone);
    LastIsLatestAsk(run[..i + 1], events[..i], kind, kept);
  }

  // ----- retrying ---------------------------------------------------------------------------------

  /** The client's stored calls between two of its questions: trimmed some number of times, or evicted. */
  predicate Idles(before: seq<int>, after: seq<int>, now: int) {
    after == [] || (|after| <= |before| && after == before[|before| - |after|..]
                    && forall i :: 0 <= i < |before| - |after| ==> now - before[i] >= WINDOW)
  }

  lemma {:induction false} TrimIdles(ts: seq<int>, now: int)
    ensures Idles(ts, Trim(ts, now, WINDOW), now)
  {
    if ts != [] && now - ts[0] >= WINDOW {
      TrimIdles(ts[1..], now);
      var r := Trim(ts[1..], now, WINDOW);
      if r != [] {
        assert ts[|ts| - |r|..] == ts[1..][|ts| - 1 - |r|..];
        assert forall i :: 0 < i < |ts| - |r| ==> ts[i] == ts[1..][i - 1];
      }
    }
  }

  lemma IdlesLater(a: seq<int>, b: seq<int>, c: seq<int>, now: int, later: int)
    requires Idles(a, b, now) && Idles(b, c, later) && now <= later
    ensures Idles(a, c, later)
  {
    if c != [] {
      assert a[|a| - |c|..] == a[|a| - |b|..][|b| - |c|..];
      forall i | 0 <= i < |a| - |c| ensures later - a[i] >= WINDOW {
        if i >= |a| - |b| { assert a[i] == b[i - (|a| - |b|)]; }
      }
    }
  }

  lemma {:induction false} QuietIdles(run: seq<Limits>, events: seq<Event>, kind: Kind, client: string, i: nat, j: nat, now: int)
    requires IsRun(run, events) && i < j <= |events| && events[j - 1].now <= now
    requires forall k :: i < k < j ==> !About(events[k], kind, client)
    ensures Idles(Times(run[i + 1], kind, client), Times(run[j], kind, client), now)
    decreases j
  {
    hide Trim, Ask, Pruned, Idles;
    var first, last := Times(run[i + 1], kind, client), Times(run[j], kind, client);
    if j == i + 1 {
      IdlesSelf(first, now);
    } else {
      var mid := Times(run[j - 1], kind, client);
      QuietIdles(run, events, kind, client, i, j - 1, events[j - 1].now);
      StepIdles(run[j - 1], events[j - 1], run[j], kind, client);
      IdlesLater(first, mid, last, events[j - 1].now, events[j - 1].now);
      IdlesSelf(last, now);
      IdlesLater(first, last, last, events[j - 1].now, now);
    }
  }

  lemma IdlesSelf(ts: seq<int>, now: int)
    ensures Idles(ts, ts, now) && Idles(ts, [], now)
  {
  }

  lemma StepIdles(s: Limits, e: Event, s': Limits, kind: Kind, client: string)
    requires IsStep(s, e, s') && !About(e, kind, client)
    ensures Idles(Times(s, kind, client), Times(s', kind, client), e.now)
  {
    hide Trim, Ask, Pruned, Idles;
    var ts := Times(s, kind, client);
    IdlesSelf(ts, e.now);
    TrimIdles(ts, e.now);
    match e {
    case Prune(n) => PruneTimes(s, s', n, kind, client);
    case Question(_, _, _) => AskTimes(s, e, kind, client);
    case Failures(_, _) =>
    }
  }

  lemma TrimShorter(ts: seq<int>, now: int, w: int)
    ensures |Trim(ts, now, w)| <= |ts|
  {
  }

  lemma StepBound(s: Limits, e: Event, s': Limits, kind: Kind, client: string)
    requires IsStep(s, e, s') && |Times(s, kind, client)| <= Max(kind)
    ensures |Times(s', kind, client)| <= Max(kind)
  {
    hide Ask, Pruned, Trim, Max, Accepted;
    TrimShorter(Times(s, kind, client), e.now, WINDOW);
    match e {
    case Prune(n) => PruneTimes(s, s', n, kind, client);
    case Question(_, _, n) =>
      AskTimes(s, e, kind, client);
      if About(e, kind, client) { AcceptedBelow(s, e, kind, client); }
    case Failures(_, _) =>
    }
  }

  /** No limit ever stores more calls than it allows. */
  lemma {:induction false} StoredBound(run: seq<Limits>, events: seq<Event>, kind: Kind, client: string, i: nat)
    requires IsRun(run, events) && i <= |events|
    ensures |Times(run[i], kind, client)| <= Max(kind)
  {
    hide IsStep;
    if i > 0 {
      StoredBound(run, events, kind, client, i - 1);
      StepBound(run[i - 1], events[i - 1], run[i], kind, client);
    }
  }

  lemma AcceptedBelow(s: Limits, e: Event, kind: Kind, client: string)
    requires About(e, kind, client)
    ensures Accepted(s, e) <==> |Trim(Times(s, kind, client), e.now, WINDOW)| < Max(kind)
    ensures !Accepted(s, e) ==>
      Ask(s, e.kind, e.client, e.now).2 == Retry(Trim(Times(s, kind, client), e.now, WINDOW)[0], e.now)
  {
  }

  /** MAIN: a refused client that asks again when it is told to, and not before, is accepted. */
  lemma RetryIsEnough(run: seq<Limits>, events: seq<Event>, kind: Kind, client: string, i: nat, j: nat)
    requires IsRun(run, events) && i < j < |events|
    requires About(events[i], kind, client) && !Accepted(run[i], events[i]) && About(events[j], kind, client)
    requires forall k :: i < k < j ==> !About(events[k], kind, client)
    requires events[j].now >= events[i].now + Ask(run[i], events[i].kind, events[i].client, events[i].now).2
    ensures Accepted(run[j], events[j])
  {
    hide Ask, Accepted, Trim;
    var first, last := Times(run[i + 1], kind, client), Times(run[j], kind, client);
    assert IsStep(run[i], events[i], run[i + 1]);
    AskTimes(run[i], events[i], kind, client);
    AcceptedBelow(run[i], events[i], kind, client);
    StoredBound(run, events, kind, client, i + 1);
    QuietIdles(run, events, kind, client, i, j, events[j].now);
    AcceptedBelow(run[j], events[j], kind, client);
    RetryTrims(first, last, events[i].now, events[j].now, Max(kind));
  }

  lemma RetryTrims(first: seq<int>, last: seq<int>, now: int, later: int, max: nat)
    requires 0 < |first| <= max && later >= now + Retry(first[0], now) && Idles(first, last, later)
    ensures |Trim(last, later, WINDOW)| < max
  {
    assert later - first[0] >= WINDOW;
    TrimIdles(last, later);
    if |last| == |first| { assert last[0] == first[0]; }
  }

  lemma {:induction false} TimeGoesOn(run: seq<Limits>, events: seq<Event>, i: nat, j: nat)
    requires IsRun(run, events) && i <= j < |events|
    ensures events[i].now <= events[j].now
    decreases j
  {
    hide IsStep;
    if i < j { TimeGoesOn(run, events, i, j - 1); }
  }

  function HistoryAt(run: seq<Limits>, events: seq<Event>, i: nat, kind: Kind, client: string): seq<int>
    requires |run| == |events| + 1 && i <= |events|
  {
    History(run[..i + 1], events[..i], kind, client)
  }

  lemma HistoryStep(run: seq<Limits>, events: seq<Event>, i: nat, kind: Kind, client: string)
    requires |run| == |events| + 1 && i < |events|
    ensures HistoryAt(run, events, i + 1, kind, client) ==
      var before := HistoryAt(run, events, i, kind, client);
      if Evicts(run[i], events[i], run[i + 1], kind, client) then []
      else if About(events[i], kind, client) && Accepted(run[i], events[i]) then before + [events[i].now] else before
  {
    hide Evicts, About, Accepted;
    assert run[..i + 2][..i + 1] == run[..i + 1] && events[..i + 1][..i] == events[..i];
  }

  /** While the client is not evicted its history only grows. */
  lemma {:induction false} HistoryGrows(run: seq<Limits>, events: seq<Event>, kind: Kind, client: string, i: nat, j: nat)
    requires |run| == |events| + 1 && i <= j <= |events|
    requires forall k :: i <= k < j ==> !Evicts(run[k], events[k], run[k + 1], kind, client)
    ensures HistoryAt(run, events, i, kind, client) <= HistoryAt(run, events, j, kind, client)
    decreases j
  {
    hide Evicts, About, Accepted, HistoryAt;
    if i < j {
      HistoryGrows(run, events, kind, client, i, j - 1);
      HistoryStep(run, events, j - 1, kind, client);
    }
  }

  lemma AcceptedAt(run: seq<Limits>, events: seq<Event>, kind: Kind, client: string, i: nat)
    requires IsRun(run, events) && i < |events| && About(events[i], kind, client)
    ensures Accepted(run[i], events[i]) <==>
            |InWindow(HistoryAt(run, events, i, kind, client), events[i].now)| < Max(kind)
    ensures Trim(Times(run[i], kind, client), events[i].now, WINDOW)
         == InWindow(HistoryAt(run, events, i, kind, client), events[i].now)
    ensures Ordered(InWindow(HistoryAt(run, events, i, kind, client), events[i].now), events[i].now)
  {
    hide IsStep, Ask, Accepted, InWindow, Ordered;
    RunPrefix(run, events, i);
    assert run[..i + 1][i] == run[i];
    RunAgrees(run[..i + 1], events[..i], kind, client, events[i].now);
    TrimIsWindow(Times(run[i], kind, client), events[i].now);
    AcceptedBelow(run[i], events[i], kind, client);
  }

  /** What is in the window stays there until its oldest call leaves it. */
  lemma WindowHolds(h: seq<int>, h': seq<int>, now: int, later: int)
    requires h <= h' && now <= later && Ordered(InWindow(h, now), now)
    requires InWindow(h, now) != [] ==> later - InWindow(h, now)[0] < WINDOW
    ensures |InWindow(h', later)| >= |InWindow(h, now)|
  {
    hide InWindow, Ordered;
    WindowLater(h, now, later);
    StillRecent(InWindow(h, now), now, later);
    assert h' == h + h'[|h|..];
    WindowConcat(h, h'[|h|..], later);
  }

  lemma StillRecent(w: seq<int>, now: int, later: int)
    requires Ordered(w, now) && (w != [] ==> later - w[0] < WINDOW)
    ensures InWindow(w, later) == w
  {
    hide InWindow;
    WindowWhole(w, later);
  }

  /** MAIN: and while it is not evicted, one that asks again before it is told to is refused, unless it was told the
      least time there is, a second. */
  lemma EarlyRetryIsRefused(run: seq<Limits>, events: seq<Event>, kind: Kind, client: string, i: nat, j: nat)
    requires IsRun(run, events) && i < j < |events|
    requires About(events[i], kind, client) && !Accepted(run[i], events[i]) && About(events[j], kind, client)
    requires forall k :: i < k < j ==> !Evicts(run[k], events[k], run[k + 1], kind, client)
    requires var told := Ask(run[i], events[i].kind, events[i].client, events[i].now).2;
      told > 1_000_000_000 && events[j].now < events[i].now + told
    ensures !Accepted(run[j], events[j])
  {
    assert !Evicts(run[i], events[i], run[i + 1], kind, client);
    hide IsRun, Ask, Accepted, Evicts, InWindow, HistoryAt, Ordered;
    var h, h' := HistoryAt(run, events, i, kind, client), HistoryAt(run, events, j, kind, client);
    TimeGoesOn(run, events, i, j);
    AcceptedAt(run, events, kind, client, i);
    AcceptedAt(run, events, kind, client, j);
    AcceptedBelow(run[i], events[i], kind, client);
    HistoryGrows(run, events, kind, client, i, j);
    WindowHolds(h, h', events[i].now, events[j].now);
  }

  // ----- the limits in numbers --------------------------------------------------------------------

  /** The calls of a history that are less than a minute old. */
  function Recent(h: seq<int>, now: int): set<int> { set i | 0 <= i < |h| && now - h[i] < 60_000_000_000 }

  lemma {:induction false} WindowCounts(h: seq<int>, now: int)
    ensures |InWindow(h, now)| == |Recent(h, now)|
  {
    if h != [] {
      var n := |h| - 1;
      WindowCounts(h[..n], now);
      assert Recent(h, now) == Recent(h[..n], now) + if now - h[n] < 60_000_000_000 then {n} else {};
    }
  }

  /** MAIN: in every run, a client's call is accepted exactly below 120 accepted calls in the last minute, a heavy one below
      60, and any call below 600 of all clients together. */
  lemma LimitsInNumbers(run: seq<Limits>, events: seq<Event>, kind: Kind, client: string, i: nat)
    requires IsRun(run, events) && i < |events| && About(events[i], kind, client)
    ensures Accepted(run[i], events[i]) <==>
      |Recent(HistoryAt(run, events, i, kind, client), events[i].now)|
      < match kind { case Client => 120 case Heavy => 60 case Global => 600 }
  {
    assert |run| == |events| + 1;
    hide IsRun, Accepted, About, InWindow, Recent, HistoryAt;
    AcceptedAt(run, events, kind, client, i);
    WindowCounts(HistoryAt(run, events, i, kind, client), events[i].now);
  }
}
