/** The sliding-window request limiter (internal/ratelimit/ratelimit.go). Times are nanoseconds. */
module RateLimit {
  import opened Wrappers

  const SECOND := 1_000_000_000
  const WINDOW := 60 * SECOND
  const FAILED_WINDOW := 300 * SECOND
  const PRUNE_INTERVAL := 10 * SECOND
  const MAX_BUCKETS := 10000
  const AFTER_EVICTION := 9000

  /** The accepted calls of one client, oldest first, and its last call of any outcome. Nothing reads the
      last call of the one bucket that all clients share. */
  datatype Bucket = Bucket(ts: seq<int>, last: int)

  const EMPTY := Bucket([], 0)

  type Buckets = map<string, Bucket>

  datatype Limits = Limits(lastPrune: Option<int>, buckets: Buckets, global: Bucket, heavy: Buckets, failed: Buckets)

  const FRESH := Limits(None, map[], EMPTY, map[], map[])

  datatype Kind = Client | Heavy | Global

  function Max(kind: Kind): nat {
    match kind case Client => 120 case Heavy => 60 case Global => 600
  }

  // ----- pruning -------------------------------------------------------------------------------

  /** Drop expired calls from the front. */
  function Trim(ts: seq<int>, now: int, w: int): seq<int> {
    if ts != [] && now - ts[0] >= w then Trim(ts[1..], now, w) else ts
  }

  function TrimBucket(b: Bucket, now: int, w: int): Bucket { b.(ts := Trim(b.ts, now, w)) }

  /** Every bucket trimmed, and the empty ones dropped. */
  function TrimAll(m: Buckets, now: int, w: int): Buckets {
    map k | k in m && Trim(m[k].ts, now, w) != [] :: TrimBucket(m[k], now, w)
  }

  /** m' is m without n clients whose last call is no later than any survivor's. */
  predicate OldestEvicted(m: Buckets, m': Buckets, n: nat) {
    && m'.Keys <= m.Keys && (forall k :: k in m' ==> m'[k] == m[k])
    && |m'| + n == |m|
    && forall gone, kept :: gone in m && gone !in m' && kept in m' ==> m[gone].last <= m[kept].last
  }

  predicate MapPruned(m: Buckets, m': Buckets, now: int, w: int) {
    var t := TrimAll(m, now, w);
    if |t| < MAX_BUCKETS then m' == t else OldestEvicted(t, m', |t| - AFTER_EVICTION)
  }

  predicate Skips(s: Limits, now: int) {
    && s.lastPrune.Some? && now - s.lastPrune.value < PRUNE_INTERVAL
    && |s.buckets| < MAX_BUCKETS && |s.heavy| < MAX_BUCKETS && |s.failed| < MAX_BUCKETS
  }

  /** A prune; which of several equally old clients are evicted is left open. */
  predicate Pruned(s: Limits, s': Limits, now: int) {
    if Skips(s, now) then s' == s
    else
      && s'.lastPrune == Some(now)
      && MapPruned(s.buckets, s'.buckets, now, WINDOW) && MapPruned(s.heavy, s'.heavy, now, WINDOW)
      && MapPruned(s.failed, s'.failed, now, FAILED_WINDOW)
      && s'.global == TrimBucket(s.global, now, WINDOW)
  }

  // ----- asking --------------------------------------------------------------------------------

  function Find(m: Buckets, client: string): Bucket { if client in m then m[client] else EMPTY }

  function BucketOf(s: Limits, kind: Kind, client: string): Bucket {
    match kind
    case Client => Find(s.buckets, client)
    case Heavy => Find(s.heavy, client)
    case Global => s.global
  }

  function SetBucket(s: Limits, kind: Kind, client: string, b: Bucket): Limits {
    match kind
    case Client => s.(buckets := s.buckets[client := b])
    case Heavy => s.(heavy := s.heavy[client := b])
    case Global => s.(global := b)
  }

  function Retry(first: int, now: int): int {
    if WINDOW - (now - first) < SECOND then SECOND else WINDOW - (now - first)
  }

  /** One call against a bucket: the new bucket, whether it is accepted, and when to retry if not. */
  function Counted(b: Bucket, max: nat, now: int): (r: (Bucket, bool, int))
    requires max > 0
  {
    var ts := Trim(b.ts, now, WINDOW);
    if |ts| >= max then (Bucket(ts, now), false, Retry(ts[0], now)) else (Bucket(ts + [now], now), true, 0)
  }

  /** One call against one of the limits. */
  function Ask(s: Limits, kind: Kind, client: string, now: int): (Limits, bool, int) {
    var (b, ok, retry) := Counted(BucketOf(s, kind, client), Max(kind), now);
    (SetBucket(s, kind, client, b), ok, retry)
  }

  predicate Same(m: Buckets, r: Buckets, k: string)
    requires k in m
  {
    k in r && r[k] == m[k]
  }

  predicate Trimmed(m: Buckets, r: Buckets, k: string, now: int, w: int)
    requires k in m
  {
    (k in r <==> Trim(m[k].ts, now, w) != []) && (k in r ==> r[k] == TrimBucket(m[k], now, w))
  }

  class Limiter {
    var lastPrune: Option<int>
    var buckets: Buckets
    var global: Bucket
    var heavy: Buckets
    var failed: Buckets

    constructor ()
      ensures Current() == FRESH
    {
      lastPrune, buckets, global, heavy, failed := None, map[], EMPTY, map[], map[];
    }

    function Current(): Limits
      reads this
    {
      Limits(lastPrune, buckets, global, heavy, failed)
    }

    static method TrimExpired(b: Bucket, now: int, w: int) returns (r: Bucket)
      ensures r == TrimBucket(b, now, w)
    {
      var i := 0;
      while i < |b.ts| && now - b.ts[i] >= w
        invariant 0 <= i <= |b.ts|
        invariant Trim(b.ts[i..], now, w) == Trim(b.ts, now, w)
      {
        assert b.ts[i..][1..] == b.ts[i + 1..];
        i := i + 1;
      }
      r := b;
      if i > 0 { r := b.(ts := b.ts[i..]); }
      assert b.ts[0..] == b.ts;
    }

    /** The clients by their last call, oldest first. */
    static method ByLast(m: Buckets) returns (keys: seq<string>)
      ensures |keys| == |m| && forall k :: k in keys <==> k in m
      ensures forall i, j :: 0 <= i < j < |keys| ==> keys[i] != keys[j] && m[keys[i]].last <= m[keys[j]].last
    {
      keys := [];
      var todo := m.Keys;
      while todo != {}
        invariant todo <= m.Keys && |keys| + |todo| == |m|
        invariant forall k :: k in m <==> (k in keys || k in todo)
        invariant forall k :: k in keys ==> k !in todo
        invariant forall i, j :: 0 <= i < j < |keys| ==> keys[i] != keys[j] && m[keys[i]].last <= m[keys[j]].last
        invariant forall i, k :: 0 <= i < |keys| && k in todo ==> m[keys[i]].last <= m[k].last
        decreases todo
      {
        var oldest := Oldest(m, todo);
        keys := keys + [oldest];
        todo := todo - {oldest};
      }
    }

    static method Oldest(m: Buckets, among: set<string>) returns (oldest: string)
      requires among != {} && among <= m.Keys
      ensures oldest in among && forall k :: k in among ==> m[oldest].last <= m[k].last
    {
      oldest :| oldest in among;
      var todo := among - {oldest};
      while todo != {}
        invariant oldest in among && todo <= among
        invariant forall k :: k in among && k !in todo ==> m[oldest].last <= m[k].last
        decreases todo
      {
        var k :| k in todo;
        todo := todo - {k};
        if m[k].last < m[oldest].last { oldest := k; }
      }
    }

    /** Trim every bucket, drop the empty ones, and evict the oldest clients of a full map. */
    static method PruneMap(m: Buckets, now: int, w: int) returns (r: Buckets)
      ensures MapPruned(m, r, now, w)
    {
      hide OldestEvicted, Trim;
      r := m;
      var todo := m.Keys;
      while todo != {}
        invariant todo <= m.Keys && r.Keys <= m.Keys
        invariant forall k :: k in m ==> if k in todo then Same(m, r, k) else Trimmed(m, r, k, now, w)
        decreases todo
      {
        var k :| k in todo;
        todo := todo - {k};
        assert Same(m, r, k);
        var b := TrimExpired(r[k], now, w);
        if b.ts == [] { r := r - {k}; } else { r := r[k := b]; }
      }
      assert r == TrimAll(m, now, w) by {
        assert forall k :: k in m ==> Trimmed(m, r, k, now, w);
      }
      if |r| >= MAX_BUCKETS { r := Evict(r, |r| - AFTER_EVICTION); }
    }

    static method Evict(m: Buckets, excess: nat) returns (r: Buckets)
      requires excess <= |m|
      ensures OldestEvicted(m, r, excess)
    {
      var keys := ByLast(m);
      r := m;
      for i := 0 to excess
        invariant LeftFrom(m, keys, r, i)
      {
        OneGoes(m, keys, r, i);
        r := r - {keys[i]};
      }
      OldestGone(m, keys, r, excess);
    }

    method Prune(now: int)
      modifies this
      ensures Pruned(old(Current()), Current(), now)
    {
      hide MapPruned, TrimBucket;
      if && lastPrune.Some? && now - lastPrune.value < PRUNE_INTERVAL
         && |buckets| < MAX_BUCKETS && |heavy| < MAX_BUCKETS && |failed| < MAX_BUCKETS { return; }
      lastPrune := Some(now);
      buckets := PruneMap(buckets, now, WINDOW);
      heavy := PruneMap(heavy, now, WINDOW);
      failed := PruneMap(failed, now, FAILED_WINDOW);
      global := TrimExpired(global, now, WINDOW);
    }

    static method Count(b: Bucket, max: nat, now: int) returns (r: Bucket, ok: bool, retry: int)
      requires max > 0
      ensures (r, ok, retry) == Counted(b, max, now)
    {
      r := TrimExpired(b, now, WINDOW);
      r := r.(last := now);
      if |r.ts| >= max {
        retry := WINDOW - (now - r.ts[0]);
        if retry < SECOND { retry := SECOND; }
        return r, false, retry;
      }
      return r.(ts := r.ts + [now]), true, 0;
    }

    method AskClient(client: string, now: int) returns (ok: bool, retry: int)
      modifies this
      ensures (Current(), ok, retry) == Ask(old(Current()), Client, client, now)
    {
      hide Counted;
      var b := EMPTY;
      if client in buckets { b := buckets[client]; }
      b, ok, retry := Count(b, Max(Client), now);
      buckets := buckets[client := b];
    }

    method AskHeavy(client: string, now: int) returns (ok: bool, retry: int)
      modifies this
      ensures (Current(), ok, retry) == Ask(old(Current()), Heavy, client, now)
    {
      hide Counted;
      var b := EMPTY;
      if client in heavy { b := heavy[client]; }
      b, ok, retry := Count(b, Max(Heavy), now);
      heavy := heavy[client := b];
    }

    /** Prune, ask, and after an accepted call prune again. */
    method Allow(client: string, now: int) returns (ok: bool, retry: int)
      modifies this
      ensures Allowed(old(Current()), Current(), client, now, ok, retry)
      ensures |buckets| < MAX_BUCKETS
    {
      hide Ask, Pruned;
      ghost var before := Current();
      Prune(now);
      ghost var pruned := Current();
      ok, retry := AskClient(client, now);
      ghost var asked := Current();
      if ok { Prune(now); }
      AllowedBound(before, pruned, asked, Current(), client, now, ok, retry);
    }

    method AllowHeavy(client: string, now: int) returns (ok: bool, retry: int)
      modifies this
      ensures exists a :: Asked(old(Current()), a, Current(), Heavy, client, now, ok, retry)
    {
      hide Ask, Pruned;
      Prune(now);
      ghost var pruned := Current();
      ok, retry := AskHeavy(client, now);
      assert Asked(old(Current()), pruned, Current(), Heavy, client, now, ok, retry);
    }

    method AllowGlobal(now: int) returns (ok: bool, retry: int)
      modifies this
      ensures exists a :: Asked(old(Current()), a, Current(), Global, "", now, ok, retry)
    {
      hide Counted, Pruned;
      Prune(now);
      ghost var pruned := Current();
      global, ok, retry := Count(global, Max(Global), now);
      assert Asked(old(Current()), pruned, Current(), Global, "", now, ok, retry);
    }
  }

  /** The clients by their last call, each once. */
  ghost predicate ByAge(m: Buckets, keys: seq<string>) {
    && |keys| == |m| && (forall k :: k in keys <==> k in m)
    && forall i, j :: 0 <= i < j < |keys| ==> keys[i] != keys[j] && m[keys[i]].last <= m[keys[j]].last
  }

  /** r is m without its i oldest clients. */
  ghost predicate LeftFrom(m: Buckets, keys: seq<string>, r: Buckets, i: nat) {
    && r.Keys <= m.Keys && (forall k :: k in r ==> r[k] == m[k]) && |r| + i == |m|
    && forall j :: 0 <= j < |keys| ==> (keys[j] in r <==> i <= j)
  }

  lemma OneGoes(m: Buckets, keys: seq<string>, r: Buckets, i: nat)
    requires ByAge(m, keys) && LeftFrom(m, keys, r, i) && i < |m|
    ensures LeftFrom(m, keys, r - {keys[i]}, i + 1)
  {
    OneLess(r, keys[i]);
  }

  lemma OldestGone(m: Buckets, keys: seq<string>, r: Buckets, n: nat)
    requires ByAge(m, keys) && LeftFrom(m, keys, r, n)
    ensures OldestEvicted(m, r, n)
  {
    forall gone, kept | gone in m && gone !in r && kept in r ensures m[gone].last <= m[kept].last {
      assert gone in keys && kept in keys;
      var i :| 0 <= i < |keys| && keys[i] == gone;
      var j :| 0 <= j < |keys| && keys[j] == kept;
    }
  }

  lemma OneLess(m: Buckets, k: string)
    requires k in m
    ensures (m - {k}).Keys == m.Keys - {k} && |m - {k}| + 1 == |m|
  {
    assert (m - {k}).Keys == m.Keys - {k};
  }

  /** A prune of s to a, and the answer to a call that leaves b. */
  predicate Asked(s: Limits, a: Limits, b: Limits, kind: Kind, client: string, now: int, ok: bool, retry: int) {
    Pruned(s, a, now) && Ask(a, kind, client, now) == (b, ok, retry)
  }

  /** An accepted client call prunes once more. */
  predicate Settled(b: Limits, s': Limits, now: int, ok: bool) { if ok then Pruned(b, s', now) else s' == b }

  /** What one client call may do: it leaves open which clients the two prunes evict. */
  ghost predicate Allowed(s: Limits, s': Limits, client: string, now: int, ok: bool, retry: int) {
    exists a, b :: Asked(s, a, b, Client, client, now, ok, retry) && Settled(b, s', now, ok)
  }

  lemma AllowedBound(s: Limits, a: Limits, b: Limits, s': Limits, client: string, now: int, ok: bool, retry: int)
    requires Pruned(s, a, now) && Ask(a, Client, client, now) == (b, ok, retry)
    requires if ok then Pruned(b, s', now) else s' == b
    ensures Allowed(s, s', client, now, ok, retry) && |s'.buckets| < MAX_BUCKETS
  {
    hide Pruned;
    assert Asked(s, a, b, Client, client, now, ok, retry) && Settled(b, s', now, ok);
    PruneBounds(s, a, now);
    if ok {
      PruneBounds(b, s', now);
    } else {
      assert Trim([], now, WINDOW) == [];
      assert client in a.buckets;
      assert b.buckets.Keys == a.buckets.Keys;
    }
  }

  /** The prune dropped a client that still had calls in the window. */
  predicate EvictedAt(s: Limits, s': Limits, client: string, now: int)
    requires client in s.buckets
  {
    Trim(s.buckets[client].ts, now, WINDOW) != [] && client !in s'.buckets
  }

  /** A prune leaves fewer than the maximum of clients, and keeps those with the latest stored last calls. */
  lemma PruneBounds(s: Limits, s': Limits, now: int)
    requires Pruned(s, s', now)
    ensures |s'.buckets| < MAX_BUCKETS && |s'.heavy| < MAX_BUCKETS && |s'.failed| < MAX_BUCKETS
    ensures forall gone, kept :: gone in s.buckets && kept in s.buckets && EvictedAt(s, s', gone, now) && kept in s'.buckets
              ==> s.buckets[gone].last <= s.buckets[kept].last
  {
    var t := TrimAll(s.buckets, now, WINDOW);
    if !Skips(s, now) {
      forall gone, kept | gone in s.buckets && kept in s.buckets && EvictedAt(s, s', gone, now) && kept in s'.buckets
        ensures s.buckets[gone].last <= s.buckets[kept].last
      {
        assert gone in t && kept in t && t[gone].last <= t[kept].last;
      }
    }
  }

  /** A prune ten seconds after the last one, or over a limit that knows 10000 clients, is carried out: no limit then knows
      10000 clients, one that would have keeps 9000, and the other clients stay exactly while they have a call in the
      window. */
  lemma PruneInNumbers(s: Limits, s': Limits, now: int)
    requires Pruned(s, s', now)
    requires s.lastPrune.None? || now - s.lastPrune.value >= 10_000_000_000
             || |s.buckets| >= 10000 || |s.heavy| >= 10000 || |s.failed| >= 10000
    ensures s'.lastPrune == Some(now) && |s'.buckets| < 10000 && |s'.heavy| < 10000 && |s'.failed| < 10000
    ensures |TrimAll(s.buckets, now, 60_000_000_000)| >= 10000 ==> |s'.buckets| == 9000
    ensures |TrimAll(s.heavy, now, 60_000_000_000)| >= 10000 ==> |s'.heavy| == 9000
    ensures |TrimAll(s.failed, now, 300_000_000_000)| >= 10000 ==> |s'.failed| == 9000
    ensures |TrimAll(s.buckets, now, 60_000_000_000)| < 10000 ==>
      forall k :: k in s'.buckets <==> k in s.buckets && Trim(s.buckets[k].ts, now, 60_000_000_000) != []
  {
    hide Trim;
  }
}
