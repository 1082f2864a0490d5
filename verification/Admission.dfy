/** Whom the connect hook admits, and what an admitted client leaves on disk (internal/hooks/connect.go:46-230). */
module Admission {
  import opened Wrappers
  import opened Counter
  import opened Markers
  import opened Hooks
  import opened AccountingRuns
  import opened Isolation
  import opened ScanFailures
  import opened FinalBanking
  import Names
  import Policy
  import Text

  // ----- counting live sessions --------------------------------------------------------------------

  /** The row is a live session of cn: it has an address or a client id. */
  predicate IsLive(r: Row, cn: string) {
    r.commonName == cn && (r.virtualAddress != "" || r.clientID != "" || r.realAddress != "")
  }

  function LiveIndexes(rows: seq<Row>, cn: string): set<int> { set i | 0 <= i < |rows| && IsLive(rows[i], cn) }

  lemma {:induction false} LiveRowsSnoc(rows: seq<Row>, r: Row, cn: string)
    ensures LiveRows(rows + [r], cn) == LiveRows(rows, cn) + if IsLive(r, cn) then [r] else []
  {
    if rows == [] {
      assert [r][1..] == [];
      assert LiveRows([r], cn) == (if IsLive(r, cn) then [r] else []) + LiveRows([], cn);
    } else {
      assert (rows + [r])[1..] == rows[1..] + [r];
      LiveRowsSnoc(rows[1..], r, cn);
    }
  }

  /** The hook counts exactly the live rows of its user. */
  lemma {:induction false} LiveRowsAreCounted(rows: seq<Row>, cn: string)
    ensures |LiveRows(rows, cn)| == |LiveIndexes(rows, cn)|
  {
    if rows != [] {
      var front, r := rows[..|rows| - 1], rows[|rows| - 1];
      assert rows == front + [r];
      LiveRowsAreCounted(front, cn);
      LiveRowsSnoc(front, r, cn);
      assert LiveIndexes(rows, cn) == LiveIndexes(front, cn) + if IsLive(r, cn) then {|front|} else {};
    }
  }

  // ----- admission -------------------------------------------------------------------------------------

  /** All that can refuse a client besides its policy goes well: its name, the directories, the lock, the banking
      of a displaced session and the write of the marker. */
  predicate Smooth(n: Node, e: Env, arg: string, a: Arrival, epoch: string, x: Faults) {
    var cn := HookCN(e, arg);
    && Names.StoreKey(cn) && a.usersDirOk && x.dirOk && x.lockOk && x.writeOk
    && BankDisplaced(n, cn, HookKey(cn, e), e.poolIP, LiveRows(a.rows, cn), epoch, x).1
  }

  lemma AcceptableExactly(cn: string)
    ensures Acceptable(cn) <==> Names.StoreKey(cn)
  {
  }

  lemma PolicySeen(p: Policy.Files)
    ensures Policy.ReadUserState(p).None? <==> Policy.ViewOf(p).None?
    ensures Policy.ReadUserState(p).Some? ==>
      && Policy.ReadUserState(p).value.disabled == Policy.ViewOf(p).value.disabled
      && LoginLimit(Policy.ReadUserState(p).value) == Policy.ViewOf(p).value.limit
  {
    hide Policy.ReadUserState;
  }

  /** MAIN: when nothing else goes wrong, the policy on disk alone decides. A client whose policy cannot be read or
      who is disabled is refused; limit 0 admits; a limit above 1 admits exactly below that many live sessions;
      and limit 1 admits a client without live sessions, or one whose take-over did not time out. */
  lemma AdmittedExactly(n: Node, e: Env, arg: string, a: Arrival, epoch: string, x: Faults, p: Policy.Files)
    requires a.policy == Policy.ReadUserState(p) && Smooth(n, e, arg, a, epoch, x)
    ensures var v, live, admitted :=
        Policy.ViewOf(p), |LiveIndexes(a.rows, HookCN(e, arg))|, ConnectStep(n, e, arg, a, epoch, x).1;
      && (v.None? || v.value.disabled ==> !admitted)
      && (v.Some? && !v.value.disabled ==>
            && (v.value.limit == 0 ==> admitted)
            && (v.value.limit > 1 ==> (admitted <==> live < v.value.limit))
            && (v.value.limit == 1 ==> (admitted <==> live == 0 || a.takeover != TimedOut)))
  {
    hide Policy.ReadUserState, Policy.ViewOf, BankDisplaced, LiveRows, LiveIndexes, HookKey, HookCN, InstalledMarker, Acceptable,
      LoginLimit, Names.StoreKey;
    PolicySeen(p);
    LiveRowsAreCounted(a.rows, HookCN(e, arg));
    AcceptableExactly(HookCN(e, arg));
  }

  /** MAIN: a client that is malformed, disabled or without a readable policy, or that finds no user tree, session
      directory or lock, is refused and leaves no trace. */
  lemma RefusedLeavesNoTrace(n: Node, e: Env, arg: string, a: Arrival, epoch: string, x: Faults, p: Policy.Files)
    requires a.policy == Policy.ReadUserState(p)
    requires !Names.StoreKey(HookCN(e, arg)) || !a.usersDirOk || !x.dirOk || !x.lockOk
             || Policy.ViewOf(p).None? || Policy.ViewOf(p).value.disabled
    ensures ConnectStep(n, e, arg, a, epoch, x) == (n, false)
  {
    hide Policy.ReadUserState, Policy.ViewOf, BankDisplaced, LiveRows, HookKey, HookCN, InstalledMarker, Acceptable, LoginLimit,
      Names.StoreKey;
    PolicySeen(p);
    AcceptableExactly(HookCN(e, arg));
  }

  // ----- the marker of an admitted client -------------------------------------------------------------------

  lemma ConnectInstalls(n: Node, e: Env, arg: string, a: Arrival, epoch: string, x: Faults)
    ensures var cn := HookCN(e, arg);
      var (n', admitted) := ConnectStep(n, e, arg, a, epoch, x);
      n'.sessions == if admitted then n.sessions[HookKey(cn, e) := InstalledMarker(cn, e, a)] else n.sessions
  {
    hide BankDisplaced, LiveRows, HookKey, HookCN, InstalledMarker, Acceptable, Admits;
  }

  /** MAIN: an admitted client leaves one marker under its key, which names the user, the pool address, the real
      address and port, the start of the connection and a session id of this key; a refused one leaves none. */
  lemma AdmittedLeavesMarker(n: Node, e: Env, arg: string, a: Arrival, epoch: string, x: Faults)
    requires Regular(n, Connecting(e, arg, a, epoch, x))
    ensures var (n', admitted) := ConnectStep(n, e, arg, a, epoch, x);
      var cn := if e.commonName != "" then e.commonName else arg;
      var key := HookKey(cn, e);
      && (!admitted ==> n'.sessions == n.sessions)
      && (admitted ==>
            && key in n'.sessions && n'.sessions == n.sessions[key := n'.sessions[key]]
            && var m := n'.sessions[key];
            && m.commonName == cn && m.poolIP == e.poolIP && m.trustedIP == e.trustedIP && m.trustedPort == e.trustedPort
            && m.created == a.now && m.sessionID == key + "." + a.gen
            && m.connectedAt == m.connectionStarted == if StartIn(e.timeUnix).Some? then StartIn(e.timeUnix).value else a.now)
  {
    var c := Connecting(e, arg, a, epoch, x);
    hide ConnectStep, InstalledMarker, HookKey, IsGeneration, Writable, StartIn, StartOrNow;
    ConnectInstalls(n, e, arg, a, epoch, x);
    InstalledIsNew(n, c, HookKey(HookCN(e, arg), e), InstalledMarker(HookCN(e, arg), e, a));
    StartsRead(e.timeUnix, a.now);
    StartIsPositive(e.timeUnix);
  }

  // ----- banking the displaced session ------------------------------------------------------------------------

  /** Row j is the user's first live row at the pool address. */
  predicate FirstAtPool(rows: seq<Row>, cn: string, pool: string, j: nat) {
    && j < |rows| && IsLive(rows[j], cn) && rows[j].virtualAddress == pool
    && forall i :: 0 <= i < j ==> !(IsLive(rows[i], cn) && rows[i].virtualAddress == pool)
  }

  lemma {:induction false} PoolBytesFirst(rows: seq<Row>, cn: string, pool: string, j: nat)
    requires pool != "" && FirstAtPool(rows, cn, pool, j)
    ensures PoolBytes(LiveRows(rows, cn), pool) == Some(WrapAdd(rows[j].bytesReceived, rows[j].bytesSent))
    decreases |rows|
  {
    var rest := LiveRows(rows[1..], cn);
    if j > 0 {
      PoolBytesFirst(rows[1..], cn, pool, j - 1);
      assert LiveRows(rows, cn) == if IsLive(rows[0], cn) then [rows[0]] + rest else [] + rest;
      assert ([rows[0]] + rest)[1..] == rest && [] + rest == rest;
    }
  }

  lemma {:induction false} PoolBytesNone(rows: seq<Row>, cn: string, pool: string)
    requires forall i :: 0 <= i < |rows| ==> !(IsLive(rows[i], cn) && rows[i].virtualAddress == pool)
    ensures PoolBytes(LiveRows(rows, cn), pool) == None
  {
    if rows != [] {
      var rest := LiveRows(rows[1..], cn);
      PoolBytesNone(rows[1..], cn, pool);
      assert LiveRows(rows, cn) == if IsLive(rows[0], cn) then [rows[0]] + rest else [] + rest;
      assert ([rows[0]] + rest)[1..] == rest && [] + rest == rest;
    }
  }

  lemma ConnectBanks(n: Node, e: Env, arg: string, a: Arrival, epoch: string, x: Faults)
    requires ConnectStep(n, e, arg, a, epoch, x).1
    ensures var cn := HookCN(e, arg);
      var banked := BankDisplaced(n, cn, HookKey(cn, e), e.poolIP, LiveRows(a.rows, cn), epoch, x);
      banked.1 && ConnectStep(n, e, arg, a, epoch, x).0.usage == banked.0
    ensures Names.StoreKey(HookCN(e, arg)) && Names.SafeCN(HookCN(e, arg)) == Some(HookCN(e, arg))
  {
    hide BankDisplaced, LiveRows, HookKey, HookCN, InstalledMarker, Admits, Names.StoreKey, Acceptable;
    AcceptableExactly(HookCN(e, arg));
  }

  /** MAIN: on a working disk a client is admitted over the readable marker of another session only once that
      session is closed with the bytes of its user's first live row at the pool address. */
  lemma DisplacedIsClosed(n: Node, e: Env, arg: string, a: Arrival, epoch: string, x: Faults, j: nat)
    requires ConnectStep(n, e, arg, a, epoch, x).1 && epoch != "" && x.usage == WORKING
    requires var key := HookKey(HookCN(e, arg), e); key in n.sessions && key !in x.unread && n.sessions[key].sessionID != ""
    requires e.poolIP != "" && j < |a.rows| && FirstAtPool(a.rows, HookCN(e, arg), e.poolIP, j)
    ensures var cn, id := HookCN(e, arg), n.sessions[HookKey(HookCN(e, arg), e)].sessionID;
      var last := (a.rows[j].bytesReceived + a.rows[j].bytesSent) % 0x1_0000_0000_0000_0000;
      Fits(n.usage, cn, id, last) && ClosedWith(n.usage, ConnectStep(n, e, arg, a, epoch, x).0.usage, cn, id, last)
  {
    hide *;
    var cn, key := HookCN(e, arg), HookKey(HookCN(e, arg), e);
    var id, last := n.sessions[key].sessionID, WrapAdd(a.rows[j].bytesReceived, a.rows[j].bytesSent);
    ConnectBanks(n, e, arg, a, epoch, x);
    PoolBytesFirst(a.rows, cn, e.poolIP, j);
    RowSum(a.rows[j]);
    DisplacedIsRecorded(n, cn, key, e.poolIP, LiveRows(a.rows, cn), epoch, x, last);
    BankedIsReadable(n.usage, cn, id, last, epoch);
    RecordCloses(n.usage, cn, id, last, epoch);
  }

  lemma RowSum(r: Row)
    ensures WrapAdd(r.bytesReceived, r.bytesSent) == (r.bytesReceived + r.bytesSent) % 0x1_0000_0000_0000_0000 < U64
  {
  }

  lemma DisplacedIsRecorded(n: Node, cn: string, key: string, pool: string, rows: seq<Row>, epoch: string, x: Faults, bytes: u64)
    requires key in n.sessions && key !in x.unread && n.sessions[key].sessionID != "" && x.usage == WORKING
    requires PoolBytes(rows, pool) == Some(bytes) && BankDisplaced(n, cn, key, pool, rows, epoch, x).1
    ensures n.sessions[key].sessionID != ""
    ensures var (files, r) := Record(n.usage, cn, n.sessions[key].sessionID, bytes, true, epoch, WORKING);
      r.Ok? && files == BankDisplaced(n, cn, key, pool, rows, epoch, x).0
  {
    hide Record, PoolBytes;
  }

  lemma BankedIsReadable(files: Files, cn: string, id: string, last: u64, epoch: string)
    requires epoch != "" && Names.SafeCN(cn) == Some(cn) && Record(files, cn, id, last, true, epoch, WORKING).1.Ok?
    ensures ReadFile(files, cn, "").Ok?
  {
    hide ReadFile, Record, Names.SafeCN;
    RecordedIs(files, cn, id, last, epoch, WORKING);
    EpochIsApart(files, cn, epoch);
  }

  /** Without such a row, marker or session id nothing is banked. */
  lemma NothingToBank(n: Node, e: Env, arg: string, a: Arrival, epoch: string, x: Faults)
    requires ConnectStep(n, e, arg, a, epoch, x).1
    requires var cn, key := HookCN(e, arg), HookKey(HookCN(e, arg), e);
      || key !in n.sessions || key in x.unread || n.sessions[key].sessionID == "" || e.poolIP == ""
      || (forall i :: 0 <= i < |a.rows| ==> !(IsLive(a.rows[i], cn) && a.rows[i].virtualAddress == e.poolIP))
    ensures ConnectStep(n, e, arg, a, epoch, x).0.usage == n.usage
  {
    hide ConnectStep, Record, LiveRows, HookKey, HookCN, IsLive;
    ConnectBanks(n, e, arg, a, epoch, x);
    var cn := HookCN(e, arg);
    if forall i :: 0 <= i < |a.rows| ==> !(IsLive(a.rows[i], cn) && a.rows[i].virtualAddress == e.poolIP) {
      PoolBytesNone(a.rows, cn, e.poolIP);
    }
  }

  // ----- keys ---------------------------------------------------------------------------------------------------

  /** An address that can stand in a file name as it is. */
  predicate KeyText(v: string) { forall c :: c in v ==> Names.IsKeyChar(c) }

  lemma SameHeads(head: string, a: string, b: string)
    ensures head + a == head + b <==> a == b
  {
    assert (head + a)[|head|..] == a && (head + b)[|head|..] == b;
  }

  /** MAIN: two connections of a user with pool addresses share a marker file exactly when these are the same,
      whatever their real addresses. */
  lemma SameKeyExactly(cn: string, e: Env, d: Env)
    requires e.poolIP != "" && d.poolIP != "" && KeyText(e.poolIP) && KeyText(d.poolIP)
    ensures HookKey(cn, e) == HookKey(cn, d) <==> e.poolIP == d.poolIP
  {
    assert Names.Sanitize(e.poolIP) == e.poolIP && Names.Sanitize(d.poolIP) == d.poolIP;
    hide Names.Sanitize;
    SameHeads(cn + ".", e.poolIP, d.poolIP);
  }

  lemma LastDot(head: string, ip: string, port: string, ip2: string, port2: string)
    requires '.' !in port && '.' !in port2
    ensures head + ip + "." + port == head + ip2 + "." + port2 <==> ip == ip2 && port == port2
  {
    Text.LastIndexConcat(head + ip, '.', port);
    Text.LastIndexConcat(head + ip2, '.', port2);
    Text.Around(head + ip, '.', port);
    Text.Around(head + ip2, '.', port2);
    SameHeads(head, ip, ip2);
  }

  /** MAIN: without pool addresses they share one exactly when real address and port are the same. */
  lemma SameRealKeyExactly(cn: string, e: Env, d: Env)
    requires e.poolIP == "" && d.poolIP == "" && e.trustedIP != "" && d.trustedIP != "" && e.trustedPort != "" && d.trustedPort != ""
    requires KeyText(e.trustedIP) && KeyText(d.trustedIP) && KeyText(e.trustedPort) && KeyText(d.trustedPort)
    requires '.' !in e.trustedPort && '.' !in d.trustedPort
    ensures HookKey(cn, e) == HookKey(cn, d) <==> e.trustedIP == d.trustedIP && e.trustedPort == d.trustedPort
  {
    assert Names.Sanitize(e.trustedIP) == e.trustedIP && Names.Sanitize(d.trustedIP) == d.trustedIP;
    assert Names.Sanitize(e.trustedPort) == e.trustedPort && Names.Sanitize(d.trustedPort) == d.trustedPort;
    hide Names.Sanitize;
    LastDot(cn + ".noip.", e.trustedIP, e.trustedPort, d.trustedIP, d.trustedPort);
  }
}
