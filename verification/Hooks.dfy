/** The client hooks, the usage poll and the stale-marker purge over the session markers and the usage
    counters (internal/hooks/connect.go, disconnect.go and purge.go, internal/ovpn/usage.go). */
module Hooks {
  import opened Wrappers
  import opened Counter
  import opened Markers
  import Names
  import Policy
  import Text

  /** The session directory: what each file holds once read. Names starting with a dot are lock files. */
  type Sessions = map<string, Marker>

  datatype Node = Node(sessions: Sessions, usage: Files)

  /** One live row of the status file. */
  datatype Row = Row(
    commonName: string, realAddress: string, trustedIP: string, trustedPort: string, virtualAddress: string,
    bytesReceived: u64, bytesSent: u64, clientID: string, connectedAt: int)

  /** The environment OpenVPN gives a hook. */
  datatype Env = Env(
    commonName: string, trustedIP: string, trustedPort: string, poolIP: string,
    timeUnix: string, bytesReceived: string, bytesSent: string)

  /** What the file system refuses: directories, locks, renames, and by name removals, examinations and reads.
      A directory that cannot be listed is one in which every name is stuck. */
  datatype Faults = Faults(
    dirOk: bool, lockOk: bool, usage: Disk, writeOk: bool, stuck: set<string>, unseen: set<string>, unread: set<string>)

  // ----- reading the environment -----------------------------------------------------------------

  /** A byte counter of the environment, 0 when it is absent or invalid. */
  function ByteCounter(v: string): u64 {
    var s := Text.TrimSpace(v);
    if Text.AllDigits(s) && Text.Value(s, 10) < U64 then Text.Value(s, 10) else 0
  }

  /** The connection start of a disconnect, 0 when it is unknown. */
  function KnownStart(v: string): (n: int)
    ensures 0 <= n <= Text.INT64_MAX
  {
    var n := Text.ParseInt64(Text.TrimSpace(v));
    if n.Some? && n.value >= 0 then n.value else 0
  }

  /** The connection start of a connect, which falls back to the clock. */
  function StartOrNow(v: string, now: int): int {
    if KnownStart(v) > 0 then KnownStart(v) else now
  }

  function OrUnknown(v: string): string { if v == "" then "?" else v }

  function PoolKey(poolIP: string): string { if poolIP == "" then "" else Names.Sanitize(poolIP) }

  /** The file name of the marker a hook works on. */
  function HookKey(cn: string, e: Env): (key: string)
    ensures key != ""
  {
    SessionKey(cn, PoolKey(e.poolIP), Names.Sanitize(OrUnknown(e.trustedIP)), Names.Sanitize(OrUnknown(e.trustedPort)))
  }

  function HookCN(e: Env, arg: string): string { if e.commonName == "" then arg else e.commonName }

  predicate Acceptable(cn: string) { Names.Sanitize(cn) == cn && Names.HookCNValid(cn) }

  // ----- disconnect --------------------------------------------------------------------------------

  function MarkerId(m: Marker, key: string): string { if m.sessionID != "" then m.sessionID else key }

  /** Does the marker on disk belong to this disconnect? Only a generation's marker can prove it does not. */
  predicate DisconnectMatches(m: Marker, key: string, trustedIP: string, trustedPort: string, start: int) {
    var mStart := if m.connectionStarted == 0 then m.connectedAt else m.connectionStarted;
    !HasGeneration(MarkerId(m, key)) ||
    (&& !(start > 0 && mStart > 0 && start != mStart)
     && !(m.trustedIP != "" && trustedIP != "" && m.trustedIP != trustedIP)
     && !(m.trustedPort != "" && trustedPort != "" && m.trustedPort != trustedPort))
  }

  /** A marker name from before markers were keyed by pool address. */
  predicate LegacyName(name: string, cn: string, pool: string, ip: string, port: string) {
    || Text.HasPrefix(name, cn + "." + ip + "." + port + ".")
    || (pool != "" && Text.HasPrefix(name, cn + ".") && Text.HasSuffix(name, "." + pool))
  }

  function WithoutLegacy(s: Sessions, cn: string, e: Env, stuck: set<string>): Sessions {
    var ip, port := Names.Sanitize(OrUnknown(e.trustedIP)), Names.Sanitize(OrUnknown(e.trustedPort));
    map f | f in s && (f in stuck || !LegacyName(f, cn, PoolKey(e.poolIP), ip, port)) :: s[f]
  }

  function DisconnectStep(n: Node, e: Env, arg: string, epoch: string, x: Faults): Node {
    var cn := HookCN(e, arg);
    var key := HookKey(cn, e);
    if cn == "" || !Acceptable(cn) || !x.dirOk || !x.lockOk then n
    else if key !in n.sessions || key in x.unseen then Node(WithoutLegacy(n.sessions, cn, e, x.stuck), n.usage)
    else if key in x.unread then n
    else if !DisconnectMatches(n.sessions[key], key, e.trustedIP, e.trustedPort, KnownStart(e.timeUnix)) then n
    else
      var bytes := WrapAdd(ByteCounter(e.bytesReceived), ByteCounter(e.bytesSent));
      var (usage, r) := Record(n.usage, cn, MarkerId(n.sessions[key], key), bytes, true, epoch, x.usage);
      if r.Err? then n
      else Node(if key in x.stuck then n.sessions else n.sessions - {key}, usage)
  }

  // ----- connect -----------------------------------------------------------------------------------

  datatype Takeover = Verified | TimedOut | Degraded

  /** What a connect finds and draws besides the files: the user's policy, the rows of the status file, the
      outcome of a takeover, the clock and a generation. */
  datatype Arrival = Arrival(
    usersDirOk: bool, policy: Option<Policy.UserState>, rows: seq<Row>, takeover: Takeover, now: int, gen: string)

  function NewMarker(cn: string, e: Env, a: Arrival): Marker {
    BLANK.(commonName := cn, trustedIP := e.trustedIP, trustedPort := e.trustedPort, poolIP := e.poolIP,
           created := a.now, sessionID := HookKey(cn, e) + "." + a.gen, connectedAt := StartOrNow(e.timeUnix, a.now))
  }

  function LiveRows(rows: seq<Row>, cn: string): seq<Row> {
    if rows == [] then [] else
    var r := rows[0];
    (if r.commonName == cn && !(r.virtualAddress == "" && r.clientID == "" && r.realAddress == "") then [r] else [])
    + LiveRows(rows[1..], cn)
  }

  /** The bytes of the first row at the pool address. */
  function PoolBytes(rows: seq<Row>, poolIP: string): Option<u64> {
    if rows == [] || poolIP == "" then None
    else if rows[0].virtualAddress == poolIP then Some(WrapAdd(rows[0].bytesReceived, rows[0].bytesSent))
    else PoolBytes(rows[1..], poolIP)
  }

  /** Close the generation a new marker is about to displace with the bytes the status file shows for it; a
      marker that cannot be read is displaced without. */
  function BankDisplaced(n: Node, cn: string, key: string, poolIP: string, rows: seq<Row>, epoch: string, x: Faults)
    : (Files, bool)
  {
    if key !in n.sessions || key in x.unread || n.sessions[key].sessionID == "" then (n.usage, true)
    else match PoolBytes(rows, poolIP)
      case None => (n.usage, true)
      case Some(bytes) =>
        var (usage, r) := Record(n.usage, cn, n.sessions[key].sessionID, bytes, true, epoch, x.usage);
        (usage, r.Ok?)
  }

  function LoginLimit(st: Policy.UserState): int { if st.limitSet then st.limit else Policy.DEFAULT_LIMIT }

  /** Does the policy let the client in, given its live sessions? */
  predicate Admits(st: Policy.UserState, live: nat, takeover: Takeover) {
    var limit := LoginLimit(st);
    !st.disabled && (limit == 0 || live < limit || (limit == 1 && takeover != TimedOut))
  }

  /** May the client come in, as far as its name, the directories, its policy and the lock go? */
  predicate Allowed(e: Env, arg: string, a: Arrival, x: Faults) {
    var cn := HookCN(e, arg);
    && Acceptable(cn) && a.usersDirOk && x.dirOk && a.policy.Some? && x.lockOk
    && Admits(a.policy.value, |LiveRows(a.rows, cn)|, a.takeover)
  }

  /** Bank the displaced generation, then replace its marker; both must succeed. */
  function Install(n: Node, cn: string, key: string, m: Marker, poolIP: string, rows: seq<Row>, epoch: string, x: Faults)
    : (Node, bool)
  {
    var (usage, banked) := BankDisplaced(n, cn, key, poolIP, rows, epoch, x);
    if !banked || !x.writeOk then (Node(n.sessions, usage), false)
    else (Node(n.sessions[key := m], usage), true)
  }

  /** The marker a connect leaves on disk, as every reader will parse it. */
  function InstalledMarker(cn: string, e: Env, a: Arrival): Marker {
    ParseMarker(MarkerBody(NewMarker(cn, e, a)))
  }

  function ConnectStep(n: Node, e: Env, arg: string, a: Arrival, epoch: string, x: Faults): (Node, bool) {
    var cn := HookCN(e, arg);
    if !Allowed(e, arg, a, x) then (n, false)
    else Install(n, cn, HookKey(cn, e), InstalledMarker(cn, e, a), e.poolIP, LiveRows(a.rows, cn), epoch, x)
  }

  // ----- the usage poll ------------------------------------------------------------------------------

  /** A marker as the poll sees it, with its defaults filled in. */
  datatype Candidate = Candidate(
    key: string, commonName: string, trustedIP: string, trustedPort: string, poolIP: string,
    created: int, sessionID: string, connectedAt: int)

  function FirstLabel(name: string): string { Text.Cut(name, '.').0 }

  function ToCandidate(name: string, m: Marker): Candidate {
    Candidate(name, if m.commonName == "" then FirstLabel(name) else m.commonName,
              m.trustedIP, m.trustedPort, m.poolIP, m.created, MarkerId(m, name),
              if m.connectedAt == 0 then m.created else m.connectedAt)
  }

  predicate Visible(name: string) { !Text.HasPrefix(name, ".") }

  function Stamp(c: Candidate): int { if c.connectedAt == 0 then c.created else c.connectedAt }

  /** May this marker's generation account for the row of a snapshot taken at updatedAt? */
  predicate Eligible(row: Row, c: Candidate, updatedAt: int) {
    && !(updatedAt > 0 && Stamp(c) > 0 && updatedAt <= Stamp(c))
    && (c.poolIP != "" ==> c.poolIP == row.virtualAddress)
    && (c.poolIP == "" ==> c.trustedIP == row.trustedIP && c.trustedPort == row.trustedPort)
  }

  /** i is the first among the eligible candidates with the greatest stamp. */
  predicate IsChoice(row: Row, cands: seq<Candidate>, updatedAt: int, i: int) {
    && 0 <= i < |cands| && Eligible(row, cands[i], updatedAt)
    && forall j :: 0 <= j < |cands| && Eligible(row, cands[j], updatedAt) ==>
         Stamp(cands[j]) <= Stamp(cands[i]) && (j < i ==> Stamp(cands[j]) < Stamp(cands[i]))
  }

  /** ChooseMarker keeps the best candidate seen so far. */
  method ChooseMarker(row: Row, cands: seq<Candidate>, updatedAt: int) returns (chosen: Option<int>)
    ensures match chosen {
      case Some(i) => IsChoice(row, cands, updatedAt, i)
      case None => forall j :: 0 <= j < |cands| ==> !Eligible(row, cands[j], updatedAt)
    }
    ensures chosen == Choose(row, cands, updatedAt)
  {
    chosen := None;
    for i := 0 to |cands|
      invariant chosen == Choose(row, cands[..i], updatedAt)
    {
      var c := cands[i];
      assert cands[..i + 1] == cands[..i] + [c];
      if updatedAt > 0 && Stamp(c) > 0 && updatedAt <= Stamp(c) { continue; }
      if c.poolIP != "" && c.poolIP != row.virtualAddress { continue; }
      if c.poolIP == "" && (c.trustedIP != row.trustedIP || c.trustedPort != row.trustedPort) { continue; }
      if chosen.None? || Stamp(c) > Stamp(cands[chosen.value]) { chosen := Some(i); }
    }
    assert cands[..|cands|] == cands;
    ChooseIsBest(row, cands, updatedAt);
  }

  function Choose(row: Row, cands: seq<Candidate>, updatedAt: int): (r: Option<int>)
    ensures r.Some? ==> 0 <= r.value < |cands|
  {
    if cands == [] then None else
    var last := |cands| - 1;
    var best := Choose(row, cands[..last], updatedAt);
    if Eligible(row, cands[last], updatedAt) && (best.None? || Stamp(cands[last]) > Stamp(cands[best.value]))
    then Some(last) else best
  }

  /** The choice is an eligible marker with the greatest stamp, the earliest on ties, and there is none
      exactly when no marker is eligible. */
  lemma {:induction false} ChooseIsBest(row: Row, cands: seq<Candidate>, updatedAt: int)
    ensures match Choose(row, cands, updatedAt) {
      case Some(i) => IsChoice(row, cands, updatedAt, i)
      case None => forall j :: 0 <= j < |cands| ==> !Eligible(row, cands[j], updatedAt)
    }
  {
    if cands != [] {
      var front := cands[..|cands| - 1];
      ChooseIsBest(row, front, updatedAt);
      assert forall j :: 0 <= j < |front| ==> front[j] == cands[j];
    }
  }

  function DerivedId(row: Row): string {
    row.commonName + "." + row.virtualAddress + "." + row.clientID + "." + Text.FormatInt(row.connectedAt)
  }

  /** The session a row is booked under; None leaves the row alone. A row that matches no marker is booked
      under its own identity only while the user has no marker at all. */
  function RowId(row: Row, cands: seq<Candidate>, updatedAt: int): Option<string> {
    match Choose(row, cands, updatedAt)
    case Some(i) => Some(cands[i].sessionID)
    case None => if cands == [] then Some(DerivedId(row)) else None
  }

  /** Book the rows of one user in turn; the first failure ends the poll. */
  function BookRows(usage: Files, ids: set<string>, cn: string, cands: seq<Candidate>, rows: seq<Row>, updatedAt: int,
                    epoch: string, disk: Disk): (Files, set<string>, bool)
    decreases |rows|
  {
    if rows == [] then (usage, ids, true)
    else match RowId(rows[0], cands, updatedAt)
      case None => BookRows(usage, ids, cn, cands, rows[1..], updatedAt, epoch, disk)
      case Some(id) =>
        var bytes := WrapAdd(rows[0].bytesReceived, rows[0].bytesSent);
        var (usage', r) := Record(usage, cn, id, bytes, false, epoch, disk);
        if r.Err? then (usage', ids, false)
        else BookRows(usage', ids + {id}, cn, cands, rows[1..], updatedAt, epoch, disk)
  }

  function Candidates(s: Sessions, listing: seq<string>, cn: string): seq<Candidate> {
    if listing == [] then [] else
    var f := listing[|listing| - 1];
    Candidates(s, listing[..|listing| - 1], cn)
    + if f in s && Visible(f) && ToCandidate(f, s[f]).commonName == cn then [ToCandidate(f, s[f])] else []
  }

  /** Every element of the set, once. */
  ghost predicate Enumerates(order: seq<string>, s: set<string>) {
    && (forall x :: x in order <==> x in s)
    && (forall i, j :: 0 <= i < j < |order| ==> order[i] != order[j])
  }

  type Presence = map<string, set<string>>

  /** The markers that a scan of the directory could read; a scan that cannot list it reads none. */
  function Seen(s: Sessions, read: set<string>): Sessions { map f | f in s && f in read :: s[f] }

  function PresentIn(p: Presence, cn: string): set<string> { if cn in p then p[cn] else {} }

  /** The ids and file names of a user's markers, as the poll attributes them. */
  function PollPresent(s: Sessions, cn: string): set<string> {
    (set f | f in s && Visible(f) && ToCandidate(f, s[f]).commonName == cn :: f)
    + (set f | f in s && Visible(f) && ToCandidate(f, s[f]).commonName == cn :: MarkerId(s[f], f))
  }

  function PollPresence(s: Sessions, live: Presence, cns: seq<string>): Presence {
    map cn | cn in cns :: PresentIn(live, cn) + PollPresent(s, cn)
  }

  /** The ids and file names of a user's markers, as the purge attributes them. */
  function PurgePresent(s: Sessions, cn: string): set<string> {
    (set f | f in s && Visible(f) && s[f].commonName == cn :: f)
    + (set f | f in s && Visible(f) && s[f].commonName == cn :: s[f].sessionID)
  }

  function PurgePresence(s: Sessions, cns: seq<string>): Presence {
    map cn | cn in cns :: PurgePresent(s, cn)
  }

  function CounterNames(usage: Files): set<string> { set f | f in usage && Names.StoreKey(f) }

  predicate AllReadable(usage: Files) {
    forall f :: f in CounterNames(usage) ==> ReadUsageState(usage, f, "").Ok?
  }

  /** Prune in turn until a prune fails. */
  function Retire(usage: Files, present: Presence, order: seq<string>, failing: set<string>): Files
    decreases |order|
  {
    if order == [] then usage else
    var (usage', err) := Prune(usage, order[0], PresentIn(present, order[0]), Disk(true, order[0] !in failing));
    if err.Some? then usage' else Retire(usage', present, order[1..], failing)
  }

  /** Prune in turn whatever fails. */
  function RetireAll(usage: Files, present: Presence, order: seq<string>, failing: set<string>): Files
    decreases |order|
  {
    if order == [] then usage
    else RetireAll(Prune(usage, order[0], PresentIn(present, order[0]), Disk(true, order[0] !in failing)).0, present, order[1..], failing)
  }

  /** The first half of a poll, for one user: under the session lock, book the user's rows. The listing holds
      the markers that the scan could read. */
  function PollBook(n: Node, cn: string, listing: seq<string>, rows: seq<Row>, updatedAt: int, epoch: string, disk: Disk)
    : Node
  {
    n.(usage := BookRows(n.usage, {}, cn, Candidates(n.sessions, listing, cn), rows, updatedAt, epoch, disk).0)
  }

  /** The second half: read every counter and retire the receipts of generations that are gone. */
  function PollRetire(n: Node, live: Presence, read: set<string>, order: seq<string>, failing: set<string>): Node {
    if !AllReadable(n.usage) then n
    else n.(usage := Retire(n.usage, PollPresence(Seen(n.sessions, read), live, order), order, failing))
  }

  // ----- the purge -------------------------------------------------------------------------------------

  predicate Stale(m: Marker, live: set<string>, now: int, ttl: int) {
    m.created > 0 && now - m.created > ttl && m.poolIP !in live
  }

  predicate Purgeable(f: string, m: Marker, live: set<string>, now: int, ttl: int, stuck: set<string>) {
    Visible(f) && Stale(m, live, now, ttl) && f !in stuck
  }

  function LivePools(rows: seq<Row>): set<string> { set r | r in rows :: r.virtualAddress }

  function StaleFiles(s: Sessions, live: set<string>, now: int, ttl: int, stuck: set<string>): set<string> {
    set f | f in s && Purgeable(f, s[f], live, now, ttl, stuck)
  }

  function Affected(s: Sessions, gone: set<string>): set<string> { set f | f in gone && f in s :: s[f].commonName }

  /** The removal loop. rows is the live snapshot, None when the status file is torn or unreadable; markers that
      the first scan cannot read count as stuck. */
  function PurgeRemove(n: Node, rows: Option<seq<Row>>, now: int, ttl: int, stuck: set<string>): Node {
    match rows
    case None => n
    case Some(rows) => n.(sessions := n.sessions - StaleFiles(n.sessions, LivePools(rows), now, ttl, stuck))
  }

  /** The second scan and the prunes in the given names, unless the directory cannot be listed again. */
  function PurgeRetire(n: Node, read: Option<set<string>>, order: seq<string>, failing: set<string>): Node {
    match read
    case None => n
    case Some(read) => n.(usage := RetireAll(n.usage, PurgePresence(Seen(n.sessions, read), order), order, failing))
  }

  /** A purge that nothing runs between. */
  function PurgeStep(n: Node, rows: Option<seq<Row>>, now: int, ttl: int, stuck: set<string>, read: Option<set<string>>,
                     order: seq<string>, failing: set<string>): Node
  {
    if rows.None? then n else PurgeRetire(PurgeRemove(n, rows, now, ttl, stuck), read, order, failing)
  }
}
