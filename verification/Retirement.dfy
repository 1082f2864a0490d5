/** Which markers a purge removes and which receipts a poll or a purge retires, in terms of the markers' own fields
    (internal/hooks/purge.go:36-97, internal/ovpn/usage.go:133-163). */
module Retirement {
  import opened Wrappers
  import opened Counter
  import opened Markers
  import opened Hooks
  import opened AccountingRuns
  import opened ScanFailures
  import opened PollLaws
  import opened CounterLaws
  import Names
  import Text

  /** The marker is older than the lifetime, as far as its age is known, and no live session has its address. */
  predicate Outlived(m: Marker, rows: seq<Row>, now: int, ttl: int) {
    m.created > 0 && now - m.created > ttl && forall r :: r in rows ==> r.virtualAddress != m.poolIP
  }

  /** MAIN: a purge removes exactly the visible markers that the file system lets go, that were created longer ago than the
      lifetime, and whose pool address no row of the snapshot has; the others stay as they are. Without a snapshot it
      removes nothing. */
  lemma PurgeRemovesExactly(n: Node, snapshot: Option<seq<Row>>, now: int, ttl: int, stuck: set<string>,
                            read: Option<set<string>>, order: seq<string>, failing: set<string>, f: string)
    requires f in n.sessions
    ensures var after := PurgeStep(n, snapshot, now, ttl, stuck, read, order, failing).sessions;
      && (f !in after <==>
            snapshot.Some? && !Text.HasPrefix(f, ".") && f !in stuck && Outlived(n.sessions[f], snapshot.value, now, ttl))
      && (f in after ==> after[f] == n.sessions[f])
      && after.Keys <= n.sessions.Keys
  {
    hide RetireAll, PurgePresence, Text.HasPrefix;
    if snapshot.Some? { LivePoolsExactly(snapshot.value, n.sessions[f].poolIP); }
  }

  lemma LivePoolsExactly(rows: seq<Row>, pool: string)
    ensures pool in LivePools(rows) <==> exists r :: r in rows && r.virtualAddress == pool
  {
  }

  // ----- retiring after a poll ---------------------------------------------------------------------------

  /** The scan read a marker of cn that carries the id, or whose file has that name. */
  ghost predicate ReadCarrier(s: Sessions, read: set<string>, cn: string, id: string) {
    exists f :: f in read && MarkerOf(s, f, cn) && (f == id || IdOf(f, s[f]) == id)
  }

  lemma PollPresentExactly(s: Sessions, read: set<string>, cn: string, id: string)
    ensures id in PollPresent(Seen(s, read), cn) <==> ReadCarrier(s, read, cn, id)
  {
    hide ToCandidate, Text.Cut, Text.HasPrefix, Visible, PollPresent;
    var seen := Seen(s, read);
    PollPresentIn(seen, cn, id);
    forall f ensures MarkerOf(seen, f, cn) <==> f in read && MarkerOf(s, f, cn) { SeenMarker(s, read, f, cn); }
    if ReadCarrier(s, read, cn, id) {
      var f :| f in read && MarkerOf(s, f, cn) && (f == id || IdOf(f, s[f]) == id);
      assert MarkerOf(seen, f, cn);
    }
  }

  lemma SeenMarker(s: Sessions, read: set<string>, f: string, cn: string)
    ensures MarkerOf(Seen(s, read), f, cn) <==> f in read && MarkerOf(s, f, cn)
  {
  }

  lemma PollPresentIn(s: Sessions, cn: string, id: string)
    ensures id in PollPresent(s, cn) <==> exists f :: MarkerOf(s, f, cn) && (f == id || IdOf(f, s[f]) == id)
  {
    hide ToCandidate, MarkerOf, Visible;
    forall f ensures MarkerOf(s, f, cn) <==> f in s && Visible(f) && ToCandidate(f, s[f]).commonName == cn {
      CandidateOwner(s, f, cn);
    }
  }

  /** MAIN: a poll that completes keeps a closed receipt exactly when its id is live or a marker of the user that the
      scan could read carries it. */
  lemma PollRetiresExactly(n: Node, live: Presence, read: set<string>, order: seq<string>, cn: string, id: string)
    requires ClosedIn(n.usage, cn, id) && AllReadable(n.usage) && Enumerates(order, CounterNames(n.usage))
    ensures ClosedIn(PollRetire(n, live, read, order, {}).usage, cn, id) <==>
      (cn in live && id in live[cn]) || ReadCarrier(n.sessions, read, cn, id)
  {
    hide PollRetire, ReadCarrier, ClosedIn, AllReadable, Enumerates, CounterNames, PollPresent, Seen;
    PollKeepsReceiptExactly(n, live, read, order, cn, id);
    PollPresentExactly(n.sessions, read, cn, id);
  }

  /** MAIN: while any counter file cannot be read, a poll retires no receipt of anyone. */
  lemma UnreadableCounterStopsPoll(n: Node, live: Presence, read: set<string>, order: seq<string>, failing: set<string>, o: string)
    requires o in n.usage && Names.StoreKey(o) && !WellFormed(n.usage[o])
    ensures PollRetire(n, live, read, order, failing) == n
  {
    assert Names.SafeCN(o) == Some(o) && o in CounterNames(n.usage);
    hide Names.SafeCN, Names.StoreKey, Retire, PollPresence, CounterNames, ReadFile, WellFormed;
    CounterReadsExactly(n.usage, o, "");
  }

  // ----- retiring after a purge ----------------------------------------------------------------------------

  function Removed(before: Sessions, after: Sessions): set<string> { before.Keys - after.Keys }

  /** The users whose markers went. */
  function OwnersOf(before: Sessions, gone: set<string>): set<string> { set f | f in gone && f in before :: before[f].commonName }

  /** The second scan of a purge read a marker that stayed, names cn and carries the id. */
  ghost predicate SweptCarrier(left: Sessions, read: set<string>, cn: string, id: string) {
    exists f :: f in read && f in left && !Text.HasPrefix(f, ".") && left[f].commonName == cn && (f == id || left[f].sessionID == id)
  }

  lemma PurgePresentExactly(s: Sessions, read: set<string>, cn: string, id: string)
    ensures id in PurgePresent(Seen(s, read), cn) <==> SweptCarrier(s, read, cn, id)
  {
    hide Text.HasPrefix;
    if SweptCarrier(s, read, cn, id) {
      var f :| f in read && f in s && !Text.HasPrefix(f, ".") && s[f].commonName == cn && (f == id || s[f].sessionID == id);
      assert f in Seen(s, read) && Seen(s, read)[f] == s[f];
    }
  }

  lemma StaleAreRemoved(n: Node, rows: seq<Row>, now: int, ttl: int, stuck: set<string>, read: Option<set<string>>,
                        order: seq<string>)
    ensures var gone := StaleFiles(n.sessions, LivePools(rows), now, ttl, stuck);
      var after := PurgeStep(n, Some(rows), now, ttl, stuck, read, order, {}).sessions;
      after == n.sessions - gone && Removed(n.sessions, after) == gone && Affected(n.sessions, gone) == OwnersOf(n.sessions, gone)
  {
    hide RetireAll, PurgePresence, Purgeable, LivePools;
  }

  /** MAIN: a purge keeps a closed receipt exactly when it removed no marker of the user, could not list the directory
      again, or read a marker of the user that carries the id. */
  lemma PurgeRetiresExactly(n: Node, rows: seq<Row>, now: int, ttl: int, stuck: set<string>, read: Option<set<string>>,
                            order: seq<string>, cn: string, id: string)
    requires ClosedIn(n.usage, cn, id) && TrimmedNames(n.sessions)
    requires var after := PurgeStep(n, Some(rows), now, ttl, stuck, read, order, {}).sessions;
      Enumerates(order, OwnersOf(n.sessions, Removed(n.sessions, after)))
    ensures var n' := PurgeStep(n, Some(rows), now, ttl, stuck, read, order, {});
      ClosedIn(n'.usage, cn, id) <==>
      || cn !in OwnersOf(n.sessions, Removed(n.sessions, n'.sessions))
      || read.None? || SweptCarrier(n'.sessions, read.value, cn, id)
  {
    hide PurgeStep, ClosedIn, TrimmedNames, Enumerates, StaleFiles, LivePools, Affected, OwnersOf, Removed, SweptCarrier,
      PurgePresent, Seen;
    var gone := StaleFiles(n.sessions, LivePools(rows), now, ttl, stuck);
    StaleAreRemoved(n, rows, now, ttl, stuck, read, order);
    PurgeKeepsReceiptExactly(n, rows, now, ttl, stuck, read, order, cn, id);
    if read.Some? { PurgePresentExactly(n.sessions - gone, read.value, cn, id); }
  }
}
