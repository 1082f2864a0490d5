/** The hooks and the poll as they run: session files and counters changed in place, step by step. */
module Agent {
  import opened Wrappers
  import opened Counter
  import opened Markers
  import opened Hooks
  import Names
  import Policy
  import Text

  class Agent {
    var sessions: Sessions
    const usage: UsageDir

    constructor (usage: UsageDir)
      ensures this.usage == usage && sessions == map[]
    {
      this.usage := usage;
      sessions := map[];
    }

    function Snapshot(): Node
      reads this, usage
    {
      Node(sessions, usage.files)
    }

    /** Remove every marker with a legacy name, visiting the directory in any order. */
    method RemoveLegacyMarkers(cn: string, e: Env, stuck: set<string>)
      modifies this
      ensures sessions == WithoutLegacy(old(sessions), cn, e, stuck)
    {
      var ip, port := Names.Sanitize(OrUnknown(e.trustedIP)), Names.Sanitize(OrUnknown(e.trustedPort));
      var todo := sessions.Keys;
      while todo != {}
        invariant todo <= sessions.Keys <= old(sessions).Keys
        invariant forall f :: f in sessions ==> sessions[f] == old(sessions)[f]
        invariant forall f :: f in old(sessions) && f !in todo ==>
          (f in sessions <==> f in stuck || !LegacyName(f, cn, PoolKey(e.poolIP), ip, port))
        decreases |todo|
      {
        var f :| f in todo;
        todo := todo - {f};
        if LegacyName(f, cn, PoolKey(e.poolIP), ip, port) && f !in stuck {
          sessions := sessions - {f};
        }
      }
      assert sessions == WithoutLegacy(old(sessions), cn, e, stuck);
    }

    method Disconnect(e: Env, arg: string, epoch: string, x: Faults)
      requires epoch != ""
      modifies this, usage
      ensures Snapshot() == DisconnectStep(old(Snapshot()), e, arg, epoch, x)
    {
      var cn := HookCN(e, arg);
      if cn == "" || !Acceptable(cn) || !x.dirOk || !x.lockOk { return; }
      var key := HookKey(cn, e);
      if key !in sessions || key in x.unseen {
        RemoveLegacyMarkers(cn, e, x.stuck);
        return;
      }
      if key in x.unread { return; }
      var m := sessions[key];
      if !DisconnectMatches(m, key, e.trustedIP, e.trustedPort, KnownStart(e.timeUnix)) { return; }
      var bytes := WrapAdd(ByteCounter(e.bytesReceived), ByteCounter(e.bytesSent));
      var r := usage.RecordSessionUsage(cn, MarkerId(m, key), bytes, true, epoch, x.usage);
      if r.Err? { return; }  // the marker stays for a retry
      if key !in x.stuck { sessions := sessions - {key}; }
    }

    method BankDisplacedGeneration(cn: string, key: string, poolIP: string, rows: seq<Row>, epoch: string, x: Faults)
      returns (ok: bool)
      requires epoch != ""
      modifies usage
      ensures (usage.files, ok) == BankDisplaced(old(Snapshot()), cn, key, poolIP, rows, epoch, x)
    {
      if key !in sessions || key in x.unread || sessions[key].sessionID == "" { return true; }
      var oldBytes: u64 := 0;
      var found := false;
      var i := 0;
      while i < |rows| && !found
        invariant 0 <= i <= |rows|
        invariant if found then PoolBytes(rows, poolIP) == Some(oldBytes)
                  else PoolBytes(rows[i..], poolIP) == PoolBytes(rows, poolIP)
        decreases |rows| - i, !found
      {
        assert rows[i..][0] == rows[i] && rows[i..][1..] == rows[i + 1..];
        if poolIP != "" && rows[i].virtualAddress == poolIP {
          oldBytes := WrapAdd(rows[i].bytesReceived, rows[i].bytesSent);
          found := true;
        }
        i := i + 1;
      }
      if !found { return true; }
      var r := usage.RecordSessionUsage(cn, sessions[key].sessionID, oldBytes, true, epoch, x.usage);
      ok := r.Ok?;
    }

    /** The admission policy: limit 0 is unlimited, limit 1 takes over, any other limit refuses. */
    static method Admit(e: Env, arg: string, a: Arrival, x: Faults) returns (ok: bool)
      ensures ok == Allowed(e, arg, a, x)
    {
      var cn := HookCN(e, arg);
      if !Acceptable(cn) || !a.usersDirOk || !x.dirOk || a.policy.None? { return false; }
      var limit := Policy.DEFAULT_LIMIT;
      if a.policy.value.limitSet { limit := a.policy.value.limit; }
      if a.policy.value.disabled || !x.lockOk { return false; }
      if limit == 0 { return true; }
      var count := |LiveRows(a.rows, cn)|;
      if count >= limit {
        if limit != 1 { return false; }
        if a.takeover == TimedOut { return false; }
      }
      return true;
    }

    method InstallMarker(cn: string, key: string, m: Marker, poolIP: string, rows: seq<Row>, epoch: string, x: Faults)
      returns (ok: bool)
      requires epoch != ""
      modifies this, usage
      ensures (Snapshot(), ok) == Install(old(Snapshot()), cn, key, m, poolIP, rows, epoch, x)
    {
      var banked := BankDisplacedGeneration(cn, key, poolIP, rows, epoch, x);
      if !banked || !x.writeOk { return false; }
      sessions := sessions[key := m];
      return true;
    }

    method Connect(e: Env, arg: string, a: Arrival, epoch: string, x: Faults) returns (admitted: bool)
      requires epoch != ""
      modifies this, usage
      ensures (Snapshot(), admitted) == ConnectStep(old(Snapshot()), e, arg, a, epoch, x)
    {
      var cn := HookCN(e, arg);
      admitted := Admit(e, arg, a, x);
      if admitted {
        admitted := InstallMarker(cn, HookKey(cn, e), InstalledMarker(cn, e, a), e.poolIP, LiveRows(a.rows, cn), epoch, x);
      }
    }

    /** Book one user's rows, as the poll does under the user's session lock. */
    method RecordRows(cn: string, listing: seq<string>, rows: seq<Row>, updatedAt: int, epoch: string, disk: Disk)
      returns (ids: set<string>, ok: bool)
      requires epoch != ""
      modifies usage
      ensures (usage.files, ids, ok) ==
        BookRows(old(usage.files), {}, cn, Candidates(sessions, listing, cn), rows, updatedAt, epoch, disk)
    {
      var cands: seq<Candidate> := [];
      for i := 0 to |listing|
        invariant cands == Candidates(sessions, listing[..i], cn)
      {
        var f := listing[i];
        assert listing[..i + 1][..i] == listing[..i];
        if f in sessions && Visible(f) {
          var c := ToCandidate(f, sessions[f]);
          if c.commonName == cn { cands := cands + [c]; }
        }
      }
      assert listing[..|listing|] == listing;
      ids := {};
      ok := true;
      for i := 0 to |rows|
        invariant ok
        invariant BookRows(usage.files, ids, cn, cands, rows[i..], updatedAt, epoch, disk)
               == BookRows(old(usage.files), {}, cn, cands, rows, updatedAt, epoch, disk)
      {
        assert rows[i..][0] == rows[i] && rows[i..][1..] == rows[i + 1..];
        var chosen := ChooseMarker(rows[i], cands, updatedAt);
        var id := "";
        if chosen.Some? { id := cands[chosen.value].sessionID; }
        else if |cands| == 0 { id := DerivedId(rows[i]); }
        else { continue; }
        var bytes := WrapAdd(rows[i].bytesReceived, rows[i].bytesSent);
        var r := usage.RecordSessionUsage(cn, id, bytes, false, epoch, disk);
        if r.Err? { ok := false; return; }
        ids := ids + {id};
      }
    }

    /** The present set of the poll: the live ids plus the id and file name of every marker it can read. */
    method CollectPresent(live: Presence, read: set<string>) returns (present: Presence)
      ensures forall cn :: Collected(present, live, Seen(sessions, read), cn)
    {
      present := live;
      var todo := sessions.Keys;
      ghost var seen: Sessions := map[];
      CollectedStart(live);
      while todo != {}
        invariant todo <= sessions.Keys && seen.Keys == (sessions.Keys - todo) * read
        invariant forall f :: f in seen ==> seen[f] == sessions[f]
        invariant forall cn :: Collected(present, live, seen, cn)
        decreases |todo|
      {
        var f :| f in todo;
        todo := todo - {f};
        if f !in read { continue; }
        var c := ToCandidate(f, sessions[f]);
        ghost var before, m := present, sessions[f];
        if Visible(f) {
          present := present[c.commonName := PresentIn(present, c.commonName) + {c.sessionID, c.key}];
        }
        ghost var next := seen[f := m];
        forall cn ensures Collected(present, live, next, cn) {
          assert Collected(before, live, seen, cn);
          CollectedStep(before, live, seen, f, m, cn);
        }
        seen := next;
      }
      assert seen == Seen(sessions, read);
    }

    /** The totals of every counter; None when one of them cannot be read. */
    method ReadTotals(cns: seq<string>) returns (totals: Option<map<string, u64>>)
      requires forall f :: f in cns <==> f in CounterNames(usage.files)
      ensures totals.Some? <==> AllReadable(usage.files)
      ensures totals.Some? ==>
        totals.value == map f | f in CounterNames(usage.files) :: ReadUsageState(usage.files, f, "").value.total
    {
      var sums: map<string, u64> := map[];
      for i := 0 to |cns|
        invariant forall f :: f in sums <==> f in cns[..i]
        invariant forall f :: f in sums ==>
          ReadUsageState(usage.files, f, "").Ok? && sums[f] == ReadUsageState(usage.files, f, "").value.total
      {
        var st := usage.Load(cns[i], "");
        assert cns[i] in cns;
        if st.Err? { return None; }
        assert cns[..i + 1] == cns[..i] + [cns[i]];
        sums := sums[cns[i] := st.value.total];
      }
      assert cns[..|cns|] == cns;
      totals := Some(sums);
    }

    method PruneUntilFailure(cns: seq<string>, present: Presence, ghost p: Presence, failing: set<string>)
      requires forall cn :: cn in cns ==> PresentIn(present, cn) == PresentIn(p, cn)
      modifies usage
      ensures usage.files == Retire(old(usage.files), p, cns, failing)
    {
      for i := 0 to |cns|
        invariant Retire(usage.files, p, cns[i..], failing) == Retire(old(usage.files), p, cns, failing)
      {
        assert cns[i..][0] == cns[i] && cns[i..][1..] == cns[i + 1..] && cns[i] in cns;
        var err := usage.PruneReceipts(cns[i], PresentIn(present, cns[i]), Disk(true, cns[i] !in failing));
        if err.Some? { return; }
      }
    }

    /** Totals are read from every counter before any receipt is retired; an unreadable one ends the poll. */
    method RetireAfterPoll(live: Presence, read: set<string>, failing: set<string>)
      returns (totals: Option<map<string, u64>>, ghost order: seq<string>)
      modifies usage
      ensures Enumerates(order, CounterNames(old(usage.files)))
      ensures Snapshot() == PollRetire(old(Snapshot()), live, read, order, failing)
      ensures totals.Some? <==> AllReadable(old(usage.files))
      ensures totals.Some? ==>
        totals.value == map f | f in CounterNames(old(usage.files)) :: ReadUsageState(old(usage.files), f, "").value.total
    {
      var cns := OrderOf(CounterNames(usage.files));
      order := cns;
      totals := ReadTotals(cns);
      if totals.None? { return; }
      var present := CollectPresent(live, read);
      ghost var wanted := PollPresence(Seen(sessions, read), live, cns);
      forall cn | cn in cns ensures PresentIn(present, cn) == PresentIn(wanted, cn) {
        assert Collected(present, live, Seen(sessions, read), cn);
      }
      PruneUntilFailure(cns, present, wanted, failing);
    }

    /** Some order of the names; the source sorts them, and nothing below depends on which order it is. */
    static method OrderOf(names: set<string>) returns (order: seq<string>)
      ensures Enumerates(order, names)
    {
      order := [];
      var todo := names;
      while todo != {}
        invariant todo <= names && Enumerates(order, names - todo)
        decreases |todo|
      {
        var x :| x in todo;
        todo := todo - {x};
        order := order + [x];
      }
    }

    static method LiveAddresses(rows: seq<Row>) returns (live: set<string>)
      ensures live == LivePools(rows)
    {
      live := {};
      for i := 0 to |rows|
        invariant live == LivePools(rows[..i])
      {
        assert rows[..i + 1] == rows[..i] + [rows[i]];
        live := live + {rows[i].virtualAddress};
      }
      assert rows[..|rows|] == rows;
    }

    /** Remove the stale markers that can be removed; their owners' names are returned. */
    method RemoveStale(live: set<string>, now: int, ttl: int, stuck: set<string>, ghost gone: set<string>)
      returns (affected: set<string>)
      requires forall f :: f in gone <==> f in sessions && Purgeable(f, sessions[f], live, now, ttl, stuck)
      modifies this
      ensures sessions == old(sessions) - gone
      ensures affected == Affected(old(sessions), gone)
    {
      ghost var removed: set<string> := {};
      affected := {};
      var todo := sessions.Keys;
      while todo != {}
        invariant todo <= sessions.Keys && sessions == old(sessions) - removed
        invariant removed == gone - todo
        invariant affected == Affected(old(sessions), removed)
        decreases |todo|
      {
        var f :| f in todo;
        ghost var next := removed + if f in gone then {f} else {};
        RemovalStep(old(sessions), gone, todo, removed, f);
        todo := todo - {f};
        var m := sessions[f];
        if Purgeable(f, m, live, now, ttl, stuck) {
          affected := affected + {m.commonName};
          sessions := sessions - {f};
        }
        removed := next;
      }
    }

    method PruneEach(cns: seq<string>, present: Presence, failing: set<string>)
      modifies usage
      ensures usage.files == RetireAll(old(usage.files), present, cns, failing)
    {
      for i := 0 to |cns|
        invariant RetireAll(usage.files, present, cns[i..], failing) == RetireAll(old(usage.files), present, cns, failing)
      {
        assert cns[i..][0] == cns[i] && cns[i..][1..] == cns[i + 1..];
        var _ := usage.PruneReceipts(cns[i], PresentIn(present, cns[i]), Disk(true, cns[i] !in failing));
      }
    }

    /** Remove stale markers, then retire the receipts of the users whose markers went. */
    method PurgeStale(rows: Option<seq<Row>>, now: int, ttl: int, stuck: set<string>, read: Option<set<string>>,
                      failing: set<string>)
      returns (ghost order: seq<string>)
      modifies this, usage
      ensures Snapshot() == PurgeStep(old(Snapshot()), rows, now, ttl, stuck, read, order, failing)
      ensures rows.Some? ==>
        Enumerates(order, Affected(old(sessions), StaleFiles(old(sessions), LivePools(rows.value), now, ttl, stuck)))
    {
      order := [];
      if rows.None? { return; }
      var live := LiveAddresses(rows.value);
      var affected := RemoveStale(live, now, ttl, stuck, StaleFiles(sessions, live, now, ttl, stuck));
      var cns := OrderOf(affected);
      order := cns;
      if read.None? { return; }
      PruneEach(cns, PurgePresence(Seen(sessions, read.value), cns), failing);
    }
  }

  lemma RemovalStep(s: Sessions, gone: set<string>, todo: set<string>, removed: set<string>, f: string)
    requires f in todo && todo <= s.Keys && gone <= s.Keys && removed == gone - todo
    ensures var next := removed + if f in gone then {f} else {};
      && next == gone - (todo - {f})
      && s - next == (if f in gone then (s - removed) - {f} else s - removed)
      && Affected(s, next) == Affected(s, removed) + (if f in gone then {s[f].commonName} else {})
      && todo - {f} <= (s - next).Keys
      && (s - removed)[f] == s[f]
  {
    assert f !in removed;
    if f in gone { assert forall x :: x in removed + {f} <==> x in removed || x == f; }
  }

  lemma CollectedStart(live: Presence)
    ensures forall cn :: Collected(live, live, map[], cn)
  {
  }

  lemma CollectedStep(present: Presence, live: Presence, seen: Sessions, f: string, m: Marker, cn: string)
    requires f !in seen && Collected(present, live, seen, cn)
    ensures var c := ToCandidate(f, m);
      var next := if Visible(f) then present[c.commonName := PresentIn(present, c.commonName) + {c.sessionID, c.key}]
                  else present;
      Collected(next, live, seen[f := m], cn)
  {
    PollPresentStep(seen, f, m, cn);
  }

  ghost predicate Collected(present: Presence, live: Presence, seen: Sessions, cn: string) {
    PresentIn(present, cn) == PresentIn(live, cn) + PollPresent(seen, cn)
  }

  /** The poll counts the marker in the file f as cn's. */
  predicate CountsAs(s: Sessions, f: string, cn: string) {
    f in s && Visible(f) && ToCandidate(f, s[f]).commonName == cn
  }

  lemma PresentExactly(s: Sessions, cn: string, y: string)
    ensures y in PollPresent(s, cn) <==> CountsAs(s, y, cn) || exists f :: CountsAs(s, f, cn) && MarkerId(s[f], f) == y
  {
    hide ToCandidate, Visible, MarkerId;
  }

  lemma CountsAsStep(s: Sessions, f: string, m: Marker, cn: string, g: string)
    requires f !in s
    ensures CountsAs(s[f := m], g, cn) <==> CountsAs(s, g, cn) || (g == f && Visible(f) && ToCandidate(f, m).commonName == cn)
    ensures CountsAs(s, g, cn) ==> s[f := m][g] == s[g]
  {
    hide ToCandidate, Visible;
  }

  lemma PollPresentStep(s: Sessions, f: string, m: Marker, cn: string)
    requires f !in s
    ensures var c := ToCandidate(f, m);
      PollPresent(s[f := m], cn) == PollPresent(s, cn) + if Visible(f) && cn == c.commonName then {f, c.sessionID} else {}
  {
    assert ToCandidate(f, m).sessionID == MarkerId(m, f);
    hide ToCandidate, Visible, MarkerId, PollPresent, CountsAs;
    var c, t := ToCandidate(f, m), s[f := m];
    forall y
      ensures y in PollPresent(t, cn) <==> y in PollPresent(s, cn) || (Visible(f) && cn == c.commonName && (y == f || y == c.sessionID))
    {
      PresentExactly(s, cn, y);
      PresentExactly(t, cn, y);
      forall g ensures CountsAs(t, g, cn) <==> CountsAs(s, g, cn) || (g == f && Visible(f) && c.commonName == cn)
        ensures CountsAs(s, g, cn) ==> t[g] == s[g]
      {
        CountsAsStep(s, f, m, cn, g);
      }
      if exists g :: CountsAs(s, g, cn) && MarkerId(s[g], g) == y {
        var g :| CountsAs(s, g, cn) && MarkerId(s[g], g) == y;
        assert CountsAs(t, g, cn);
      }
    }
  }
}
