/** From issuing a certificate to the deletion of its user. */
module CertificateLifetime {
  import opened Wrappers
  import opened PkiIndex
  import opened Pki
  import opened PkiRuns
  import opened NameRevocation
  import opened UserDelete
  import opened DeletionRuns
  import opened DeletionRetries
  import Names
  import Policy
  import Text

  /** The user that a successful issuance and the profile built from it make. */
  function IssuedAccount(cn: string, serial: nat, ca: nat, policy: Policy.Files, ccd: bool): Account {
    var cert := Cert(cn, serial, ca);
    Account(true, policy, Missing, cert, cert, true, true, ccd)
  }

  /** The certificate is in the index under the user's name. */
  predicate Indexed(t: Tree, cn: string, serial: nat, clock: Clock) {
    IndexRows(t, clock).Some? && serial in HitSerials(IndexRows(t, clock).value, ByCN(cn))
  }

  lemma IssuedIsIndexed(t: Tree, q: Request, clock: Clock)
    requires Ahead(t, clock) && Stampable(q, clock) && !Stopped(t, q) && '/' !in q.cn
    ensures var i := Issue(t, q, clock);
      i.ok && i.serial.Some? && i.tree.ca == t.ca && Indexed(i.tree, q.cn, i.serial.value, clock)
  {
    hide Issue, IssuedRow, HasCN, Serial, Stampable, IndexRows, ReadNumber, Serials;
    IssueAhead(t, q, clock);
    var n := Issue(t, q, clock).serial.value;
    var row := IssuedRow(q.cn, n, q.expiry);
    var rows := IndexRows(Issue(t, q, clock).tree, clock).value;
    assert '/' !in q.cn;
    IssuedRowBelongs(q.cn, n, q.expiry);
    assert rows[|rows| - 1] == row && HasCN(row, q.cn);
  }

  lemma IssuedIsGuarded(cn: string, serial: nat, ca: nat, policy: Policy.Files, ccd: bool)
    ensures Guarded(IssuedAccount(cn, serial, ca, policy, ccd))
    ensures CanDisable(IssuedAccount(cn, serial, ca, policy, ccd)) == Policy.Accepted(policy, DISABLE)
    ensures var cert := Cert(cn, serial, ca); Certs(IssuedAccount(cn, serial, ca, policy, ccd)) == [cert, Missing, cert]
  {
    hide Policy.Accepted, Policy.ReadUserState;
  }

  lemma IndexedIsRevocable(t: Tree, cn: string, serial: nat, clock: Clock)
    requires t.ca.Some? && Indexed(t, cn, serial, clock)
    ensures var cert := Cert(cn, serial, t.ca.value.id); Revocable(t, [cert, Missing, cert], cn, clock)
  {
    hide IndexRows, HitSerials;
  }

  /** A user whose certificates are indexed can be deleted, however often the deletion is stopped. */
  lemma IndexedUserIsRetryable(t: Tree, cn: string, serial: nat, policy: Policy.Files, ccd: bool, clock: Clock)
    requires CanPublish(t) && Indexed(t, cn, serial, clock) && Policy.Accepted(policy, DISABLE)
    ensures Retryable(Site(t, IssuedAccount(cn, serial, t.ca.value.id, policy, ccd)), cn, clock)
  {
    CanPublishSigner(t);
    hide Policy.Accepted, CanPublish, Indexed, Revocable, Guarded, CanDisable, Certs, IssuedAccount, Swept;
    IssuedIsGuarded(cn, serial, t.ca.value.id, policy, ccd);
    IndexedIsRevocable(t, cn, serial, clock);
  }

  lemma CanPublishSigner(t: Tree)
    requires CanPublish(t)
    ensures t.ca.Some?
  {
  }

  lemma KeepsNameTransitive(a: Tree, b: Tree, c: Tree, cn: string, clock: Clock)
    requires KeepsName(a, b, cn, clock) && KeepsName(b, c, cn, clock)
    ensures KeepsName(a, c, cn, clock)
  {
    hide IndexRows, HitSerials;
  }

  lemma HappenKeepsName(s: Site, e: Event, cn: string, clock: Clock)
    requires Retryable(s, cn, clock) && Proper(e, cn, clock)
    ensures KeepsName(s.tree, Happen(s, e, cn, clock).tree, cn, clock)
  {
    hide CanPublish, Revocable, Delete, Next, Stamp, Apart, KeepsName;
    match e {
    case Attempt(now, x) => AttemptTree(s, cn, now, clock, x);
    case Elsewhere(step) => NextKeeps(s.tree, step, cn, clock);
    }
  }

  lemma {:induction false} RunKeepsName(s: Site, events: seq<Event>, cn: string, clock: Clock)
    requires Retryable(s, cn, clock) && forall e :: e in events ==> Proper(e, cn, clock)
    ensures KeepsName(s.tree, Run(s, events, cn, clock).tree, cn, clock)
    decreases |events|
  {
    hide Retryable, Happen, Proper, KeepsName;
    if events == [] {
      assert KeepsName(s.tree, s.tree, cn, clock) by { KeepsSelf(s.tree, cn, clock); }
    } else {
      var next := Happen(s, events[0], cn, clock);
      HappenKeepsName(s, events[0], cn, clock);
      HappenStaysRetryable(s, events[0], cn, clock);
      RunKeepsName(next, events[1..], cn, clock);
      KeepsNameTransitive(s.tree, next.tree, Run(next, events[1..], cn, clock).tree, cn, clock);
    }
  }

  lemma KeepsSelf(t: Tree, cn: string, clock: Clock)
    ensures KeepsName(t, t, cn, clock)
  {
  }

  lemma IndexedStays(t: Tree, t': Tree, cn: string, serial: nat, clock: Clock)
    requires Indexed(t, cn, serial, clock) && KeepsName(t, t', cn, clock) && Covered(t', cn, clock)
    ensures serial in Listed(PublishedEntries(t'.crl))
  {
    hide IndexRows, HitSerials;
  }

  lemma AllEventsKeepName(s: Site, events: seq<Event>, cn: string, now: string, clock: Clock)
    requires Retryable(s, cn, clock) && (forall e :: e in events ==> Proper(e, cn, clock)) && Stamp(now, clock)
    ensures KeepsName(s.tree, Delete(Run(s, events, cn, clock), cn, now, clock, NO_FAULTS).site.tree, cn, clock)
  {
    hide CanRevoke, CanDisable, Guarded, Swept, Delete, KeepsName, Stamp, Retryable;
    var last := Run(s, events, cn, clock);
    RunKeepsName(s, events, cn, clock);
    RunStaysRetryable(s, events, cn, clock);
    assert Happen(last, Attempt(now, NO_FAULTS), cn, clock) == Delete(last, cn, now, clock, NO_FAULTS).site;
    HappenKeepsName(last, Attempt(now, NO_FAULTS), cn, clock);
    KeepsNameTransitive(s.tree, last.tree, Delete(last, cn, now, clock, NO_FAULTS).site.tree, cn, clock);
  }

  /** The deletion was completed, nothing of the user is left, and the certificate is in the published CRL. */
  predicate Buried(d: Deletion, serial: nat) {
    d.ok && d.site.account == GONE && serial in Listed(PublishedEntries(d.site.tree.crl))
  }

  lemma IndexedCertificateEndsRevoked(s: Site, cn: string, serial: nat, events: seq<Event>, now: string, clock: Clock)
    requires Retryable(s, cn, clock) && Indexed(s.tree, cn, serial, clock) && Names.SafeCN(cn).Some? && Stamp(now, clock)
    requires forall e :: e in events ==> Proper(e, cn, clock)
    ensures Buried(Delete(Run(s, events, cn, clock), cn, now, clock, NO_FAULTS), serial)
  {
    hide Indexed, Retryable, Delete, Run, Covered, KeepsName, Proper, Listed, Stamp, Names.SafeCN;
    RetriesComplete(s, events, cn, now, clock);
    AllEventsKeepName(s, events, cn, now, clock);
    IndexedStays(s.tree, Delete(Run(s, events, cn, clock), cn, now, clock, NO_FAULTS).site.tree, cn, serial, clock);
  }

  lemma StoreKeyIsSafe(cn: string)
    requires Names.StoreKey(cn)
    ensures '/' !in cn && Names.SafeCN(cn).Some?
  {
    assert !Names.IsKeyChar('/');
    hide Names.IsKeyChar, Names.IsWord, Names.SafeCN, Text.TrimSpace;
  }

  /** MAIN: the certificate that an issuance gives out ends up in the published CRL once its user is deleted
      by a call that nothing stops, whatever stopped attempts and other work of the authority came between,
      and then nothing of the user is left. */
  lemma IssuedCertificateEndsRevoked(t: Tree, q: Request, policy: Policy.Files, ccd: bool, events: seq<Event>, now: string,
                                     clock: Clock)
    requires Ahead(t, clock) && CanPublish(t) && Stampable(q, clock) && !Stopped(t, q)
    requires Names.StoreKey(q.cn) && Policy.Accepted(policy, DISABLE) && Stamp(now, clock)
    requires forall e :: e in events ==> Proper(e, q.cn, clock)
    ensures var i := Issue(t, q, clock);
      && i.ok && i.serial.Some? && i.tree.ca.Some?
      && var s := Site(i.tree, IssuedAccount(q.cn, i.serial.value, i.tree.ca.value.id, policy, ccd));
      Buried(Delete(Run(s, events, q.cn, clock), q.cn, now, clock, NO_FAULTS), i.serial.value)
  {
    hide *;
    StoreKeyIsSafe(q.cn);
    IssuedIsIndexed(t, q, clock);
    IssueKeepsPublishing(t, q, clock);
    var i := Issue(t, q, clock);
    CanPublishSigner(i.tree);
    IndexedUserIsRetryable(i.tree, q.cn, i.serial.value, policy, ccd, clock);
    var s := Site(i.tree, IssuedAccount(q.cn, i.serial.value, i.tree.ca.value.id, policy, ccd));
    IndexedCertificateEndsRevoked(s, q.cn, i.serial.value, events, now, clock);
  }
}
