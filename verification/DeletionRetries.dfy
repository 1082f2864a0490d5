/** A deletion that was stopped, however often and wherever, is finished by one that nothing stops. */
module DeletionRetries {
  import opened Wrappers
  import opened PkiIndex
  import opened Pki
  import opened PkiRuns
  import opened NameRevocation
  import opened UserDelete
  import opened DeletionRuns
  import Names
  import Policy

  /** The authority can revoke: its signer, published CRL and CRL number are usable. */
  predicate CanPublish(t: Tree) {
    && t.ca.Some? && t.crl != BadCrl && (t.crl.Published? ==> t.crl.crl.issuer == t.ca.value.id)
    && (t.crlNumber == Absent || ReadNumber(t.crlNumber).Some?)
  }

  predicate CanRevoke(t: Tree, m: Material, cn: string, clock: Clock) {
    CanPublish(t) && Revocable(t, m, cn, clock)
  }

  /** The policy can be read and rewritten. */
  predicate CanDisable(a: Account) { Policy.Accepted(a.policy, DISABLE) }

  /** No legacy policy file is left. */
  predicate Converged(p: Policy.Files) { p.limit == Absent && p.disabled == Absent && p.name == Absent }

  /** Only a folder may be left, and what is in it does not matter any more. */
  predicate Swept(s: Site, cn: string, clock: Clock) {
    && s.account.issued == Missing && !s.account.key && !s.account.inline && !s.account.ccd
    && Converged(s.account.policy) && Covered(s.tree, cn, clock)
  }

  predicate Retryable(s: Site, cn: string, clock: Clock) {
    && CanRevoke(s.tree, Certs(s.account), cn, clock) && CanDisable(s.account)
    && (Guarded(s.account) || Swept(s, cn, clock))
  }

  // ----- the authority stays usable ----------------------------------------------------------------

  lemma GenerateKeepsPublishing(t: Tree, clock: Clock, fault: Fault)
    requires CanPublish(t)
    ensures CanPublish(GenerateCrl(t, clock, fault).0) && GenerateCrl(t, clock, fault).0.ca == t.ca
  {
    hide ReadNumber, NumberFile, IndexRows, MergeFrom, NextNumber;
    if NewCrl(t, clock).Some? && NewCrl(t, clock).value.number.Some? {
      NumberReadsBack(NewCrl(t, clock).value.number.value + 1);
    }
  }

  lemma RevokeKeepsPublishing(t: Tree, m: Material, cn: string, now: string, clock: Clock, fault: Fault)
    requires CanPublish(t)
    ensures CanPublish(RevokeByCN(t, m, cn, now, clock, fault).0)
    ensures RevokeByCN(t, m, cn, now, clock, fault).0.ca == t.ca
  {
    hide GenerateCrl, IndexRows, Changes, Marked, Render, HitSerials, Listed, AllVouched, ReadNumber;
    if IndexRows(t, clock).Some? { GenerateKeepsPublishing(MarkName(t, cn, now, clock), clock, fault); }
  }

  lemma RevokeSerialKeepsPublishing(t: Tree, hex: string, now: string, clock: Clock, fault: Fault)
    requires CanPublish(t)
    ensures CanPublish(RevokeCert(t, hex, now, clock, fault).0) && RevokeCert(t, hex, now, clock, fault).0.ca == t.ca
  {
    hide GenerateCrl, IndexRows, Marked, Render, HexNumber, ReadNumber, Serials;
    if IndexRows(t, clock).Some? && HexNumber(hex).Some? {
      var marked := Marked(IndexRows(t, clock).value, BySerial(HexNumber(hex).value), now);
      GenerateKeepsPublishing(t.(index := Holds(Render(marked))), clock, fault);
    }
  }

  lemma IssueKeepsPublishing(t: Tree, q: Request, clock: Clock)
    requires CanPublish(t)
    ensures CanPublish(Issue(t, q, clock).tree) && Issue(t, q, clock).tree.ca == t.ca
  {
    hide ReadNumber, NumberFile, Appended;
  }

  lemma NextKeepsPublishing(t: Tree, s: Step, cn: string, clock: Clock)
    requires CanPublish(t) && Apart(s, cn, clock)
    ensures CanPublish(Next(t, s, clock)) && Next(t, s, clock).ca == t.ca
  {
    hide CanPublish, GenerateCrl, RevokeCert, RevokeByCN, Issue, Stamp, Stampable;
    match s {
    case Generate(fault) => GenerateKeepsPublishing(t, clock, fault);
    case RevokeSerial(hex, now, fault) => RevokeSerialKeepsPublishing(t, hex, now, clock, fault);
    case RevokeName(other, m, now, fault) => RevokeKeepsPublishing(t, m, other, now, clock, fault);
    case IssueCert(q) => IssueKeepsPublishing(t, q, clock);
    }
  }

  /** m' is m with some of its files gone. */
  predicate Thinned(m: Material, m': Material) {
    |m'| == |m| && forall i :: 0 <= i < |m| ==> m'[i] == m[i] || m'[i] == Missing
  }

  lemma StillRevocable(t: Tree, m: Material, t': Tree, m': Material, cn: string, clock: Clock)
    requires Revocable(t, m, cn, clock) && KeepsName(t, t', cn, clock) && t'.ca == t.ca && Thinned(m, m')
    ensures Revocable(t', m', cn, clock)
  {
    hide IndexRows, HitSerials;
  }

  // ----- one step ----------------------------------------------------------------------------------

  lemma NoFilesAccepted()
    ensures Policy.Accepted(Policy.NO_FILES, DISABLE)
  {
  }

  /** What a partial removal of the folder leaves of the policy. */
  lemma SweepKeepsPolicy(a: Account, x: Faults)
    requires CanDisable(a) && Converged(a.policy)
    ensures var a' := RemoveFolder(a, x).0; CanDisable(a') && Converged(a'.policy)
  {
    hide Policy.Accepted;
    NoFilesAccepted();
    assert RemoveFolder(a, x).0.policy == a.policy || RemoveFolder(a, x).0.policy == Policy.NO_FILES;
  }

  /** Disabling leaves only the merged file once it succeeds. */
  lemma DisableConverges(a: Account, x: Faults)
    requires CanDisable(a)
    ensures var (a', ok) := Disable(a, x);
      && CanDisable(a')
      && (ok || Converged(a.policy) ==> Converged(a'.policy))
      && (x == NO_FAULTS ==> ok)
      && Policy.ReadUserState(a.policy).Some?
  {
    hide Policy.ReadUserState, Policy.NewBody;
    DisableIsSafe(a, x);
    Policy.AcceptedExactly(a.policy, DISABLE);
  }

  predicate FewerCerts(a: Account, a': Account) {
    && (a'.issued == a.issued || a'.issued == Missing) && (a'.cert == a.cert || a'.cert == Missing)
    && (a'.profile == a.profile || a'.profile == Missing)
  }

  lemma FewerIsThinned(a: Account, a': Account)
    requires FewerCerts(a, a')
    ensures Thinned(Certs(a), Certs(a'))
  {
  }

  /** An attempt can only remove certificate files. */
  lemma AttemptThins(s: Site, cn: string, now: string, clock: Clock, x: Faults)
    ensures Thinned(Certs(s.account), Certs(Delete(s, cn, now, clock, x).site.account))
  {
    hide Delete, Certs, Thinned, FewerCerts;
    FewerAfterDelete(s, cn, now, clock, x);
    FewerIsThinned(s.account, Delete(s, cn, now, clock, x).site.account);
  }

  lemma FewerAfterDelete(s: Site, cn: string, now: string, clock: Clock, x: Faults)
    ensures FewerCerts(s.account, Delete(s, cn, now, clock, x).site.account)
  {
    hide Policy.ReadUserState, Names.SafeCN, Unstatable, HasMaterial, Disabled, Disable, RemoveFolder,
      DeleteDisabled, FewerCerts;
    FewerAfterDisable(s.account, x);
    FewerAfterRemoval(s.account, x);
    FewerAfterPurge(s, cn, now, clock, x);
  }

  lemma FewerAfterDisable(a: Account, x: Faults)
    ensures FewerCerts(a, a) && FewerCerts(a, Disable(a, x).0)
  {
    hide Policy.WriteUserPolicy;
  }

  lemma FewerAfterRemoval(a: Account, x: Faults)
    ensures FewerCerts(a, RemoveFolder(a, x).0)
  {
  }

  lemma FewerAfterPurge(s: Site, cn: string, now: string, clock: Clock, x: Faults)
    ensures FewerCerts(s.account, DeleteDisabled(Site(s.tree, Disable(s.account, x).0), cn, now, clock, x).site.account)
  {
    hide RevokeByCN, Certs, Disable, RemoveFolder;
    var a := Disable(s.account, x).0;
    FewerAfterDisable(s.account, x);
    FewerAfterRemoval(RemoveMaterial(a, x.removals), x);
  }

  lemma AttemptTree(s: Site, cn: string, now: string, clock: Clock, x: Faults)
    requires CanPublish(s.tree) && Stamp(now, clock)
    ensures var t' := Delete(s, cn, now, clock, x).site.tree;
      CanPublish(t') && t'.ca == s.tree.ca && KeepsName(s.tree, t', cn, clock)
  {
    hide Delete, RevokeByCN, Disable, Certs, CanPublish, Stamp, HitSerials, IndexRows;
    var m := Certs(Disable(s.account, x).0);
    TreeAfterDelete(s, cn, now, clock, x);
    RevokeKeepsPublishing(s.tree, m, cn, now, clock, x.revoke);
    RevokeNameKeeps(s.tree, m, cn, now, clock, x.revoke, cn);
  }

  lemma TreeAfterDelete(s: Site, cn: string, now: string, clock: Clock, x: Faults)
    ensures var t' := Delete(s, cn, now, clock, x).site.tree;
      t' == s.tree || t' == RevokeByCN(s.tree, Certs(Disable(s.account, x).0), cn, now, clock, x.revoke).0
  {
    hide RevokeByCN, Policy.ReadUserState, Policy.WriteUserPolicy, Names.SafeCN, Unstatable, Disabled, HasMaterial, Disable,
      RemoveMaterial, RemoveFolder, Certs;
  }

  lemma AttemptAccount(s: Site, cn: string, now: string, clock: Clock, x: Faults)
    requires Stamp(now, clock) && CanDisable(s.account)
    requires Guarded(s.account) || Swept(s, cn, clock)
    ensures var s' := Delete(s, cn, now, clock, x).site;
      CanDisable(s'.account) && (Guarded(s'.account) || Swept(s', cn, clock))
  {
    hide RevokeByCN, Policy.ReadUserState, Policy.WriteUserPolicy, Policy.Accepted, Names.SafeCN, Covered,
      Unstatable, Stamp,
      RemoveFolder, RemoveMaterial;
    DisableIsSafe(s.account, x);
    DisableConverges(s.account, x);
    var a := Disable(s.account, x).0;
    var (t, revoked) := RevokeByCN(s.tree, Certs(a), cn, now, clock, x.revoke);
    if !Guarded(s.account) {
      SweepKeepsPolicy(s.account, x);
      FolderOnly(s.account, x);
    }
    if Disable(s.account, x).1 && revoked {
      RevokedIsCovered(s.tree, Certs(a), cn, now, clock, x.revoke);
      PurgeAccount(Site(s.tree, a), cn, now, clock, x);
    }
    if Covered(s.tree, cn, clock) { AttemptStaysCovered(s, cn, now, clock, x); }
  }

  lemma FolderOnly(a: Account, x: Faults)
    ensures var a' := RemoveFolder(a, x).0; a'.issued == a.issued && a'.key == a.key && a'.inline == a.inline && a'.ccd == a.ccd
  {
  }

  lemma PurgeAccount(s: Site, cn: string, now: string, clock: Clock, x: Faults)
    requires CanDisable(s.account) && Disabled(s.account) && Stamp(now, clock)
    requires Converged(s.account.policy)
    requires RevokeByCN(s.tree, Certs(s.account), cn, now, clock, x.revoke).1
    ensures var s' := DeleteDisabled(s, cn, now, clock, x).site;
      CanDisable(s'.account) && (Guarded(s'.account) || Swept(s', cn, clock))
  {
    hide RevokeByCN, Policy.ReadUserState, Policy.Accepted, Covered, Stamp, RemoveFolder;
    var a := RemoveMaterial(s.account, x.removals);
    RevokedIsCovered(s.tree, Certs(s.account), cn, now, clock, x.revoke);
    SweepKeepsPolicy(a, x);
    FolderOnly(a, x);
  }

  lemma HappenStaysRetryable(s: Site, e: Event, cn: string, clock: Clock)
    requires Retryable(s, cn, clock) && Proper(e, cn, clock)
    ensures Retryable(Happen(s, e, cn, clock), cn, clock)
  {
    hide CanPublish, CanDisable, Revocable, Guarded, Delete, Next, Stamp, Apart, KeepsName, Thinned, Covered, Extends;
    var s' := Happen(s, e, cn, clock);
    match e {
    case Attempt(now, x) =>
      AttemptThins(s, cn, now, clock, x);
      AttemptTree(s, cn, now, clock, x);
      AttemptAccount(s, cn, now, clock, x);
      StillRevocable(s.tree, Certs(s.account), s'.tree, Certs(s'.account), cn, clock);
    case Elsewhere(step) =>
      NextKeeps(s.tree, step, cn, clock);
      NextExtends(s.tree, step, clock);
      NextKeepsPublishing(s.tree, step, cn, clock);
      assert Thinned(Certs(s.account), Certs(s.account)) by { ThinnedSelf(Certs(s.account)); }
      StillRevocable(s.tree, Certs(s.account), s'.tree, Certs(s.account), cn, clock);
      if Covered(s.tree, cn, clock) { StaysCovered(s.tree, s'.tree, cn, clock); }
    }
  }

  lemma ThinnedSelf(m: Material)
    ensures Thinned(m, m)
  {
  }

  lemma {:induction false} RunStaysRetryable(s: Site, events: seq<Event>, cn: string, clock: Clock)
    requires Retryable(s, cn, clock) && forall e :: e in events ==> Proper(e, cn, clock)
    ensures Retryable(Run(s, events, cn, clock), cn, clock)
    decreases |events|
  {
    hide Retryable, Happen, Proper;
    if events != [] {
      HappenStaysRetryable(s, events[0], cn, clock);
      RunStaysRetryable(Happen(s, events[0], cn, clock), events[1..], cn, clock);
    }
  }

  lemma UnstoppedAttemptFinishes(s: Site, cn: string, now: string, clock: Clock)
    requires Retryable(s, cn, clock) && Stamp(now, clock) && Names.SafeCN(cn).Some?
    ensures var d := Delete(s, cn, now, clock, NO_FAULTS);
      d.ok && d.site.account == GONE && Covered(d.site.tree, cn, clock)
  {
    hide RevokeByCN, Policy.ReadUserState, Policy.WriteUserPolicy, Policy.Accepted, Names.SafeCN, Covered, Stamp, IndexRows,
      HitSerials, ReadNumber;
    var a := Disable(s.account, NO_FAULTS).0;
    DisableIsSafe(s.account, NO_FAULTS);
    DisableConverges(s.account, NO_FAULTS);
    RevocationNeeds(s.tree, Certs(a), cn, now, clock);
    RevokedIsCovered(s.tree, Certs(a), cn, now, clock, NoFault);
    VouchedIsRegular(s.tree, s.account, cn, clock);
  }

  lemma VouchedIsRegular(t: Tree, a: Account, cn: string, clock: Clock)
    requires Revocable(t, Certs(a), cn, clock)
    ensures NotRegular !in Certs(a)
  {
    hide HitSerials, IndexRows;
  }

  /** MAIN: whatever run of stopped deletions and other work came before, a deletion that nothing stops
      removes all that is left of the user, and every certificate of the name is in the published CRL. */
  lemma RetriesComplete(s: Site, events: seq<Event>, cn: string, now: string, clock: Clock)
    requires Retryable(s, cn, clock) && forall e :: e in events ==> Proper(e, cn, clock)
    requires Stamp(now, clock) && Names.SafeCN(cn).Some?
    ensures var d := Delete(Run(s, events, cn, clock), cn, now, clock, NO_FAULTS);
      d.ok && d.site.account == GONE && Covered(d.site.tree, cn, clock)
  {
    hide Retryable, Delete, Run, Covered, Stamp;
    RunStaysRetryable(s, events, cn, clock);
    UnstoppedAttemptFinishes(Run(s, events, cn, clock), cn, now, clock);
  }
}
