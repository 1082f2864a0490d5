/** Deletions over whole runs: attempts stopped anywhere, retried, amid other work of the authority. */
module DeletionRuns {
  import opened Wrappers
  import opened PkiIndex
  import opened Pki
  import opened PkiRuns
  import opened NameRevocation
  import opened UserDelete
  import Names
  import Policy

  /** The published CRL lists every certificate that the index has for the name. */
  predicate Covered(t: Tree, cn: string, clock: Clock) {
    IndexRows(t, clock).Some? && HitSerials(IndexRows(t, clock).value, ByCN(cn)) <= Listed(PublishedEntries(t.crl))
  }

  predicate Guarded(a: Account) { HasMaterial(a) || Disabled(a) }

  /** Nothing that a deletion removes is gone yet. */
  predicate Whole(a0: Account, a: Account) {
    && a.issued == a0.issued && a.cert == a0.cert && a.profile == a0.profile
    && a.key == a0.key && a.inline == a0.inline && a.ccd == a0.ccd && (a0.dir ==> a.dir)
  }

  datatype Event =
    | Attempt(now: string, x: Faults)
    | Elsewhere(s: Step)

  /** Other work of the authority: anything but a new certificate for the same name. */
  predicate Apart(s: Step, cn: string, clock: Clock) {
    match s
    case Generate(_) => true
    case RevokeSerial(_, now, _) => Stamp(now, clock)
    case RevokeName(_, _, now, _) => Stamp(now, clock)
    case IssueCert(q) => Stampable(q, clock) && '/' !in q.cn && q.cn != cn
    case Outside(_) => false
  }

  predicate Proper(e: Event, cn: string, clock: Clock) {
    match e
    case Attempt(now, _) => Stamp(now, clock)
    case Elsewhere(s) => Apart(s, cn, clock)
  }

  function Happen(s: Site, e: Event, cn: string, clock: Clock): Site {
    match e
    case Attempt(now, x) => Delete(s, cn, now, clock, x).site
    case Elsewhere(step) => Site(Next(s.tree, step, clock), s.account)
  }

  function Run(s: Site, events: seq<Event>, cn: string, clock: Clock): Site
    decreases |events|
  {
    if events == [] then s else Run(Happen(s, events[0], cn, clock), events[1..], cn, clock)
  }

  // ----- what the authority's steps do to a name's rows --------------------------------------------

  /** The index stays readable and a name keeps its serials. */
  predicate KeepsName(t: Tree, t': Tree, cn: string, clock: Clock) {
    IndexRows(t, clock).Some? ==>
      && IndexRows(t', clock).Some?
      && HitSerials(IndexRows(t', clock).value, ByCN(cn)) == HitSerials(IndexRows(t, clock).value, ByCN(cn))
  }

  lemma MarkKeepsHits(rows: seq<Row>, target: Target, now: string, cn: string)
    ensures HitSerials(Marked(rows, target, now), ByCN(cn)) == HitSerials(rows, ByCN(cn))
  {
    hide HasCN, Serial, MarkRow;
    var marked := Marked(rows, target, now);
    forall i | 0 <= i < |rows|
      ensures Serial(marked[i]) == Serial(rows[i]) && (HasCN(marked[i], cn) <==> HasCN(rows[i], cn))
    {
      SameSerial(rows[i], target, now);
    }
    forall n | n in HitSerials(rows, ByCN(cn)) ensures n in HitSerials(marked, ByCN(cn)) {
      var i :| 0 <= i < |rows| && HasCN(rows[i], cn) && Serial(rows[i]) == n;
      assert marked[i] in marked;
    }
  }

  lemma RevokeNameKeeps(t: Tree, m: Material, other: string, now: string, clock: Clock, fault: Fault, cn: string)
    requires Stamp(now, clock)
    ensures KeepsName(t, RevokeByCN(t, m, other, now, clock, fault).0, cn, clock)
  {
    hide IndexRows, HitSerials, GenerateCrl, MarkName, Marked, Changes, Listed, AllVouched, Stamp, Extends;
    if IndexRows(t, clock).Some? {
      var t1 := MarkName(t, other, now, clock);
      MarkNameRows(t, other, now, clock);
      MarkKeepsHits(IndexRows(t, clock).value, ByCN(other), now, cn);
      GenerateExtends(t1, clock, fault);
      SameIndex(t1, GenerateCrl(t1, clock, fault).0, clock);
    }
  }

  lemma RevokeSerialKeeps(t: Tree, hex: string, now: string, clock: Clock, fault: Fault, cn: string)
    requires Stamp(now, clock)
    ensures KeepsName(t, RevokeCert(t, hex, now, clock, fault).0, cn, clock)
  {
    hide HitSerials, GenerateCrl, Marked, Stamp, Extends, ParseIndex, Render, Serials, HexNumber, ValidRows;
    if IndexRows(t, clock).Some? && HexNumber(hex).Some? {
      var rows, target := IndexRows(t, clock).value, BySerial(HexNumber(hex).value);
      var t1 := t.(index := Holds(Render(Marked(rows, target, now))));
      ParsedIsValid(t.index.text, clock);
      MarkedValid(rows, target, now, clock);
      RenderThenParse(Marked(rows, target, now), clock);
      MarkKeepsHits(rows, target, now, cn);
      GenerateExtends(t1, clock, fault);
      SameIndex(t1, GenerateCrl(t1, clock, fault).0, clock);
    }
  }

  lemma IssueKeeps(t: Tree, q: Request, clock: Clock, cn: string)
    requires Stampable(q, clock) && '/' !in q.cn && q.cn != cn
    ensures KeepsName(t, Issue(t, q, clock).tree, cn, clock)
  {
    hide ReadNumber, NumberFile, ParseIndex, Appended, HitSerials, IssuedRow;
    if IndexRows(t, clock).Some? && ReadNumber(t.serial).Some? {
      var rows, n := IndexRows(t, clock).value, ReadNumber(t.serial).value;
      AppendAddsOneRow(t.index.text, q.cn, n, q.expiry, clock);
      IssuedRowBelongs(q.cn, n, q.expiry);
      SnocKeepsHits(rows, IssuedRow(q.cn, n, q.expiry), cn);
    }
  }

  lemma SnocKeepsHits(rows: seq<Row>, r: Row, cn: string)
    requires !HasCN(r, cn)
    ensures HitSerials(rows + [r], ByCN(cn)) == HitSerials(rows, ByCN(cn))
  {
    assert forall x :: x in rows + [r] <==> x in rows || x == r;
  }

  lemma GenerateKeeps(t: Tree, clock: Clock, fault: Fault, cn: string)
    ensures KeepsName(t, GenerateCrl(t, clock, fault).0, cn, clock)
  {
    hide GenerateCrl, HitSerials, Extends, NewCrl;
    GenerateExtends(t, clock, fault);
    SameIndex(t, GenerateCrl(t, clock, fault).0, clock);
  }

  lemma NextKeeps(t: Tree, s: Step, cn: string, clock: Clock)
    requires Apart(s, cn, clock)
    ensures KeepsName(t, Next(t, s, clock), cn, clock)
  {
    hide KeepsName, GenerateCrl, RevokeCert, RevokeByCN, Issue, Stamp, Stampable;
    match s {
    case Generate(fault) => GenerateKeeps(t, clock, fault, cn);
    case RevokeSerial(hex, now, fault) => RevokeSerialKeeps(t, hex, now, clock, fault, cn);
    case RevokeName(other, m, now, fault) => RevokeNameKeeps(t, m, other, now, clock, fault, cn);
    case IssueCert(q) => IssueKeeps(t, q, clock, cn);
    }
  }

  lemma StaysCovered(t: Tree, t': Tree, cn: string, clock: Clock)
    requires KeepsName(t, t', cn, clock) && Extends(t.crl, t'.crl) && Covered(t, cn, clock)
    ensures Covered(t', cn, clock)
  {
    hide IndexRows, HitSerials;
    ListedGrows(t.crl, t'.crl);
  }

  lemma ListedGrows(a: CrlFile, b: CrlFile)
    requires Extends(a, b)
    ensures Listed(PublishedEntries(a)) <= Listed(PublishedEntries(b))
  {
  }

  // ----- one attempt ----------------------------------------------------------------------------

  /** Disabling, stopped anywhere, keeps the policy readable and a disabled user disabled. */
  lemma DisableIsSafe(a: Account, x: Faults)
    ensures var (a', ok) := Disable(a, x);
      && Whole(a, a')
      && (Disabled(a) ==> Disabled(a'))
      && (ok ==> Disabled(a'))
      && (x.mkdir && x.commits > 0 && Policy.Accepted(a.policy, DISABLE) ==> Disabled(a'))
      && (Policy.Accepted(a.policy, DISABLE) ==> Policy.Accepted(a'.policy, DISABLE))
  {
    hide Policy.ReadUserState, Policy.NewBody, Policy.Merged;
    if x.mkdir && x.commits > 0 && Policy.Accepted(a.policy, DISABLE) { DisabledPolicy(a.policy, x.commits); }
  }

  lemma DisabledPolicy(p: Policy.Files, commits: nat)
    requires Policy.Accepted(p, DISABLE) && commits > 0
    ensures var p' := Policy.WriteUserPolicy(p, DISABLE, commits).0;
      && Policy.ReadUserState(p').Some? && Policy.ReadUserState(p').value.disabled
      && Policy.Accepted(p', DISABLE)
      && (commits >= 4 ==> p'.limit == Absent && p'.disabled == Absent && p'.name == Absent)
  {
    hide Policy.ReadUserState, Policy.NewBody, Policy.NameFrom;
    Policy.UpdateIsExactAndAtomic(p, DISABLE, commits);
    DisableStaysAccepted(p, commits);
  }

  lemma DisableStaysAccepted(p: Policy.Files, commits: nat)
    requires Policy.Accepted(p, DISABLE) && commits > 0
    ensures Policy.Accepted(Policy.WriteUserPolicy(p, DISABLE, commits).0, DISABLE)
  {
    hide Policy.ReadUserState, Policy.NewLines;
    var p' := Policy.WriteUserPolicy(p, DISABLE, commits).0;
    var st := Policy.ReadUserState(p).value;
    var current := Policy.CurrentName(st, p.name).value;
    Policy.ReadInRange(p);
    Policy.ReadUpdated(p', st, current, DISABLE);
  }

  /** MAIN: an attempt on a guarded user either leaves all its material in place and the user guarded,
      or has the published CRL list every certificate of the name. */
  lemma AttemptIsOrdered(s: Site, cn: string, now: string, clock: Clock, x: Faults)
    requires Stamp(now, clock) && Guarded(s.account)
    ensures var s' := Delete(s, cn, now, clock, x).site;
      Covered(s'.tree, cn, clock) || (Whole(s.account, s'.account) && Guarded(s'.account))
  {
    hide RevokeByCN, Policy.ReadUserState, Policy.WriteUserPolicy, Names.SafeCN, Covered, Unstatable, RemoveFolder,
      RemoveMaterial;
    DisableIsSafe(s.account, x);
    var a := Disable(s.account, x).0;
    if RevokeByCN(s.tree, Certs(a), cn, now, clock, x.revoke).1 {
      RevokedIsCovered(s.tree, Certs(a), cn, now, clock, x.revoke);
    }
  }

  lemma RevokedIsCovered(t: Tree, m: Material, cn: string, now: string, clock: Clock, fault: Fault)
    requires Stamp(now, clock) && RevokeByCN(t, m, cn, now, clock, fault).1
    ensures Covered(RevokeByCN(t, m, cn, now, clock, fault).0, cn, clock)
  {
    hide RevokeByCN, IndexRows, HitSerials, Listed, RevokedRows, Stamp;
    RevocationIsComplete(t, m, cn, now, clock, fault);
  }

  lemma AttemptStaysCovered(s: Site, cn: string, now: string, clock: Clock, x: Faults)
    requires Stamp(now, clock) && Covered(s.tree, cn, clock)
    ensures Covered(Delete(s, cn, now, clock, x).site.tree, cn, clock)
  {
    hide RevokeByCN, Disabled, HasMaterial, Unstatable, Policy.ReadUserState, Names.SafeCN, Covered, Extends,
      KeepsName, Stamp, Disable,
      RemoveFolder, RemoveMaterial;
    var m := Certs(Disable(s.account, x).0);
    RevokeNameKeeps(s.tree, m, cn, now, clock, x.revoke, cn);
    RevokeNameExtends(s.tree, m, cn, now, clock, x.revoke);
    StaysCovered(s.tree, RevokeByCN(s.tree, m, cn, now, clock, x.revoke).0, cn, clock);
  }

  // ----- whole runs --------------------------------------------------------------------------------

  /** No attempt can remove anything that a0 had, although the user is not guarded. */
  predicate Harmless(a0: Account, a: Account, cn: string) {
    !a0.dir || Names.SafeCN(cn).None? || Policy.ReadUserState(a.policy).None?
  }

  /** What a run of deletions keeps. */
  predicate Ordered(a0: Account, s: Site, cn: string, clock: Clock) {
    Covered(s.tree, cn, clock) || (Whole(a0, s.account) && (Guarded(s.account) || Harmless(a0, s.account, cn)))
  }

  /** An unreadable policy is never rewritten. */
  lemma UnreadableStays(a: Account, x: Faults)
    requires Policy.ReadUserState(a.policy).None?
    ensures Disable(a, x).0.policy == a.policy
  {
    hide Policy.ReadUserState;
    Policy.AcceptedExactly(a.policy, DISABLE);
  }

  lemma UnguardedAttempt(a0: Account, s: Site, cn: string, now: string, clock: Clock, x: Faults)
    requires Whole(a0, s.account) && !Guarded(s.account) && Harmless(a0, s.account, cn)
    ensures var s' := Delete(s, cn, now, clock, x).site;
      s'.tree == s.tree && Whole(a0, s'.account) && Harmless(a0, s'.account, cn)
  {
    hide Policy.ReadUserState, Names.SafeCN, DeleteDisabled, Disable, Whole;
    DisableIsSafe(s.account, x);
    StaysWhole(a0, s.account, Disable(s.account, x).0);
    if a0.dir {
      if Policy.ReadUserState(s.account.policy).None? { UnreadableStays(s.account, x); }
    } else {
      EmptyFolderGoes(a0, s.account, x);
    }
  }

  lemma StaysWhole(a0: Account, a: Account, b: Account)
    requires Whole(a0, a) && Whole(a, b)
    ensures Whole(a0, b)
  {
  }

  /** Removing a folder that was not there at first and holds no certificate loses nothing. */
  lemma EmptyFolderGoes(a0: Account, a: Account, x: Faults)
    requires Whole(a0, a) && !HasMaterial(a) && !a0.dir
    ensures Whole(a0, RemoveFolder(a, x).0)
  {
  }

  lemma HappenKeepsOrder(a0: Account, s: Site, e: Event, cn: string, clock: Clock)
    requires Ordered(a0, s, cn, clock) && Proper(e, cn, clock)
    ensures Ordered(a0, Happen(s, e, cn, clock), cn, clock)
  {
    hide Covered, Guarded, Delete, Next, Stamp, Apart, Harmless;
    match e {
    case Attempt(now, x) =>
      if Covered(s.tree, cn, clock) { AttemptStaysCovered(s, cn, now, clock, x); }
      else if Guarded(s.account) { AttemptIsOrdered(s, cn, now, clock, x); }
      else { UnguardedAttempt(a0, s, cn, now, clock, x); }
    case Elsewhere(step) =>
      NextKeeps(s.tree, step, cn, clock);
      NextExtends(s.tree, step, clock);
      if Covered(s.tree, cn, clock) { StaysCovered(s.tree, Next(s.tree, step, clock), cn, clock); }
    }
  }

  lemma {:induction false} RunKeepsOrder(a0: Account, s: Site, events: seq<Event>, cn: string, clock: Clock)
    requires Ordered(a0, s, cn, clock) && forall e :: e in events ==> Proper(e, cn, clock)
    ensures Ordered(a0, Run(s, events, cn, clock), cn, clock)
    decreases |events|
  {
    hide Ordered, Happen, Proper;
    if events != [] {
      HappenKeepsOrder(a0, s, events[0], cn, clock);
      RunKeepsOrder(a0, Happen(s, events[0], cn, clock), events[1..], cn, clock);
    }
  }

  /** MAIN: from a user with material or a disabled one, over any run of deletions stopped anywhere and
      retried amid other work of the authority, no certificate file, key, client-config file or folder of
      the user is gone unless the published CRL lists every certificate that the index has for the name. */
  lemma DeletionIsOrdered(s: Site, events: seq<Event>, cn: string, clock: Clock)
    requires Guarded(s.account) && forall e :: e in events ==> Proper(e, cn, clock)
    ensures var s' := Run(s, events, cn, clock);
      !Whole(s.account, s'.account) ==> Covered(s'.tree, cn, clock)
  {
    hide Guarded, Covered, Run;
    RunKeepsOrder(s.account, s, events, cn, clock);
  }

  /** Nothing that the user has is gone afterwards unless the published CRL lists the name's certificates. */
  predicate OrderKept(s: Site, s': Site, cn: string, clock: Clock) {
    Covered(s'.tree, cn, clock) || Whole(s.account, s'.account)
  }

  predicate AllProper(events: seq<Event>, cn: string, clock: Clock) {
    forall e :: e in events ==> Proper(e, cn, clock)
  }

  /** No attempt on the user can break the order. */
  predicate Safe(s: Site, cn: string, clock: Clock) {
    || Guarded(s.account) || Covered(s.tree, cn, clock)
    || !s.account.dir || Names.SafeCN(cn).None? || Policy.ReadUserState(s.account.policy).None?
  }

  lemma SafeRun(s: Site, events: seq<Event>, cn: string, clock: Clock)
    requires Safe(s, cn, clock) && AllProper(events, cn, clock)
    ensures OrderKept(s, Run(s, events, cn, clock), cn, clock)
  {
    hide Guarded, Covered, Run, Proper, Names.SafeCN, Policy.ReadUserState;
    RunKeepsOrder(s.account, s, events, cn, clock);
  }

  /** The failing input: one attempt that nothing stops. */
  lemma UnsafeAttempt(s: Site, cn: string, now: string, clock: Clock)
    requires !Safe(s, cn, clock)
    ensures !OrderKept(s, Delete(s, cn, now, clock, NO_FAULTS).site, cn, clock)
  {
    hide Covered, Names.SafeCN, Policy.ReadUserState, DeleteDisabled, Disable;
  }

  lemma OneAttempt(s: Site, cn: string, now: string, clock: Clock, x: Faults)
    requires Stamp(now, clock)
    ensures AllProper([Attempt(now, x)], cn, clock)
    ensures Run(s, [Attempt(now, x)], cn, clock) == Delete(s, cn, now, clock, x).site
  {
    hide Delete, Stamp;
    var after := Delete(s, cn, now, clock, x).site;
    assert Run(after, [], cn, clock) == after;
  }

  /** MAIN: the order holds for every attempt, and over every run, exactly for a user who has material or is
      disabled, whose certificates are all listed already, who has no folder or no readable policy, or whose
      name is invalid. Any other user's folder is removed without any revocation. */
  lemma OrderHoldsExactly(s: Site, cn: string, now: string, clock: Clock)
    requires Stamp(now, clock)
    ensures (forall x :: OrderKept(s, Delete(s, cn, now, clock, x).site, cn, clock)) <==>
      || Guarded(s.account) || Covered(s.tree, cn, clock)
      || !s.account.dir || Names.SafeCN(cn).None? || Policy.ReadUserState(s.account.policy).None?
    ensures (forall events :: AllProper(events, cn, clock) ==> OrderKept(s, Run(s, events, cn, clock), cn, clock)) <==>
      || Guarded(s.account) || Covered(s.tree, cn, clock)
      || !s.account.dir || Names.SafeCN(cn).None? || Policy.ReadUserState(s.account.policy).None?
  {
    assert Safe(s, cn, clock) <==>
      || Guarded(s.account) || Covered(s.tree, cn, clock)
      || !s.account.dir || Names.SafeCN(cn).None? || Policy.ReadUserState(s.account.policy).None?;
    hide *;
    OneAttempt(s, cn, now, clock, NO_FAULTS);
    if Safe(s, cn, clock) {
      forall x ensures OrderKept(s, Delete(s, cn, now, clock, x).site, cn, clock) {
        OneAttempt(s, cn, now, clock, x);
        SafeRun(s, [Attempt(now, x)], cn, clock);
      }
      forall events | AllProper(events, cn, clock) ensures OrderKept(s, Run(s, events, cn, clock), cn, clock) {
        SafeRun(s, events, cn, clock);
      }
    } else {
      UnsafeAttempt(s, cn, now, clock);
      assert AllProper([Attempt(now, NO_FAULTS)], cn, clock);
    }
  }

  // ----- what becomes of the certificate files -----------------------------------------------------------

  /** The three places of a user's certificate. */
  datatype Place = IssuedCert | UserCert | Profile

  function FileAt(a: Account, p: Place): CertFile {
    match p case IssuedCert => a.issued case UserCert => a.cert case Profile => a.profile
  }

  /** A file of a0 is still there, or it was a certificate of the name that the published CRL has an entry for. */
  predicate Accounted(a0: Account, s: Site, cn: string, p: Place) {
    var f := FileAt(a0, p);
    FileAt(s.account, p) == f ||
    (FileAt(s.account, p) == Missing && f.Cert? && f.cn == cn && HasEntry(PublishedEntries(s.tree.crl), f.serial))
  }

  lemma CertsAre(a: Account, p: Place)
    ensures var i := match p { case IssuedCert => 0 case UserCert => 1 case Profile => 2 }; Certs(a)[i] == FileAt(a, p)
  {
  }

  lemma DisableKeepsFiles(a: Account, x: Faults, p: Place)
    ensures FileAt(Disable(a, x).0, p) == FileAt(a, p)
  {
    hide Policy.WriteUserPolicy;
  }

  lemma EntryStays(a: CrlFile, b: CrlFile, serial: nat)
    requires Extends(a, b) && HasEntry(PublishedEntries(a), serial)
    ensures HasEntry(PublishedEntries(b), serial)
  {
    hide Extends;
    EntryIsListed(PublishedEntries(a), serial);
    EntryIsListed(PublishedEntries(b), serial);
    ListedGrows(a, b);
  }

  lemma AccountedLater(a0: Account, s: Site, t: Tree, cn: string, p: Place)
    requires Accounted(a0, s, cn, p) && Extends(s.tree.crl, t.crl)
    ensures Accounted(a0, Site(t, s.account), cn, p)
  {
    hide Extends, HasEntry;
    var f := FileAt(a0, p);
    if FileAt(s.account, p) != f { EntryStays(s.tree.crl, t.crl, f.serial); }
  }

  /** Once the name is revoked, any of its files may go. */
  lemma RevokedMayGo(a0: Account, s: Site, cn: string, now: string, clock: Clock, fault: Fault, a: Account, p: Place)
    requires Stamp(now, clock) && Accounted(a0, s, cn, p)
    requires RevokeByCN(s.tree, Certs(s.account), cn, now, clock, fault).1
    requires FileAt(a, p) == FileAt(s.account, p) || FileAt(a, p) == Missing
    ensures Accounted(a0, Site(RevokeByCN(s.tree, Certs(s.account), cn, now, clock, fault).0, a), cn, p)
  {
    hide RevokeByCN, Extends, Stamp, HasEntry;
    var t' := RevokeByCN(s.tree, Certs(s.account), cn, now, clock, fault).0;
    RevokedFilesAreListed(s.tree, Certs(s.account), cn, now, clock, fault);
    RevokeNameExtends(s.tree, Certs(s.account), cn, now, clock, fault);
    AccountedLater(a0, s, t', cn, p);
    CertsAre(s.account, p);
  }

  lemma DeleteDisabledAccounts(a0: Account, s: Site, cn: string, now: string, clock: Clock, x: Faults, p: Place)
    requires Stamp(now, clock) && Accounted(a0, s, cn, p)
    ensures Accounted(a0, DeleteDisabled(s, cn, now, clock, x).site, cn, p)
  {
    hide RevokeByCN, Extends, Accounted, Stamp;
    var (t, revoked) := RevokeByCN(s.tree, Certs(s.account), cn, now, clock, x.revoke);
    RevokeNameExtends(s.tree, Certs(s.account), cn, now, clock, x.revoke);
    AccountedLater(a0, s, t, cn, p);
    if revoked { RevokedMayGo(a0, s, cn, now, clock, x.revoke, DeleteDisabled(s, cn, now, clock, x).site.account, p); }
  }

  lemma AttemptAccounts(a0: Account, s: Site, cn: string, now: string, clock: Clock, x: Faults, p: Place)
    requires Stamp(now, clock) && Accounted(a0, s, cn, p)
    ensures Accounted(a0, Delete(s, cn, now, clock, x).site, cn, p)
  {
    hide DeleteDisabled, Disable, HasEntry, Policy.ReadUserState, Names.SafeCN, Stamp;
    DisableKeepsFiles(s.account, x, p);
    DeleteDisabledAccounts(a0, Site(s.tree, Disable(s.account, x).0), cn, now, clock, x, p);
  }

  lemma HappenAccounts(a0: Account, s: Site, e: Event, cn: string, clock: Clock, p: Place)
    requires Accounted(a0, s, cn, p) && Proper(e, cn, clock)
    ensures Accounted(a0, Happen(s, e, cn, clock), cn, p)
  {
    hide Accounted, Delete, Next, Stamp, Apart, Extends;
    match e {
    case Attempt(now, x) => AttemptAccounts(a0, s, cn, now, clock, x, p);
    case Elsewhere(step) =>
      NextExtends(s.tree, step, clock);
      AccountedLater(a0, s, Next(s.tree, step, clock), cn, p);
    }
  }

  lemma {:induction false} RunAccounts(a0: Account, s: Site, events: seq<Event>, cn: string, clock: Clock, p: Place)
    requires Accounted(a0, s, cn, p) && AllProper(events, cn, clock)
    ensures Accounted(a0, Run(s, events, cn, clock), cn, p)
    decreases |events|
  {
    hide Accounted, Happen, Proper;
    if events != [] {
      HappenAccounts(a0, s, events[0], cn, clock, p);
      RunAccounts(a0, Happen(s, events[0], cn, clock), events[1..], cn, clock, p);
    }
  }

  /** MAIN: over any run of deletions stopped anywhere and retried amid other work of the authority, whoever the user
      is, each of the three certificate files stays as it is, or it was a certificate of the deleted name and the
      published CRL has an entry for its serial. */
  lemma GoneCertificatesAreListed(s: Site, events: seq<Event>, cn: string, clock: Clock, p: Place)
    requires AllProper(events, cn, clock)
    ensures var s', f := Run(s, events, cn, clock), FileAt(s.account, p);
      FileAt(s'.account, p) == f ||
      (FileAt(s'.account, p) == Missing && f.Cert? && f.cn == cn && HasEntry(PublishedEntries(s'.tree.crl), f.serial))
  {
    hide Run, HasEntry, AllProper;
    RunAccounts(s.account, s, events, cn, clock, p);
  }

  /** The answer of a deletion says whether the user was there: its name is valid and one of its certificate files cannot
      be examined or is there, or it is disabled. */
  lemma FoundExactly(s: Site, cn: string, now: string, clock: Clock, x: Faults)
    ensures var a, p := s.account, Policy.ReadUserState(s.account.policy);
      Delete(s, cn, now, clock, x).found <==>
      && Names.SafeCN(cn).Some?
      && (x.stat < 3 || a.issued != Missing || a.cert != Missing || a.profile != Missing || (p.Some? && p.value.disabled))
  {
    hide Policy.ReadUserState, Names.SafeCN, Disable, RevokeByCN, RemoveFolder, RemoveMaterial;
    assert NotRegular in Certs(s.account) <==>
      s.account.issued == NotRegular || s.account.cert == NotRegular || s.account.profile == NotRegular;
  }

  /** MAIN: a deletion that fails after its disable step took hold leaves the user disabled or all the
      name's certificates revoked; one that succeeds leaves nothing of the user behind. */
  lemma DeletionOutcome(s: Site, cn: string, now: string, clock: Clock, x: Faults)
    requires Stamp(now, clock)
    ensures var d := Delete(s, cn, now, clock, x);
      && (d.found && !d.ok && x.mkdir && x.commits > 0 && Policy.Accepted(s.account.policy, DISABLE) ==>
            Disabled(d.site.account) || Covered(d.site.tree, cn, clock))
      && (d.found && d.ok ==> Covered(d.site.tree, cn, clock) && d.site.account == GONE)
  {
    hide RevokeByCN, Policy.ReadUserState, Policy.WriteUserPolicy, Policy.NewBody, Names.SafeCN, Covered,
      HasMaterial, Unstatable;
    DisableIsSafe(s.account, x);
    var m := Certs(Disable(s.account, x).0);
    if RevokeByCN(s.tree, m, cn, now, clock, x.revoke).1 { RevokedIsCovered(s.tree, m, cn, now, clock, x.revoke); }
  }

  const GONE := Account(false, Policy.NO_FILES, Missing, Missing, Missing, false, false, false)
}
