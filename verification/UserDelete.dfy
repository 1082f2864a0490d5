/** Deleting a user: disable, revoke, then remove, with retries (internal/ovpn/users.go:158-203). */
module UserDelete {
  import opened Wrappers
  import opened PkiIndex
  import opened Pki
  import Names
  import Policy

  /** What the node keeps for one name: its folder with policy, cert.pem and cached profile, and the
      issued certificate, key, inline bundle and client-config file outside the folder. */
  datatype Account = Account(dir: bool, policy: Policy.Files, cert: CertFile, profile: CertFile,
                             issued: CertFile, key: bool, inline: bool, ccd: bool)

  datatype Site = Site(tree: Tree, account: Account)

  /** What a failed removal of the folder leaves in it. */
  datatype Kept = Kept(state: bool, limit: bool, disabled: bool, name: bool, cert: bool, profile: bool)

  /** How far each step gets: the lstat that fails, the folder creation, the commits of the policy
      update, the revocation, the four file removals and the removal of the folder. */
  datatype Faults = Faults(stat: nat, mkdir: bool, commits: nat, revoke: Fault, removals: nat, folder: Option<Kept>)

  const NO_FAULTS := Faults(3, true, 4, NoFault, 4, None)

  const DISABLE := Policy.Update(None, None, Some(true))

  function Certs(a: Account): Material { [a.issued, a.cert, a.profile] }

  predicate HasMaterial(a: Account) { a.issued != Missing || a.cert != Missing || a.profile != Missing }

  predicate Unstatable(a: Account, x: Faults) { x.stat < 3 || NotRegular in Certs(a) }

  predicate Disabled(a: Account) {
    Policy.ReadUserState(a.policy).Some? && Policy.ReadUserState(a.policy).value.disabled
  }

  function Disable(a: Account, x: Faults): (Account, bool) {
    if !x.mkdir then (a, false)
    else
      var (p, ok) := Policy.WriteUserPolicy(a.policy, DISABLE, x.commits);
      (a.(dir := true, policy := p), ok)
  }

  function RemoveMaterial(a: Account, removals: nat): Account {
    a.(issued := if removals >= 1 then Missing else a.issued, key := removals < 2 && a.key,
       inline := removals < 3 && a.inline, ccd := removals < 4 && a.ccd)
  }

  function RemoveFolder(a: Account, x: Faults): (Account, bool) {
    match x.folder
    case None => (a.(dir := false, policy := Policy.NO_FILES, cert := Missing, profile := Missing), true)
    case Some(k) =>
      (a.(policy := Policy.Files(if k.state then a.policy.state else Absent, if k.limit then a.policy.limit else Absent,
                                 if k.disabled then a.policy.disabled else Absent, if k.name then a.policy.name else Absent),
          cert := if k.cert then a.cert else Missing, profile := if k.profile then a.profile else Missing), false)
  }

  datatype Deletion = Deletion(site: Site, found: bool, ok: bool)

  function Delete(s: Site, cn: string, now: string, clock: Clock, x: Faults): Deletion {
    var a := s.account;
    if Names.SafeCN(cn).None? then Deletion(s, false, false)
    else if Unstatable(a, x) then Deletion(s.(account := Disable(a, x).0), true, false)
    else if !HasMaterial(a) && Policy.ReadUserState(a.policy).None? then Deletion(s, false, false)
    else if !HasMaterial(a) && !Disabled(a) then
      Deletion(s.(account := RemoveFolder(a, x).0), false, RemoveFolder(a, x).1)
    else if !Disable(a, x).1 then Deletion(s.(account := Disable(a, x).0), true, false)
    else DeleteDisabled(Site(s.tree, Disable(a, x).0), cn, now, clock, x)
  }

  function DeleteDisabled(s: Site, cn: string, now: string, clock: Clock, x: Faults): Deletion {
    var (t, revoked) := RevokeByCN(s.tree, Certs(s.account), cn, now, clock, x.revoke);
    if !revoked then Deletion(Site(t, s.account), true, false)
    else
      var a := RemoveMaterial(s.account, x.removals);
      if x.removals < 4 then Deletion(Site(t, a), true, false)
      else Deletion(Site(t, RemoveFolder(a, x).0), true, RemoveFolder(a, x).1)
  }

  class UserAdmin {
    const ca: Authority
    const policy: Policy.UserDir
    var dir: bool
    var cert: CertFile
    var profile: CertFile
    var issued: CertFile
    var key: bool
    var inline: bool
    var ccd: bool

    constructor (ca: Authority, policy: Policy.UserDir)
      ensures this.ca == ca && this.policy == policy
    {
      this.ca, this.policy := ca, policy;
      dir, cert, profile, issued, key, inline, ccd := false, Missing, Missing, Missing, false, false, false;
    }

    function Current(): Site
      reads this, ca, policy
    {
      Site(ca.tree, Account(dir, policy.files, cert, profile, issued, key, inline, ccd))
    }

    method SetDisabled(x: Faults) returns (ok: bool)
      modifies this, policy
      ensures Current() == old(Current()).(account := Disable(old(Current()).account, x).0)
      ensures ok == Disable(old(Current()).account, x).1
    {
      if !x.mkdir { return false; }
      dir := true;
      ok := policy.Update(DISABLE, x.commits);
    }

    method RemoveAll(x: Faults) returns (ok: bool)
      modifies this, policy
      ensures Current() == old(Current()).(account := RemoveFolder(old(Current()).account, x).0)
      ensures ok == RemoveFolder(old(Current()).account, x).1
    {
      var p := policy.files;
      match x.folder {
      case Some(k) =>
        if !k.state { p := p.(state := Absent); }
        if !k.limit { p := p.(limit := Absent); }
        if !k.disabled { p := p.(disabled := Absent); }
        if !k.name { p := p.(name := Absent); }
        if !k.cert { cert := Missing; }
        if !k.profile { profile := Missing; }
        policy.files := p;
        return false;
      case None =>
        dir, cert, profile, policy.files := false, Missing, Missing, Policy.NO_FILES;
        return true;
      }
    }

    /** The three certificate files, checked one by one; None when one cannot be examined. */
    method FindMaterial(x: Faults) returns (present: Option<bool>)
      ensures present == if Unstatable(Current().account, x) then None else Some(HasMaterial(Current().account))
    {
      var files := [issued, cert, profile];
      var found := false;
      for i := 0 to |files|
        invariant x.stat >= i && NotRegular !in files[..i]
        invariant found <==> exists j :: 0 <= j < i && files[j] != Missing
      {
        if x.stat == i || files[i] == NotRegular { return None; }
        found := found || files[i] != Missing;
      }
      assert files[..|files|] == files == Certs(Current().account);
      assert files[0] == issued && files[1] == cert && files[2] == profile;
      return Some(found);
    }

    method DeleteUser(cn: string, now: string, x: Faults) returns (found: bool, ok: bool)
      modifies this, ca, policy
      ensures Deletion(Current(), found, ok) == Delete(old(Current()), cn, now, ca.clock, x)
    {
      if Names.SafeCN(cn).None? { return false, false; }
      var present := FindMaterial(x);
      if present.None? {
        var disabled := SetDisabled(x);
        return true, false;
      }
      if !present.value {
        var st := policy.Load();
        if st.None? { return false, false; }
        if !st.value.disabled {
          ok := RemoveAll(x);
          return false, ok;
        }
      }
      ok := SetDisabled(x);
      if !ok { return true, false; }
      found, ok := Purge(cn, now, x);
    }

    method Purge(cn: string, now: string, x: Faults) returns (found: bool, ok: bool)
      modifies this, ca, policy
      ensures Deletion(Current(), found, ok) == DeleteDisabled(old(Current()), cn, now, ca.clock, x)
    {
      found := true;
      ok := ca.RevokeName([issued, cert, profile], cn, now, x.revoke);
      if !ok { return; }
      if x.removals < 1 { return true, false; }
      issued := Missing;
      if x.removals < 2 { return true, false; }
      key := false;
      if x.removals < 3 { return true, false; }
      inline := false;
      if x.removals < 4 { return true, false; }
      ccd := false;
      ok := RemoveAll(x);
    }
  }
}
