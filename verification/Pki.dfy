/** The local certificate authority: serials, the index and the CRL (internal/pki/ca.go and client.go).
    Every file is replaced atomically, so a crash or an error leaves some of the writes done. */
module Pki {
  import opened Wrappers
  import opened PkiIndex
  import Text

  /** A loadable signer; only an ECDSA one issues certificates. */
  datatype Ca = Ca(id: nat, ecdsa: bool)

  datatype Crl = Crl(number: Option<nat>, entries: seq<Revocation>, issuer: nat)

  datatype CrlFile = NoCrl | BadCrl | Published(crl: Crl)

  datatype Tree = Tree(ca: Option<Ca>, serial: File, index: File, crlNumber: File, crl: CrlFile)

  /** Where a call is stopped, by a crash or by an error. */
  datatype Fault = SerialWrite | IndexWrite | Signing | NumberWrite | CrlWrite | DirSync | ReadBack | NoFault

  function ReadNumber(f: File): Option<nat> {
    if f.Holds? then HexNumber(Text.TrimSpace(f.text)) else None
  }

  function NumberFile(n: nat): File { Holds(Text.Render(n, 16) + "\n") }

  function IndexRows(t: Tree, clock: Clock): Option<seq<Row>> {
    if t.index.Holds? then ParseIndex(t.index.text, clock) else None
  }

  // ----- issuing -------------------------------------------------------------------------------

  datatype Request = Request(cn: string, expiry: string, keyOk: bool, fault: Fault)

  /** The tree after an issuance, the serial it took from the serial file, and whether it succeeded. */
  datatype Issued = Issued(tree: Tree, serial: Option<nat>, ok: bool)

  function Issue(t: Tree, q: Request, clock: Clock): Issued {
    var n := ReadNumber(t.serial);
    if t.ca.None? || !t.ca.value.ecdsa || !q.keyOk || n.None? || q.fault == SerialWrite then Issued(t, None, false)
    else
      var t1 := t.(serial := NumberFile(n.value + 1));
      if q.fault == Signing || !t.index.Holds? then Issued(t1, n, false)
      else
        var text := Appended(t.index.text, q.cn, n.value, q.expiry, clock);
        if text.None? || q.fault == IndexWrite then Issued(t1, n, false)
        else Issued(t1.(index := Holds(text.value)), n, true)
  }

  // ----- revoking ------------------------------------------------------------------------------

  datatype Target = BySerial(serial: nat) | ByCN(cn: string)

  predicate Hits(target: Target, r: Row) {
    match target
    case BySerial(n) => Serial(r) == n
    case ByCN(cn) => HasCN(r, cn)
  }

  function MarkRow(target: Target, r: Row, now: string): Row {
    if Hits(target, r) && r.status != "R" then r.(status := "R", revoked := now) else r
  }

  function Marked(rows: seq<Row>, target: Target, now: string): seq<Row> {
    seq(|rows|, i requires 0 <= i < |rows| => MarkRow(target, rows[i], now))
  }

  function HitSerials(rows: seq<Row>, target: Target): set<nat> {
    set r | r in rows && Hits(target, r) :: Serial(r)
  }

  predicate Changes(rows: seq<Row>, target: Target) {
    exists r :: r in rows && Hits(target, r) && r.status != "R"
  }

  function Listed(entries: seq<Revocation>): set<nat> { set e | e in entries :: e.serial }

  /** The entries already published come first and stay as they are; revoked rows they miss follow. */
  function MergeFrom(revoked: seq<Revocation>, rows: seq<Row>, clock: Clock): Option<seq<Revocation>>
    decreases |rows|
  {
    if rows == [] then Some(revoked)
    else if rows[0].status != "R" then MergeFrom(revoked, rows[1..], clock)
    else match RevocationOf(rows[0], clock)
      case None => None
      case Some(e) => MergeFrom(if e.serial in Listed(revoked) then revoked else revoked + [e], rows[1..], clock)
  }

  const FIRST_CRL_NUMBER := 4096

  /** The number of the next CRL: the counter file's, unless the published CRL is not below it. */
  function NextNumber(t: Tree): Option<nat> {
    var n := if t.crlNumber == Absent then Some(FIRST_CRL_NUMBER) else ReadNumber(t.crlNumber);
    if n.None? then None
    else if t.crl.Published? && t.crl.crl.number.Some? && n.value <= t.crl.crl.number.value then
      Some(t.crl.crl.number.value + 1)
    else n
  }

  function PublishedEntries(f: CrlFile): seq<Revocation> {
    if f.Published? then f.crl.entries else []
  }

  /** The CRL that a regeneration would publish. */
  function NewCrl(t: Tree, clock: Clock): Option<Crl> {
    var rows := IndexRows(t, clock);
    if t.ca.None? || rows.None? || t.crl == BadCrl then None
    else if t.crl.Published? && t.crl.crl.issuer != t.ca.value.id then None
    else
      var entries := MergeFrom(PublishedEntries(t.crl), rows.value, clock);
      var number := NextNumber(t);
      if entries.None? || number.None? then None else Some(Crl(number, entries.value, t.ca.value.id))
  }

  /** The number file is written before the CRL, and the directory is synced last. */
  function GenerateCrl(t: Tree, clock: Clock, fault: Fault): (Tree, bool) {
    match NewCrl(t, clock)
    case None => (t, false)
    case Some(crl) =>
      if fault == Signing || fault == NumberWrite || crl.number.None? then (t, false)
      else
        var t1 := t.(crlNumber := NumberFile(crl.number.value + 1));
        if fault == CrlWrite then (t1, false) else (t1.(crl := Published(crl)), fault != DirSync)
  }

  function RevokeCert(t: Tree, serialHex: string, now: string, clock: Clock, fault: Fault): (Tree, bool) {
    var n, rows := HexNumber(serialHex), IndexRows(t, clock);
    if n.None? || rows.None? || n.value !in Serials(rows.value) || fault == IndexWrite then (t, false)
    else GenerateCrl(t.(index := Holds(Render(Marked(rows.value, BySerial(n.value), now)))), clock, fault)
  }

  /** A file that should hold a client certificate; a profile holds one between its cert tags. */
  datatype CertFile = Missing | NotRegular | NotReadable | Garbage | Cert(cn: string, serial: nat, issuer: nat)

  /** The issued certificate, the user's cert.pem and the cached client.ovpn, in the order they are checked. */
  type Material = seq<CertFile>

  predicate Vouched(f: CertFile, cn: string, ca: nat, serials: set<nat>) {
    f == Missing || (f.Cert? && f.cn == cn && f.issuer == ca && f.serial in serials)
  }

  predicate AllVouched(m: Material, cn: string, ca: nat, serials: set<nat>) {
    forall i :: 0 <= i < |m| ==> Vouched(m[i], cn, ca, serials)
  }

  /** Revocation refuses certificates that the local CA did not issue and names the index does not know. */
  predicate Revocable(t: Tree, m: Material, cn: string, clock: Clock) {
    && t.ca.Some? && IndexRows(t, clock).Some?
    && var serials := HitSerials(IndexRows(t, clock).value, ByCN(cn));
      serials != {} && AllVouched(m, cn, t.ca.value.id, serials)
  }

  /** The index after the rows of a name are marked; it is left alone when they all are already. */
  function MarkName(t: Tree, cn: string, now: string, clock: Clock): Tree
    requires IndexRows(t, clock).Some?
  {
    var rows := IndexRows(t, clock).value;
    if Changes(rows, ByCN(cn)) then t.(index := Holds(Render(Marked(rows, ByCN(cn), now)))) else t
  }

  function RevokeByCN(t: Tree, m: Material, cn: string, now: string, clock: Clock, fault: Fault): (Tree, bool) {
    if !Revocable(t, m, cn, clock) then (t, false)
    else if fault == IndexWrite && Changes(IndexRows(t, clock).value, ByCN(cn)) then (t, false)
    else
      var serials := HitSerials(IndexRows(t, clock).value, ByCN(cn));
      var (t2, ok) := GenerateCrl(MarkName(t, cn, now, clock), clock, fault);
      (t2, ok && fault != ReadBack && serials <= Listed(PublishedEntries(t2.crl)))
  }

  // ----- the authority as it runs -----------------------------------------------------------------

  class Authority {
    var tree: Tree
    const clock: Clock

    constructor (tree: Tree, clock: Clock)
      ensures this.tree == tree && this.clock == clock
    {
      this.tree, this.clock := tree, clock;
    }

    method ReadIndex() returns (rows: Option<seq<Row>>)
      ensures rows == IndexRows(tree, clock)
    {
      if !tree.index.Holds? { return None; }
      rows := Parse(tree.index.text, clock);
    }

    method NextSerial(fault: Fault) returns (serial: Option<nat>)
      modifies this
      ensures serial == if fault == SerialWrite then None else ReadNumber(old(tree).serial)
      ensures tree == if serial.None? then old(tree) else old(tree).(serial := NumberFile(serial.value + 1))
    {
      var n := ReadNumber(tree.serial);
      if n.None? || fault == SerialWrite { return None; }
      tree := tree.(serial := NumberFile(n.value + 1));
      return n;
    }

    method IssueCert(q: Request) returns (serial: Option<nat>, ok: bool)
      modifies this
      ensures Issued(tree, serial, ok) == Issue(old(tree), q, clock)
    {
      if tree.ca.None? || !tree.ca.value.ecdsa || !q.keyOk { return None, false; }
      serial := NextSerial(q.fault);
      if serial.None? || q.fault == Signing || !tree.index.Holds? { return serial, false; }
      var text := Append(tree.index.text, q.cn, serial.value, q.expiry, clock);
      if text.None? || q.fault == IndexWrite { return serial, false; }
      tree := tree.(index := Holds(text.value));
      ok := true;
    }

    /** Flip the target's rows in place. */
    static method Mark(rows: seq<Row>, target: Target, now: string)
      returns (marked: seq<Row>, found: bool, changed: bool)
      ensures marked == Marked(rows, target, now)
      ensures found <==> HitSerials(rows, target) != {}
      ensures changed <==> Changes(rows, target)
    {
      marked, found, changed := rows, false, false;
      for i := 0 to |rows|
        invariant |marked| == |rows|
        invariant forall j :: 0 <= j < i ==> marked[j] == MarkRow(target, rows[j], now)
        invariant forall j :: i <= j < |rows| ==> marked[j] == rows[j]
        invariant found <==> exists j :: 0 <= j < i && Hits(target, rows[j])
        invariant changed <==> exists j :: 0 <= j < i && Hits(target, rows[j]) && rows[j].status != "R"
      {
        if Hits(target, marked[i]) {
          found := true;
          if marked[i].status != "R" {
            marked := marked[i := marked[i].(status := "R", revoked := now)];
            changed := true;
          }
        }
      }
      assert found ==> HitSerials(rows, target) != {} by {
        if found {
          var j :| 0 <= j < |rows| && Hits(target, rows[j]);
          assert Serial(rows[j]) in HitSerials(rows, target);
        }
      }
    }

    /** The revoked list starts as the published one and grows by the revoked rows it misses. */
    method MergeRevoked(rows: seq<Row>) returns (revoked: Option<seq<Revocation>>)
      ensures revoked == MergeFrom(PublishedEntries(tree.crl), rows, clock)
    {
      var list := PublishedEntries(tree.crl);
      var seen := set i | 0 <= i < |list| :: list[i].serial;
      for i := 0 to |rows|
        invariant seen == Listed(list)
        invariant MergeFrom(list, rows[i..], clock) == MergeFrom(PublishedEntries(tree.crl), rows, clock)
      {
        assert rows[i..][0] == rows[i] && rows[i..][1..] == rows[i + 1..];
        if rows[i].status != "R" { continue; }
        var e := RevocationOf(rows[i], clock);
        if e.None? { return None; }
        if e.value.serial !in seen {
          list := list + [e.value];
          seen := seen + {e.value.serial};
        }
      }
      return Some(list);
    }

    method ChooseNumber() returns (number: Option<nat>)
      ensures number == NextNumber(tree)
    {
      number := Some(FIRST_CRL_NUMBER);
      if tree.crlNumber != Absent {
        number := ReadNumber(tree.crlNumber);
        if number.None? { return; }
      }
      if tree.crl.Published? && tree.crl.crl.number.Some? && number.value <= tree.crl.crl.number.value {
        number := Some(tree.crl.crl.number.value + 1);
      }
    }

    method Generate(fault: Fault) returns (ok: bool)
      modifies this
      ensures (tree, ok) == GenerateCrl(old(tree), clock, fault)
    {
      hide IndexRows, MergeFrom, NextNumber, NumberFile, PublishedEntries;
      if tree.ca.None? { return false; }
      var rows := ReadIndex();
      if rows.None? { return false; }
      if tree.crl == BadCrl || (tree.crl.Published? && tree.crl.crl.issuer != tree.ca.value.id) { return false; }
      var revoked := MergeRevoked(rows.value);
      if revoked.None? { return false; }
      var number := ChooseNumber();
      if number.None? { return false; }
      var crl := Crl(number, revoked.value, tree.ca.value.id);
      if fault == Signing || fault == NumberWrite { return false; }
      tree := tree.(crlNumber := NumberFile(number.value + 1));
      if fault == CrlWrite { return false; }
      tree := tree.(crl := Published(crl));
      return fault != DirSync;
    }

    method Revoke(serialHex: string, now: string, fault: Fault) returns (ok: bool)
      modifies this
      ensures (tree, ok) == RevokeCert(old(tree), serialHex, now, clock, fault)
    {
      var n := HexNumber(serialHex);
      if n.None? { return false; }
      var rows := ReadIndex();
      if rows.None? { return false; }
      var marked, found, changed := Mark(rows.value, BySerial(n.value), now);
      SerialHits(rows.value, n.value);
      if !found || fault == IndexWrite { return false; }
      var text := Write(marked);
      tree := tree.(index := Holds(text));
      ok := Generate(fault);
    }

    /** Every certificate file must name an indexed certificate of this authority. */
    static method Vouch(m: Material, cn: string, ca: nat, serials: set<nat>) returns (ok: bool)
      ensures ok == AllVouched(m, cn, ca, serials)
    {
      for i := 0 to |m|
        invariant forall j :: 0 <= j < i ==> Vouched(m[j], cn, ca, serials)
      {
        if m[i] == Missing { continue; }
        if !m[i].Cert? || m[i].cn != cn || m[i].issuer != ca || m[i].serial !in serials {
          assert !Vouched(m[i], cn, ca, serials);
          return false;
        }
      }
      return true;
    }

    /** Strike the listed serials off those that must be covered. */
    static method Covers(entries: seq<Revocation>, serials: set<nat>) returns (ok: bool)
      ensures ok <==> serials <= Listed(entries)
    {
      var left := serials;
      for i := 0 to |entries|
        invariant left == serials - Listed(entries[..i])
      {
        assert entries[..i + 1] == entries[..i] + [entries[i]];
        left := left - {entries[i].serial};
      }
      assert entries[..|entries|] == entries;
      assert left == {} ==> forall n :: n in serials ==> n in left || n in Listed(entries);
      return left == {};
    }

    method RevokeName(m: Material, cn: string, now: string, fault: Fault) returns (ok: bool)
      modifies this
      ensures (tree, ok) == RevokeByCN(old(tree), m, cn, now, clock, fault)
    {
      hide IndexRows, GenerateCrl, HasCN, Serial, Render, Marked, Changes, AllVouched;
      if tree.ca.None? { return false; }
      var rows := ReadIndex();
      if rows.None? { return false; }
      var serials := set r | r in rows.value && HasCN(r, cn) :: Serial(r);
      assert serials == HitSerials(rows.value, ByCN(cn));
      var vouched := Vouch(m, cn, tree.ca.value.id, serials);
      if !vouched || serials == {} { return false; }
      var marked, found, changed := Mark(rows.value, ByCN(cn), now);
      if changed {
        if fault == IndexWrite { return false; }
        var text := Write(marked);
        tree := tree.(index := Holds(text));
      }
      assert tree == MarkName(old(tree), cn, now, clock);
      ok := Generate(fault);
      if !ok || fault == ReadBack { return false; }
      ok := Covers(PublishedEntries(tree.crl), serials);
    }
  }

  lemma SerialHits(rows: seq<Row>, n: nat)
    ensures HitSerials(rows, BySerial(n)) != {} <==> n in Serials(rows)
  {
    if n in Serials(rows) {
      var r :| r in rows && Serial(r) == n;
      assert Serial(r) in HitSerials(rows, BySerial(n));
    }
    if HitSerials(rows, BySerial(n)) != {} {
      var k :| k in HitSerials(rows, BySerial(n));
    }
  }
}
