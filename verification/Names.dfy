// Names and identifiers of proxied files: the path that the checkpoint stores, the
// inode number that a lookup makes of it and the identifier that the server compares.

module Names {
  import opened Files

  const MNT_POINT: string := "/mnt/proxy"
  const U16: nat := 0x1_0000
  const U32: nat := 0x1_0000_0000

  predicate IsDigit(c: char) {
    '0' <= c <= '9'
  }

  function DigitOf(d: nat): (c: char)
    requires d < 10
    ensures IsDigit(c) && c as nat - '0' as nat == d
  {
    '0' + d as char
  }

  /** The %d and %lu conversions of a non-negative number. */
  function Print(n: nat): (s: string)
    ensures s != [] && IsDigit(s[0])
  {
    if n < 10 then [DigitOf(n)] else Print(n / 10) + [DigitOf(n % 10)]
  }

  /** The digits at the front of s, appended to the number read so far. */
  function ScanDigits(acc: nat, s: string): (r: (nat, string))
    decreases s
  {
    if s != [] && IsDigit(s[0]) then ScanDigits(10 * acc + (s[0] as nat - '0' as nat), s[1..])
    else (acc, s)
  }

  /** The sscanf format "%u-%u": two numbers joined by a dash. */
  function ScanPair(s: string): (r: Option<(nat, nat)>) {
    if s == [] || !IsDigit(s[0]) then None
    else
      var (a, rest) := ScanDigits(0, s);
      if |rest| < 2 || rest[0] != '-' || !IsDigit(rest[1]) then None
      else Some((a, ScanDigits(0, rest[1..]).0))
  }

  lemma {:induction false} ScanPrinted(n: nat, tail: string)
    ensures ScanDigits(0, Print(n) + tail) == ScanDigits(n, tail)
  {
    if n < 10 {
      assert (Print(n) + tail)[1..] == tail;
      assert ScanDigits(0, Print(n) + tail) == ScanDigits(10 * 0 + n, tail);
    } else {
      var last := [DigitOf(n % 10)];
      ScanPrinted(n / 10, last + tail);
      assert Print(n) + tail == Print(n / 10) + (last + tail);
      assert (last + tail)[1..] == tail;
    }
  }

  function Pow10(k: nat): (n: nat)
    ensures n > 0
  {
    if k == 0 then 1 else 10 * Pow10(k - 1)
  }

  /** The number that a string of decimal digits stands for. */
  function Decimal(s: string): (n: int) {
    if s == [] then 0 else (s[0] as int - 48) * Pow10(|s| - 1) + Decimal(s[1..])
  }

  lemma {:induction false} DecimalSnoc(s: string, c: char)
    ensures Decimal(s + [c]) == 10 * Decimal(s) + (c as int - 48)
  {
    if s == [] {
      assert s + [c] == [c] && [c][1..] == [];
      assert Pow10(0) == 1;
    } else {
      DecimalSnoc(s[1..], c);
      assert (s + [c])[1..] == s[1..] + [c];
      assert (s[0] as int - 48) * Pow10(|s|) == 10 * ((s[0] as int - 48) * Pow10(|s| - 1));
    }
  }

  /** A number is printed as the decimal digits that stand for it, without leading zeros. */
  lemma {:induction false} PrintDecimal(n: nat)
    ensures forall i :: 0 <= i < |Print(n)| ==> '0' <= Print(n)[i] <= '9'
    ensures Decimal(Print(n)) == n && (n > 0 ==> Print(n)[0] != '0')
  {
    if n < 10 {
      assert Print(n)[1..] == [] && Pow10(0) == 1;
    } else {
      PrintDecimal(n / 10);
      DecimalSnoc(Print(n / 10), DigitOf(n % 10));
    }
  }

  function FileName(pid: nat, ident: nat): (s: string) {
    Print(pid) + "-" + Print(ident)
  }

  lemma ScanFileName(pid: nat, ident: nat)
    ensures ScanPair(FileName(pid, ident)) == Some((pid, ident))
  {
    var rest := "-" + Print(ident);
    assert FileName(pid, ident) == Print(pid) + rest;
    ScanPrinted(pid, rest);
    assert rest[1..] == Print(ident) + "";
    ScanPrinted(ident, "");
  }

  /** create_proxyfs_name. */
  function ProxyPath(pid: nat, ident: nat): (s: string) {
    MNT_POINT + "/" + FileName(pid, ident)
  }

  /** For example. */
  lemma NameShape()
    ensures ProxyPath(12, 345) == "/mnt/proxy/12-345"
  {
    assert Print(12) == Print(1) + [DigitOf(2)] == "12";
    assert Print(345) == Print(34) + [DigitOf(5)] && Print(34) == Print(3) + [DigitOf(4)];
  }

  predicate IsProxied(path: string) {
    MNT_POINT <= path
  }

  /** proxyfs_fs_rootinode_lookup: 32-bit arithmetic on the two numbers of the name. */
  function Lookup(name: string): (inode: Option<nat>) {
    match ScanPair(name)
    case None => None
    case Some((pid, file)) => Some((pid * U16 + file) % U32)
  }

  /** struct proxyfs_file_identifier: two 16-bit fields. */
  datatype Identifier = Identifier(ident: nat, pid: nat)

  /** The identifier the server gives a file of the task with this pid. */
  function Owned(pid: nat, ident: nat): (id: Identifier) {
    Identifier(ident % U16, pid % U16)
  }

  /** proxyfs_file_get_file_ident. */
  function EncodeIdent(id: Identifier): (n: nat) {
    id.pid * U16 + id.ident
  }

  /** proxyfs_file_set_file_ident. */
  function DecodeIdent(n: nat): (id: Identifier) {
    Identifier(n % U16, (n - n % U16) / U16 % U16)
  }

  /** Reading the two fields back from the number they are encoded in. */
  lemma IdentRoundTrip(id: Identifier)
    requires id.ident < U16 && id.pid < U16
    ensures DecodeIdent(EncodeIdent(id)) == id
    ensures EncodeIdent(id) / 0x1_0000 == id.pid && EncodeIdent(id) % 0x1_0000 == id.ident
  {
    assert (id.pid * U16 + id.ident) % U16 == id.ident;
  }

  lemma Reduce(pid: nat, ident: nat)
    requires ident < U16
    ensures (pid * U16 + ident) % U32 == (pid % U16) * U16 + ident
  {
    var q, r := pid / U16, pid % U16;
    assert pid == q * U16 + r;
    assert pid * U16 + ident == q * U32 + (r * U16 + ident);
  }

  /**
   * Printing the name of a proxied file, looking the name up and decoding the inode
   * number gives the identifier under which the server knows the file, for every
   * pid, even one that does not fit the 16 bits the identifier has for it.
   */
  lemma NameAgrees(pid: nat, ident: nat)
    requires ident < U16
    ensures Lookup(FileName(pid, ident)) == Some(EncodeIdent(Owned(pid, ident)))
    ensures DecodeIdent(EncodeIdent(Owned(pid, ident))) == Owned(pid, ident)
  {
    ScanFileName(pid, ident);
    Reduce(pid, ident);
    IdentRoundTrip(Owned(pid, ident));
  }

  /** The owner can be told from the name's inode if and only if its pid fits 16 bits. */
  lemma OwnerKnown(pid: nat, ident: nat)
    requires ident < U16
    ensures Lookup(FileName(pid, ident)).Some?
    ensures DecodeIdent(Lookup(FileName(pid, ident)).value) == Identifier(ident, pid) <==> pid < U16
  {
    NameAgrees(pid, ident);
  }

  /** Two names stand for one file exactly when their pids agree in the low 16 bits. */
  lemma NamesCollide(pid: nat, ident: nat, pid': nat, ident': nat)
    requires ident < U16 && ident' < U16
    ensures Lookup(FileName(pid, ident)) == Lookup(FileName(pid', ident'))
        <==> ident == ident' && pid % U16 == pid' % U16
  {
    hide Lookup, FileName;
    NameAgrees(pid, ident);
    NameAgrees(pid', ident');
    if EncodeIdent(Owned(pid, ident)) == EncodeIdent(Owned(pid', ident')) {
      assert DecodeIdent(EncodeIdent(Owned(pid, ident))) == DecodeIdent(EncodeIdent(Owned(pid', ident')));
    }
  }

  datatype Altered = NotProxied | Unchanged | Renamed(path: string)

  /** alter_proxyfs_name_task_change: the same file for another owner. */
  function Alter(path: string, newPid: nat): (a: Altered) {
    if !IsProxied(path) then NotProxied
    else if |path| <= |MNT_POINT| then Unchanged
    else
      match ScanPair(path[|MNT_POINT| + 1..])
      case None => Unchanged
      case Some((pid, ident)) => if pid == newPid then Unchanged else Renamed(ProxyPath(newPid, ident))
  }

  /**
   * For every name that create_proxyfs_name makes, altering it gives the name of the
   * duplicate that the server made for the child, or says that it already is that name.
   */
  lemma AlterAgrees(pid: nat, ident: nat, newPid: nat)
    requires ident < U16
    ensures Alter(ProxyPath(pid, ident), newPid) == if pid == newPid then Unchanged else Renamed(ProxyPath(newPid, ident))
    ensures Lookup(FileName(newPid, ident)) == Some(EncodeIdent(Owned(newPid, ident)))
    ensures Owned(newPid, ident) == Owned(pid, ident).(pid := newPid % U16)
  {
    var path := ProxyPath(pid, ident);
    assert path[|MNT_POINT| + 1..] == FileName(pid, ident);
    ScanFileName(pid, ident);
    NameAgrees(newPid, ident);
  }
}
