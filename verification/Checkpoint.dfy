// A whole checkpoint: the header with its counts, the sections in their order, and
// the restart that reads them back (src/tcmi/ckpt/tcmi_ckpt.c,
// src/tcmi/ckpt/tcmi_ckptcom.c).

module Checkpoint {
  import opened Bytes
  import opened Files
  import opened Image
  import opened Names
  import opened FdTable
  import opened OpenFiles
  import opened CkptFiles
  import opened VmAreas

  const CKPT_MAGIC: nat := 0xdeadbeef
  const HDR_SIZE: nat := 34
  const TASK_COMM_LEN: nat := 16
  /** Sixteen limits of two 64-bit words each, twelve words, and 4 + 64 * 4 words. */
  const RLIMITS_SIZE: nat := 256
  const MM_SIZE: nat := 96
  const SIG_SIZE: nat := 2080
  /** sizeof(struct tcmi_fdcache_entry). */
  const CACHE_ENTRY: nat := 16

  /** The soft limit of RLIMIT_NOFILE, the eighth of the limits. */
  function NoFile(rlimits: seq<byte>): (n: nat)
    requires |rlimits| == RLIMITS_SIZE
  {
    FromLe(rlimits[112..120])
  }

  /** struct tcmi_ckpt_hdr, packed. */
  datatype CkptHdr = CkptHdr(mapCount: nat, fileCount: nat, arch: nat, is32: bool, npm: bool, comm: seq<byte>)

  function Flag(b: bool): (x: byte) {
    if b then 1 else 0
  }

  function EncodeCkptHdr(h: CkptHdr): (s: seq<byte>) {
    Le(CKPT_MAGIC, 4) + (Le(h.mapCount, 4) + (Le(h.fileCount, 4) + (Le(h.arch, 4) + ([Flag(h.is32), Flag(h.npm)] + h.comm))))
  }

  lemma CkptHdrFields(h: CkptHdr)
    requires h.mapCount < U31 && h.fileCount < U32 && h.arch < U31 && |h.comm| == TASK_COMM_LEN
    ensures var s := EncodeCkptHdr(h);
            && |s| == HDR_SIZE && FromLe(s[..4]) == CKPT_MAGIC && FromLe(s[4..8]) == h.mapCount
            && FromLe(s[8..12]) == h.fileCount && FromLe(s[12..16]) == h.arch
            && (s[16] != 0 <==> h.is32) && (s[17] != 0 <==> h.npm) && s[18..] == h.comm
  {
    hide Le, FromLe;
    Pow256Values();
    LeRoundTrip(CKPT_MAGIC, 4);
    LeRoundTrip(h.mapCount, 4);
    LeRoundTrip(h.fileCount, 4);
    LeRoundTrip(h.arch, 4);
    var s := EncodeCkptHdr(h);
    assert s[..4] == Le(CKPT_MAGIC, 4) && s[4..8] == Le(h.mapCount, 4) && s[8..12] == Le(h.fileCount, 4);
    assert s[12..16] == Le(h.arch, 4) && s[18..] == h.comm;
  }

  /** vma_ignore: the page that 64-bit kernels map into 32-bit processes. */
  predicate Ignored(a: Area, is32: bool) {
    is32 && a.start == 0xffffe
  }

  function Kept(areas: seq<Area>, is32: bool): (k: seq<Area>)
    ensures forall a :: a in k ==> a in areas
  {
    if areas == [] then []
    else
      var last := areas[|areas| - 1];
      Kept(areas[..|areas| - 1], is32) + if Ignored(last, is32) then [] else [last]
  }

  /** The page at 0xffffe000 of a 32-bit process is the only area that is left out. */
  predicate Vsyscall(a: Area, is32: bool) {
    is32 && a.start * 4096 == 0xffff_e000
  }

  /** Exactly the areas that are not the vsyscall page are kept, in their order. */
  lemma {:induction false} KeptExactly(areas: seq<Area>, is32: bool)
    ensures forall a :: a in Kept(areas, is32) <==> a in areas && !Vsyscall(a, is32)
    ensures !is32 ==> Kept(areas, is32) == areas
    ensures (forall a :: a in areas ==> !Vsyscall(a, is32)) ==> Kept(areas, is32) == areas
  {
    if areas != [] {
      var n := |areas| - 1;
      KeptExactly(areas[..n], is32);
      assert areas == areas[..n] + [areas[n]];
      assert Ignored(areas[n], is32) <==> Vsyscall(areas[n], is32);
      if forall a :: a in areas ==> !Vsyscall(a, is32) {
        assert areas[n] in areas && Kept(areas[..n], is32) == areas[..n];
      }
    }
  }

  /** Of a process with one vsyscall page the other areas are kept. */
  lemma {:induction false} KeptAround(before: seq<Area>, a: Area, after: seq<Area>)
    requires Vsyscall(a, true) && forall b :: b in before || b in after ==> !Vsyscall(b, true)
    ensures Kept(before + [a] + after, true) == before + after
    decreases |after|
  {
    var areas := before + [a] + after;
    var n := |areas| - 1;
    if after == [] {
      assert areas[..n] == before;
      KeptExactly(before, true);
    } else {
      var m := |after| - 1;
      KeptAround(before, a, after[..m]);
      assert after[m] in after && !Ignored(after[m], true);
      assert areas[..n] == before + [a] + after[..m] && areas[n] == after[m];
      assert before + after == before + after[..m] + [after[m]];
    }
  }

  lemma {:induction false} KeptDisjoint(areas: seq<Area>, is32: bool)
    requires Disjoint(areas)
    ensures Disjoint(Kept(areas, is32))
  {
    if areas != [] {
      var n := |areas| - 1;
      KeptDisjoint(areas[..n], is32);
      var k, all := Kept(areas[..n], is32), Kept(areas, is32);
      forall i, j, p | 0 <= i < j < |all| && Covers(all[i], p)
        ensures !Covers(all[j], p)
      {
        assert all[i] == k[i] && k[i] in areas[..n];
        if j == |k| {
          var l :| 0 <= l < n && areas[l] == k[i];
          assert Covers(areas[l], p);
        }
      }
    }
  }

  /** Every page of every area of a process is back in mem, and mem holds no other page. */
  ghost predicate MemoryBack(areas: seq<Area>, is32: bool, heavy: bool, mem: map<nat, Mapped>) {
    && (forall a, p :: a in areas && !(is32 && a.start * 4096 == 0xffff_e000) && Covers(a, p) ==> p in mem && Back(a, heavy, p, mem[p]))
    && (forall p :: p in mem ==> exists a :: a in areas && !(is32 && a.start * 4096 == 0xffff_e000) && Covers(a, p))
  }

  lemma OverlayBack(areas: seq<Area>, is32: bool, heavy: bool)
    ensures Disjoint(areas) ==> MemoryBack(areas, is32, heavy, Overlay(map[], Kept(areas, is32), heavy))
  {
    if Disjoint(areas) {
      OverlayAll(areas, is32, heavy);
    }
  }

  lemma OverlayAll(areas: seq<Area>, is32: bool, heavy: bool)
    requires Disjoint(areas)
    ensures MemoryBack(areas, is32, heavy, Overlay(map[], Kept(areas, is32), heavy))
  {
    hide Kept, Overlay, Back;
    var k := Kept(areas, is32);
    KeptExactly(areas, is32);
    KeptDisjoint(areas, is32);
    var mem := Overlay(map[], k, heavy);
    forall a, p | a in areas && !(is32 && a.start * 4096 == 0xffff_e000) && Covers(a, p)
      ensures p in mem && Back(a, heavy, p, mem[p])
    {
      assert a in k;
      var i :| 0 <= i < |k| && k[i] == a;
      EveryPageRestored(map[], k, heavy, i, p);
    }
    forall p | p in mem
      ensures exists a :: a in areas && !(is32 && a.start * 4096 == 0xffff_e000) && Covers(a, p)
    {
      if forall i :: 0 <= i < |k| ==> !Covers(k[i], p) {
        OverlayElsewhere(map[], k, heavy, p);
      } else {
        var i :| 0 <= i < |k| && Covers(k[i], p);
        assert k[i] in areas && !Vsyscall(k[i], is32);
      }
    }
  }

  const VM_SHARED: nat := 0x8
  const VM_IO: nat := 0x4000
  const VM_RESERVED: nat := 0x80000

  /** Areas that no checkpoint can hold: devices, shared memory and special mappings. */
  predicate Forbidden(a: Area) {
    Has(a.flags, VM_IO) || Has(a.flags, VM_SHARED) || Has(a.flags, VM_RESERVED)
  }

  /** What tcmi_ckpt_write_hdr demands before anything is written, with kmalloc giving at most kmax bytes. */
  ghost predicate Countable(s: Snapshot, kmax: nat) {
    && (forall fd :: fd in s.t.fds && s.t.fds[fd] in s.t.objs ==> Supported(s.t.objs[s.t.fds[fd]].kind))
    && (forall a :: a in Kept(s.areas, s.is32) ==> !Forbidden(a))
    && CACHE_ENTRY * |s.t.fds| <= kmax
  }

  ghost predicate AreasWritable(s: Snapshot) {
    s.npm || forall a :: a in Kept(s.areas, s.is32) ==> NameFits(a, s.heavy)
  }

  predicate CwdFits(s: Snapshot) {
    |s.cwd| + 1 <= PAGE_SIZE
  }

  /** A process of which a checkpoint can be made. */
  ghost predicate Admissible(s: Snapshot, shadow: bool, kmax: nat)
    requires TableOk(s.t)
  {
    Countable(s, kmax) && Writable(s.t, shadow, s.takable) && AreasWritable(s) && CwdFits(s)
  }

  /** The file of a descriptor can be stored: its type, the length of its path, and the server's part. */
  predicate Storable(f: OpenFile, shadow: bool, takable: bool) {
    && f.kind / 0x1000 % 16 in {1, 2, 4, 8} && |f.path| < 3096
    && (shadow && f.kind / 0x1000 % 16 in {1, 2} && !(Ascii("/mnt/proxy") <= f.path) && !(Ascii("/dev/null") <= f.path) ==> takable)
  }

  /** So can a memory area: private memory, and the name of a file that stands for it fits a page. */
  predicate StorableArea(a: Area, npm: bool, heavy: bool) {
    && a.flags / 0x8 % 2 == 0 && a.flags / 0x4000 % 2 == 0 && a.flags / 0x80000 % 2 == 0
    && (npm || heavy || a.path.None? || a.flags / 2 % 2 == 1 || |a.path.value| < 4096)
  }

  /** Exactly which processes a checkpoint can be made of, in terms of the process. */
  lemma AdmissibleExactly(s: Snapshot, shadow: bool, kmax: nat)
    requires TableOk(s.t)
    ensures Admissible(s, shadow, kmax) <==>
            && 16 * |s.t.fds| <= kmax && |s.cwd| < 4096
            && (forall fd :: fd in s.t.fds ==> Storable(s.t.objs[s.t.fds[fd]], shadow, s.t.fds[fd] in s.takable))
            && (forall a :: a in s.areas && !(s.is32 && a.start * 4096 == 0xffff_e000) ==> StorableArea(a, s.npm, s.heavy))
  {
    hide Kept, Ascii;
    KeptExactly(s.areas, s.is32);
    assert forall fd :: fd in s.t.fds ==>
        (Storable(s.t.objs[s.t.fds[fd]], shadow, s.t.fds[fd] in s.takable) <==>
         Supported(s.t.objs[s.t.fds[fd]].kind) && NewOk(s.t, shadow, s.takable, fd));
    assert forall a :: StorableArea(a, s.npm, s.heavy) <==> !Forbidden(a) && (s.npm || NameFits(a, s.heavy));
  }

  /**
   * The state that a checkpoint captures; limits, memory descriptor, registers,
   * thread-local storage and signals are raw bytes. takable are the files that the server
   * of ProxyFS can overtake: it is running and the file has a poll operation. A
   * non-preemptive checkpoint names the program to be executed and its arguments.
   */
  datatype Snapshot = Snapshot(t: Table, takable: set<nat>, areas: seq<Area>, heavy: bool, npm: bool, is32: bool, arch: nat,
                               comm: seq<byte>, rlimits: seq<byte>, mm: seq<byte>, regs: seq<byte>, tls: seq<byte>,
                               cwd: seq<byte>, sig: seq<byte>, counts: seq<byte>, program: seq<byte>, args: seq<byte>)

  ghost predicate SnapshotOk(s: Snapshot, n: nat) {
    && TableOk(s.t) && n <= U31 && |s.t.fds| < U31
    && (forall fd :: fd in s.t.fds ==> fd < n && FileFits(s.t.objs[s.t.fds[fd]]) && Sane(s.t.objs[s.t.fds[fd]]))
    && MemoryOk(s)
  }

  /** The sizes of what is not a file. */
  ghost predicate MemoryOk(s: Snapshot) {
    && (forall a :: a in s.areas ==> AreaOk(a)) && |s.areas| < U31
    && s.arch < U31 && |s.comm| == TASK_COMM_LEN && |s.rlimits| == RLIMITS_SIZE && |s.mm| == MM_SIZE
    && |s.regs| < U31 && |s.tls| < U31 && |s.sig| == SIG_SIZE
    && |s.counts| == 2 && |s.program| + 1 < U31 && |s.args| < U31
  }

  function HdrFor(s: Snapshot, files: nat): (h: CkptHdr) {
    CkptHdr(|Kept(s.areas, s.is32)|, files, s.arch, s.is32, s.npm, s.comm)
  }

  /** The part of the image before the memory areas. */
  function Front(s: Snapshot, rs: seq<Rec>): (b: seq<byte>) {
    EncodeCkptHdr(HdrFor(s, |rs|)) + s.rlimits + EncodeRecs(rs) + s.mm
  }

  function AreaBytes(s: Snapshot, at: nat): (b: seq<byte>) {
    if s.npm then [] else EncodeAreas(at, Kept(s.areas, s.is32), s.heavy)
  }

  /** Bytes behind their number. */
  function Sized(b: seq<byte>): (c: seq<byte>)
    ensures |c| == 4 + |b|
  {
    Le(|b|, 4) + b
  }

  function ParamBytes(s: Snapshot): (b: seq<byte>) {
    if s.npm then s.counts + (Sized(s.program + [0]) + Sized(s.args)) else []
  }

  /** The part of the image behind the memory areas. */
  function Rest(s: Snapshot): (b: seq<byte>) {
    Sized(s.regs) + (Sized(s.tls) + (Sized(s.cwd + [0]) + (s.sig + ParamBytes(s))))
  }

  function Whole(s: Snapshot, rs: seq<Rec>): (b: seq<byte>) {
    Front(s, rs) + AreaBytes(s, |Front(s, rs)|) + Rest(s)
  }

  /** The sections of an image in their order. */
  lemma WholeLayout(s: Snapshot, rs: seq<Rec>)
    ensures var front := EncodeCkptHdr(CkptHdr(|Kept(s.areas, s.is32)|, |rs|, s.arch, s.is32, s.npm, s.comm))
                       + s.rlimits + EncodeRecs(rs) + s.mm;
            Whole(s, rs) == front + (if s.npm then [] else EncodeAreas(|front|, Kept(s.areas, s.is32), s.heavy))
                          + Le(|s.regs|, 4) + s.regs + Le(|s.tls|, 4) + s.tls + Le(|s.cwd| + 1, 4) + s.cwd + [0] + s.sig
                          + if s.npm then s.counts + Le(|s.program| + 1, 4) + s.program + [0] + Le(|s.args|, 4) + s.args else []
  {
    hide Le, EncodeAreas, EncodeRecs, EncodeCkptHdr, Kept;
  }

  /** Limits as struct tcmi_ckpt_rlimits stores them, the soft one of each first. */
  function EncodeLimits(ls: seq<(nat, nat)>): (s: seq<byte>)
    ensures |s| == 16 * |ls|
  {
    if ls == [] then [] else Le(ls[0].0, 8) + Le(ls[0].1, 8) + EncodeLimits(ls[1..])
  }

  lemma {:induction false} LimitAt(ls: seq<(nat, nat)>, i: nat)
    requires i < |ls|
    ensures EncodeLimits(ls)[16 * i..16 * i + 8] == Le(ls[i].0, 8)
  {
    hide Le;
    if i > 0 {
      LimitAt(ls[1..], i - 1);
      assert EncodeLimits(ls)[16..] == EncodeLimits(ls[1..]);
      assert EncodeLimits(ls)[16 * i..16 * i + 8] == EncodeLimits(ls[1..])[16 * (i - 1)..16 * (i - 1) + 8];
    }
  }

  /** The limit on descriptors is the soft limit of resource 7, cut to what the node allows. */
  lemma BoundExactly(ls: seq<(nat, nat)>, node: Node)
    requires |ls| == 16 && ls[7].0 < 0x1_0000_0000_0000_0000
    ensures Bound(EncodeLimits(ls), node) == if ls[7].0 < node.nrOpen then ls[7].0 else node.nrOpen
  {
    hide Le, FromLe, EncodeLimits;
    LimitAt(ls, 7);
    Pow256Values();
    LeRoundTrip(ls[7].0, 8);
  }

  // ----- writing ------------------------------------------------------------------------------

  /** The loop of tcmi_ckpt_map_count, whose filter tcmi_ckpt_write_vmas repeats. */
  method KeptAreas(areas: seq<Area>, is32: bool) returns (k: seq<Area>, ok: bool)
    ensures k == Kept(areas, is32) && (ok <==> forall a :: a in k ==> !Forbidden(a))
    ensures forall a :: a in k <==> a in areas && !(is32 && a.start * 4096 == 0xffff_e000)
    ensures ok <==> forall a :: a in k ==> a.flags / 0x8 % 2 == 0 && a.flags / 0x4000 % 2 == 0 && a.flags / 0x80000 % 2 == 0
  {
    KeptExactly(areas, is32);
    k, ok := [], true;
    for i := 0 to |areas|
      invariant k == Kept(areas[..i], is32) && (ok <==> forall a :: a in k ==> !Forbidden(a))
    {
      assert areas[..i + 1][..i] == areas[..i];
      if !Ignored(areas[i], is32) {
        k := k + [areas[i]];
        ok := ok && !Forbidden(areas[i]);
      }
    }
    assert areas[..|areas|] == areas;
  }

  /** tcmi_ckpt_file_count: an error at the first file of an unsupported type. */
  method CountFiles(t: Table, n: nat) returns (count: int)
    requires TableOk(t)
    ensures if count < 0 then exists fd :: fd in t.fds && !Supported(t.objs[t.fds[fd]].kind)
            else count == CountBelow(t.fds, n) && forall fd :: fd in t.fds && fd < n ==> Supported(t.objs[t.fds[fd]].kind)
  {
    count := 0;
    for fd := 0 to n
      invariant count == CountBelow(t.fds, fd)
      invariant forall k :: k in t.fds && k < fd ==> Supported(t.objs[t.fds[k]].kind)
    {
      if fd in t.fds {
        if !Supported(t.objs[t.fds[fd]].kind) {
          return -22;
        }
        count := count + 1;
      }
    }
  }

  /** What a checkpoint that fails at descriptor stop has written. */
  ghost function UpToFile(s: Snapshot, names: map<nat, seq<byte>>, n: nat, stop: nat): (b: seq<byte>)
    requires Named(s.t, names)
  {
    EncodeCkptHdr(HdrFor(s, CountBelow(s.t.fds, n))) + s.rlimits + EncodeRecs(Records(s.t, names, stop)) + Le(0, 4)
  }

  /** What a checkpoint that fails at memory area stop has written. */
  ghost function UpToArea(s: Snapshot, rs: seq<Rec>, stop: nat): (b: seq<byte>)
    requires stop <= |Kept(s.areas, s.is32)|
  {
    Front(s, rs) + EncodeAreas(|Front(s, rs)|, Kept(s.areas, s.is32)[..stop], s.heavy)
  }

  /** What a checkpoint that fails at the working directory has written. */
  ghost function UpToCwd(s: Snapshot, rs: seq<Rec>): (b: seq<byte>) {
    Front(s, rs) + AreaBytes(s, |Front(s, rs)|) + Sized(s.regs) + Sized(s.tls)
  }

  /** stop is the first of the areas whose name does not fit. */
  ghost predicate AreaStop(s: Snapshot, stop: nat) {
    var areas := Kept(s.areas, s.is32);
    stop < |areas| && !NameFits(areas[stop], s.heavy) && forall a :: a in areas[..stop] ==> NameFits(a, s.heavy)
  }

  /** What the image holds after a checkpoint that got past the checks of the header. */
  ghost predicate Written(s: Snapshot, n: nat, shadow: bool, names: map<nat, seq<byte>>, stop: nat, full: seq<byte>)
    requires TableOk(s.t) && Named(s.t, names)
  {
    var rs := Records(s.t, names, n);
    if !Writable(s.t, shadow, s.takable) then StopsAt(s.t, shadow, s.takable, stop) && full == UpToFile(s, names, n, stop)
    else if !AreasWritable(s) then AreaStop(s, stop) && full == UpToArea(s, rs, stop)
    else full == if CwdFits(s) then Whole(s, rs) else UpToCwd(s, rs)
  }

  /**
   * tcmi_ckptcom_checkpoint on an empty file. A checkpoint that fails has written
   * nothing, or everything before the file, the area or the directory that stopped it.
   */
  method WriteCheckpoint(img: Image.File, s: Snapshot, n: nat, shadow: bool, pid: nat, kmax: nat, counter: IdentCounter)
    returns (ok: bool, ghost names: map<nat, seq<byte>>, ghost idents: map<nat, nat>, ghost stop: nat)
    requires SnapshotOk(s, n) && img.data == [] && img.pos == 0
    modifies img, counter
    ensures |img.data| <= img.pos && (ok <==> Admissible(s, shadow, kmax)) && old(counter.ident) <= counter.ident
    ensures !Countable(s, kmax) ==> img.data == [] && img.pos == 0 && counter.ident == old(counter.ident)
    ensures Countable(s, kmax) ==> Named(s.t, names) && Written(s, n, shadow, names, stop, img.Full())
    ensures Countable(s, kmax) && Writable(s.t, shadow, s.takable) ==>
              NamesOk(s.t, shadow, pid, old(counter.ident), counter.ident, names, idents, n)
    ensures ok ==> img.data == Whole(s, Records(s.t, names, n))
  {
    hide Records, Whole, NamesOk, FileFits, AreaOk, Supported, Forbidden, Kept, CountBelow, Writable, AreasWritable,
         StopsAt, AreaStop, UpToFile, UpToArea, UpToCwd, Named, Written, MemoryOk, Sane;
    names, idents, stop := map[], map[], 0;
    var areas, mappable := KeptAreas(s.areas, s.is32);
    if !mappable {
      return false, names, idents, 0;
    }
    var files := CountFiles(s.t, n);
    if files < 0 {
      return false, names, idents, 0;
    }
    CountAll(s.t.fds, n);
    if CACHE_ENTRY * files > kmax {
      return false, names, idents, 0;
    }
    ok, names, idents, stop := WriteSections(img, s, n, files, areas, shadow, pid, counter);
  }

  method WriteStart(img: Image.File, s: Snapshot, files: nat)
    requires img.data == [] && img.pos == 0
    modifies img
    ensures |img.data| <= img.pos && img.Full() == EncodeCkptHdr(HdrFor(s, files)) + s.rlimits
  {
    hide EncodeCkptHdr, HdrFor;
    img.Write(EncodeCkptHdr(HdrFor(s, files)));
    assert img.Full() == EncodeCkptHdr(HdrFor(s, files));
    img.Write(s.rlimits);
  }

  /** Everything that follows the checks of the header, in the order of the source. */
  method WriteSections(img: Image.File, s: Snapshot, n: nat, files: nat, areas: seq<Area>, shadow: bool, pid: nat, counter: IdentCounter)
    returns (ok: bool, ghost names: map<nat, seq<byte>>, ghost idents: map<nat, nat>, ghost stop: nat)
    requires SnapshotOk(s, n) && img.data == [] && img.pos == 0
    requires files == CountBelow(s.t.fds, n) && areas == Kept(s.areas, s.is32)
    modifies img, counter
    ensures |img.data| <= img.pos && Named(s.t, names) && old(counter.ident) <= counter.ident
    ensures ok <==> Writable(s.t, shadow, s.takable) && AreasWritable(s) && CwdFits(s)
    ensures Written(s, n, shadow, names, stop, img.Full())
    ensures Writable(s.t, shadow, s.takable) ==> NamesOk(s.t, shadow, pid, old(counter.ident), counter.ident, names, idents, n)
    ensures ok ==> img.data == Whole(s, Records(s.t, names, n))
  {
    hide EncodeCkptHdr, EncodeRecs, Records, EncodeAreas, NamesOk, FileFits, AreaOk, Kept, Writable, StopsAt, NameFits, Le, Named, CountBelow,
         Whole, UpToArea, UpToCwd, AreasWritable, CwdFits, AreaStop, Sane;
    WriteStart(img, s, files);
    ok, names, idents, stop := WriteFiles(img, s.t, n, shadow, pid, s.takable, counter);
    if !ok {
      return;
    }
    RecordsCount(s.t, names, n);
    img.Write(s.mm);
    ghost var rs := Records(s.t, names, n);
    assert img.Full() == Front(s, rs);
    hide Front;
    ok, stop := WriteMemory(img, s, areas, rs);
  }

  /** The memory areas, unless the checkpoint is a non-preemptive one, and the rest. */
  method WriteMemory(img: Image.File, s: Snapshot, areas: seq<Area>, ghost rs: seq<Rec>) returns (ok: bool, ghost stop: nat)
    requires |img.data| <= img.pos && img.Full() == Front(s, rs)
    requires areas == Kept(s.areas, s.is32) && (forall a :: a in areas ==> AreaOk(a))
    modifies img
    ensures |img.data| <= img.pos && (ok <==> AreasWritable(s) && CwdFits(s))
    ensures !AreasWritable(s) ==> AreaStop(s, stop) && img.Full() == UpToArea(s, rs, stop)
    ensures AreasWritable(s) ==> img.Full() == if ok then Whole(s, rs) else UpToCwd(s, rs)
    ensures ok ==> img.data == Whole(s, rs)
  {
    hide Front, EncodeAreas, AreaOk, Kept, NameFits, Rest, Sized;
    ok, stop := true, 0;
    if !s.npm {
      ok, stop := WriteAreas(img, areas, s.heavy);
      if !ok {
        return;
      }
      assert areas[..|areas|] == areas;
    }
    assert img.Full() == Front(s, rs) + AreaBytes(s, |Front(s, rs)|);
    ok := WriteRest(img, s);
  }

  /** Registers, thread-local storage, working directory, signals and what is to be executed. */
  method WriteRest(img: Image.File, s: Snapshot) returns (ok: bool)
    requires |img.data| <= img.pos
    modifies img
    ensures |img.data| <= img.pos && (ok <==> CwdFits(s))
    ensures img.Full() == old(img.Full()) + if ok then Rest(s) else Sized(s.regs) + Sized(s.tls)
    ensures !ok ==> img.Full() == old(img.Full()) + Sized(s.regs) + Sized(s.tls)
    ensures ok ==> img.data == img.Full()
  {
    hide Sized;
    ghost var before := img.Full();
    img.Write(Sized(s.regs));
    img.Write(Sized(s.tls));
    Assoc(before, Sized(s.regs), Sized(s.tls));
    if !CwdFits(s) {
      return false;
    }
    var last := s.sig + ParamBytes(s);
    RestParts(before, Sized(s.regs), Sized(s.tls), Sized(s.cwd + [0]), last);
    WriteLast(img, Sized(s.cwd + [0]), last);
    ok := true;
  }

  method WriteLast(img: Image.File, cwd: seq<byte>, last: seq<byte>)
    requires |img.data| <= img.pos && cwd != []
    modifies img
    ensures |img.data| <= img.pos && img.Full() == old(img.Full()) + cwd + last && img.data == img.Full()
  {
    img.Write(cwd);
    img.Write(last);
  }

  lemma RestParts(a: seq<byte>, b: seq<byte>, c: seq<byte>, d: seq<byte>, e: seq<byte>)
    ensures a + b + c + d + e == a + (b + (c + (d + e)))
  {
    Assoc(a + b + c, d, e);
    Assoc(a + b, c, d + e);
    Assoc(a, b, c + (d + e));
  }

  // ----- restarting ---------------------------------------------------------------------------

  /** tcmi_ckpt_read_hdr: the magic, and a number of files for which the cache can be allocated. */
  predicate Loads(data: seq<byte>, node: Node) {
    && |data| >= HDR_SIZE && FromLe(data[..4]) == CKPT_MAGIC
    && FromLe(data[8..12]) < U31 && CACHE_ENTRY * FromLe(data[8..12]) <= node.kmax
  }

  /** The number of areas, an int: none are read for a negative one. */
  function Times(word: nat): (n: nat) {
    if word < U31 then word else 0
  }

  /** The bound that a process gets from its limits on a node. */
  function Bound(rlimits: seq<byte>, node: Node): (n: nat)
    requires |rlimits| == RLIMITS_SIZE
    ensures n <= node.nrOpen
  {
    Min(NoFile(rlimits), node.nrOpen)
  }

  /** What a restart has read when it comes to the memory areas. */
  datatype Opening = Opening(t: Table, limit: nat, pos: nat, npm: bool, mapCount: nat)

  /**
   * The same for a process with table t, of which the descriptors in gone are closed when
   * a program is started; None if the restart fails before the memory areas.
   */
  ghost function ReadOpening(data: seq<byte>, t: Table, gone: set<nat>, node: Node): (o: Option<Opening>) {
    var at := HDR_SIZE + RLIMITS_SIZE;
    if !Loads(data, node) || at > |data| then None
    else
      var limit := Bound(data[HDR_SIZE..at], node);
      var files := Replay(t.(fds := t.fds - gone - {0}), limit, node, data, at, FromLe(data[8..12]));
      if files.None? || files.value.1 + MM_SIZE > |data| then None
      else Some(Opening(files.value.0, limit, files.value.1 + MM_SIZE, data[17] != 0, Times(FromLe(data[4..8]))))
  }

  /** An image that announces a negative number of files is refused before anything changes. */
  lemma NegativeCount(h: CkptHdr, rest: seq<byte>, t: Table, gone: set<nat>, node: Node)
    requires h.mapCount < U31 && U31 <= h.fileCount < U32 && h.arch < U31 && |h.comm| == TASK_COMM_LEN
    ensures !Loads(EncodeCkptHdr(h) + rest, node) && ReadOpening(EncodeCkptHdr(h) + rest, t, gone, node).None?
  {
    hide EncodeCkptHdr, FromLe, Replay;
    CkptHdrFields(h);
    assert (EncodeCkptHdr(h) + rest)[8..12] == EncodeCkptHdr(h)[8..12];
  }

  /** For a negative number of memory areas none is read. */
  lemma NegativeAreas(data: seq<byte>, t: Table, gone: set<nat>, node: Node)
    requires ReadOpening(data, t, gone, node).Some?
    ensures var count := FromLe(data[4..8]);
            ReadOpening(data, t, gone, node).value.mapCount == if count < 0x8000_0000 then count else 0
  {
    hide FromLe, Replay;
  }

  /** What else the node must allow: light areas, the working directory, and the program to be executed. */
  ghost predicate Follows(s: Snapshot, node: Node) {
    && (s.npm || forall a :: a in Kept(s.areas, s.is32) ==> Reached(a, s.heavy, node))
    && s.cwd in node.dirs && (s.npm ==> node.starts)
  }

  /** data holds, behind the opening, the areas and the rest of a checkpoint of s. */
  ghost predicate Continues(data: seq<byte>, o: Opening, s: Snapshot, post: seq<byte>) {
    && MemoryOk(s) && AreasWritable(s) && CwdFits(s) && s.npm == o.npm && (!o.npm ==> |Kept(s.areas, s.is32)| == o.mapCount)
    && o.pos <= |data| && data == data[..o.pos] + AreaBytes(s, o.pos) + (Rest(s) + post)
  }

  /**
   * tcmi_ckptcom_restart, for any file up to its memory areas; behind them the image
   * must hold what a checkpoint of some s wrote. flush_old_exec gives the process a new
   * address space and closes the descriptors in gone.
   */
  method Restart(img: Image.File, p: Process, space: Space, node: Node, gone: set<nat>, ghost s: Snapshot, ghost post: seq<byte>)
    returns (ok: bool)
    requires img.pos == 0 && p.Valid() && node.nrOpen <= U31
    requires var o := ReadOpening(img.data, p.t, gone, node); o.Some? ==> Continues(img.data, o.value, s, post)
    modifies img`pos, p, space
    ensures p.Valid()
    ensures !(|img.data| >= 34 && FromLe(img.data[..4]) == 0xdead_beef && 16 * FromLe(img.data[8..12]) <= node.kmax) ==> !ok
    ensures !Loads(img.data, node) ==> !ok && p.t == old(p.t) && p.limit == old(p.limit) && space.mem == old(space.mem)
    ensures var o := ReadOpening(img.data, old(p.t), gone, node);
            && (ok <==> o.Some? && Follows(s, node))
            && (ok ==> p.t == o.value.t && p.limit == o.value.limit && p.cwd == s.cwd
                       && space.mem == if s.npm then map[] else Overlay(map[], Kept(s.areas, s.is32), s.heavy))
  {
    hide Overlay, FromLe, Replay, Reached, Kept, Continues, AreaBytes, Rest, MemoryOk, AreasWritable, Bound;
    var hdr := img.Read(HDR_SIZE);
    if hdr.None? {
      return false;
    }
    ghost var data := img.data;
    assert hdr.value[..4] == data[..4] && hdr.value[4..8] == data[4..8] && hdr.value[8..12] == data[8..12];
    var mapCount, fileCount, npm := FromLe(hdr.value[4..8]), FromLe(hdr.value[8..12]), hdr.value[17] != 0;
    if FromLe(hdr.value[..4]) != CKPT_MAGIC || fileCount >= U31 || CACHE_ENTRY * fileCount > node.kmax {
      return false;
    }
    space.mem := map[];
    p.CloseAll(gone);
    var rlimits := img.Read(RLIMITS_SIZE);
    if rlimits.None? {
      return false;
    }
    p.SetLimit(Bound(rlimits.value, node));
    if 0 in p.t.fds {
      p.Close(0);
    } else {
      assert p.t.fds - {0} == p.t.fds;
    }
    ok := ReadFiles(img, p, node, fileCount);
    if !ok {
      return;
    }
    var mm := img.Read(MM_SIZE);
    if mm.None? {
      return false;
    }
    ghost var o := ReadOpening(data, old(p.t), gone, node).value;
    assert o == Opening(p.t, p.limit, img.pos, npm, Times(mapCount));
    ok := RestoreRest(img, p, space, node, npm, Times(mapCount), s, post, o);
  }

  /** The memory areas and what follows them. */
  method RestoreRest(img: Image.File, p: Process, space: Space, node: Node, npm: bool, count: nat, ghost s: Snapshot, ghost post: seq<byte>, ghost o: Opening)
    returns (ok: bool)
    requires p.Valid() && space.mem == map[] && Continues(img.data, o, s, post) && img.pos == o.pos && npm == o.npm && count == o.mapCount
    modifies img`pos, p`cwd, space
    ensures ok <==> Follows(s, node)
    ensures ok ==> p.cwd == s.cwd && space.mem == if s.npm then map[] else Overlay(map[], Kept(s.areas, s.is32), s.heavy)
  {
    hide EncodeAreas, AreaOk, NameFits, Overlay, Reached, Kept, Rest;
    ghost var data, pre, areas := img.data, img.data[..o.pos], AreaBytes(s, o.pos);
    assert pre + [] == pre;
    if !npm {
      ok := space.ReadAreas(img, node, count, Kept(s.areas, s.is32), s.heavy, pre, Rest(s) + post);
      if !ok {
        return;
      }
    }
    assert data == (pre + areas) + Rest(s) + post by {
      Assoc(pre + areas, Rest(s), post);
    }
    AtMiddle(pre + areas, Rest(s), post);
    ok := ReadRest(img, p, node, npm, s);
  }

  lemma AtMiddle(a: seq<byte>, b: seq<byte>, c: seq<byte>)
    ensures At(a + b + c, |a|, b)
  {
  }

  /** A number and as many bytes; kmalloc of a negative number of bytes fails. */
  method ReadSized(img: Image.File, ghost b: seq<byte>) returns (bytes: Option<seq<byte>>)
    requires |b| < U31 && At(img.data, img.pos, Sized(b))
    modifies img`pos
    ensures bytes == Some(b) && img.pos == old(img.pos) + |Sized(b)|
  {
    hide Le, FromLe;
    Pow256Values();
    LeRoundTrip(|b|, 4);
    AtParts(img.data, img.pos, Le(|b|, 4), b);
    var size := img.Read(4);
    if size.None? || FromLe(size.value) >= U31 {
      return None;
    }
    bytes := img.Read(FromLe(size.value));
  }

  method ReadExact(img: Image.File, size: nat, ghost b: seq<byte>) returns (bytes: Option<seq<byte>>)
    requires |b| == size && At(img.data, img.pos, b)
    modifies img`pos
    ensures bytes == Some(b) && img.pos == old(img.pos) + size
  {
    bytes := img.Read(size);
  }

  /** The sections behind the memory areas, as they were written. */
  method ReadRest(img: Image.File, p: Process, node: Node, npm: bool, ghost s: Snapshot) returns (ok: bool)
    requires MemoryOk(s) && |s.cwd| + 1 < U31 && npm == s.npm && At(img.data, img.pos, Rest(s))
    modifies img`pos, p`cwd
    ensures ok <==> s.cwd in node.dirs && (npm ==> node.starts)
    ensures ok ==> p.cwd == s.cwd
  {
    hide Sized, AreaOk, At;
    var c := Sized(s.cwd + [0]);
    var last := s.sig + ParamBytes(s);
    AtParts(img.data, img.pos, Sized(s.regs), Sized(s.tls) + (c + last));
    var regs := ReadSized(img, s.regs);
    AtParts(img.data, img.pos, Sized(s.tls), c + last);
    var tls := ReadSized(img, s.tls);
    AtParts(img.data, img.pos, c, last);
    var cwd := ReadSized(img, s.cwd + [0]);
    if regs.None? || tls.None? || cwd.None? || |cwd.value| == 0 {
      return false;
    }
    assert cwd.value[..|cwd.value| - 1] == s.cwd;
    if cwd.value[..|cwd.value| - 1] !in node.dirs {
      return false;
    }
    p.cwd := cwd.value[..|cwd.value| - 1];
    AtParts(img.data, img.pos, s.sig, ParamBytes(s));
    var sig := ReadExact(img, SIG_SIZE, s.sig);
    if sig.None? {
      return false;
    }
    ok := true;
    if npm {
      ok := ReadParams(img, node, s);
    }
  }

  /** What is to be executed, and the attempt to do so. */
  method ReadParams(img: Image.File, node: Node, ghost s: Snapshot) returns (ok: bool)
    requires MemoryOk(s) && s.npm && At(img.data, img.pos, ParamBytes(s))
    modifies img`pos
    ensures ok <==> node.starts
  {
    hide Sized, AreaOk, At;
    AtParts(img.data, img.pos, s.counts, Sized(s.program + [0]) + Sized(s.args));
    var counts := ReadExact(img, 2, s.counts);
    AtParts(img.data, img.pos, Sized(s.program + [0]), Sized(s.args));
    var program := ReadSized(img, s.program + [0]);
    var args := ReadSized(img, s.args);
    if counts.None? || program.None? || args.None? {
      return false;
    }
    ok := node.starts;
  }

  /** Where the sections before the memory areas lie. */
  lemma FrontParts(data: seq<byte>, s: Snapshot, rs: seq<Rec>)
    requires data == Whole(s, rs)
    ensures var h := |EncodeCkptHdr(HdrFor(s, |rs|))|;
            && At(data, 0, EncodeCkptHdr(HdrFor(s, |rs|))) && At(data, h, s.rlimits)
            && At(data, h + |s.rlimits|, EncodeRecs(rs)) && At(data, h + |s.rlimits| + |EncodeRecs(rs)|, s.mm)
            && |Front(s, rs)| == h + |s.rlimits| + |EncodeRecs(rs)| + |s.mm|
  {
    hide EncodeCkptHdr, EncodeRecs, AreaBytes, Rest, HdrFor, At;
    var a, b, c, d := EncodeCkptHdr(HdrFor(s, |rs|)), s.rlimits, EncodeRecs(rs), s.mm;
    var rest := AreaBytes(s, |Front(s, rs)|) + Rest(s);
    Assoc(Front(s, rs), AreaBytes(s, |Front(s, rs)|), Rest(s));
    FourParts(a, b, c, d, rest);
  }

  lemma AtWhole(x: seq<byte>)
    ensures At(x, 0, x)
  {
  }

  lemma FourParts(a: seq<byte>, b: seq<byte>, c: seq<byte>, d: seq<byte>, rest: seq<byte>)
    ensures var x := a + b + c + d + rest;
            && At(x, 0, a) && At(x, |a|, b) && At(x, |a| + |b|, c) && At(x, |a| + |b| + |c|, d)
  {
    hide At;
    var x := a + b + c + d + rest;
    Assoc(a + b + c, d, rest);
    Assoc(a + b, c, d + rest);
    Assoc(a, b, c + (d + rest));
    assert x == a + (b + (c + (d + rest)));
    AtWhole(x);
    AtParts(x, 0, a, b + (c + (d + rest)));
    AtParts(x, |a|, b, c + (d + rest));
    AtParts(x, |a| + |b|, c, d + rest);
    AtParts(x, |a| + |b| + |c|, d, rest);
  }

  lemma StoredOk(f: OpenFile, shadow: bool, pid: nat, ident: nat)
    requires FileFits(f) && PathFits(f.path) && pid < U31
    ensures var path := StoredPath(f, shadow, pid, ident); FileFits(f.(path := path)) && Short(path)
  {
    hide Ascii, NeedsProxy;
    ProxyPathFits(pid, ident);
  }

  /** The records written for a process can be read back. */
  lemma RecordsReadable(s: Snapshot, n: nat, shadow: bool, pid: nat, lo: nat, hi: nat,
                        names: map<nat, seq<byte>>, idents: map<nat, nat>)
    requires SnapshotOk(s, n) && Writable(s.t, shadow, s.takable) && Named(s.t, names) && pid < U31
    requires NamesOk(s.t, shadow, pid, lo, hi, names, idents, n)
    ensures var rs := Records(s.t, names, n); (forall r :: r in rs ==> RecOk(r)) && |rs| == |s.t.fds|
  {
    hide MemoryOk, NeedsProxy, Records, RecOk, FileFits, PathFits, Short, StoredPath, Supported, FirstFrom, Sane;
    forall fd | fd in s.t.fds && fd < n
      ensures FileFits(Stored(s.t, names, fd)) && Short(names[s.t.fds[fd]])
    {
      assert NameOk(s.t, shadow, pid, names, idents, fd) && NewOk(s.t, shadow, s.takable, fd);
      var d := First(s.t.fds, fd);
      StoredOk(s.t.objs[s.t.fds[fd]], shadow, pid, if d in idents then idents[d] else 0);
    }
    RecordsFit(s.t, names, n);
    RecordsCount(s.t, names, n);
    CountAll(s.t.fds, n);
  }

  /** The image of a checkpoint opens with the effect of its records under its own limits. */
  lemma OpeningOfWhole(s: Snapshot, rs: seq<Rec>, t: Table, gone: set<nat>, node: Node)
    requires (forall r :: r in rs ==> RecOk(r)) && |rs| < U31 && MemoryOk(s) && |Kept(s.areas, s.is32)| < U31
    ensures var limit := Bound(s.rlimits, node);
            var u := if CACHE_ENTRY * |rs| > node.kmax then None else EffectAll(t.(fds := t.fds - gone - {0}), limit, node, rs);
            var o := if u.None? then None else Some(Opening(u.value, limit, |Front(s, rs)|, s.npm, |Kept(s.areas, s.is32)|));
            ReadOpening(Whole(s, rs), t, gone, node) == o
  {
    hide EncodeCkptHdr, EncodeRecs, AreaBytes, RecOk, EffectAll, Replay, FromLe, Kept, Rest, Bound, AreaOk;
    var data, h := Whole(s, rs), HdrFor(s, |rs|);
    CkptHdrFields(h);
    FrontParts(data, s, rs);
    var b := EncodeCkptHdr(h);
    assert data[..HDR_SIZE] == b;
    assert data[..4] == b[..4] && data[4..8] == b[4..8] && data[8..12] == b[8..12] && data[17] == b[17];
    ReplayEncoded(t.(fds := t.fds - gone - {0}), Bound(s.rlimits, node), node, data, HDR_SIZE + RLIMITS_SIZE, rs);
  }

  /**
   * The node allows the process to be restored: its descriptors lie below its own limit
   * and the node's bound, its files open there, and what follows them does too.
   */
  ghost predicate Arrives(s: Snapshot, names: map<nat, seq<byte>>, n: nat, node: Node)
    requires Named(s.t, names) && |s.rlimits| == RLIMITS_SIZE
  {
    && CACHE_ENTRY * |s.t.fds| <= node.kmax
    && Restorable(s.t, names, n, Bound(s.rlimits, node), node)
    && Follows(s, node)
  }

  /** The node's part in a migration, in terms of what it answers. */
  lemma ArrivesExactly(s: Snapshot, names: map<nat, seq<byte>>, n: nat, node: Node)
    requires SnapshotOk(s, n) && Named(s.t, names)
    ensures Arrives(s, names, n, node) <==>
            && 16 * |s.t.fds| <= node.kmax && s.cwd in node.dirs && (s.npm ==> node.starts)
            && (forall fd :: fd in s.t.fds ==>
                  var f, path := s.t.objs[s.t.fds[fd]], names[s.t.fds[fd]];
                  && fd < FromLe(s.rlimits[112..120]) && fd < node.nrOpen
                  && node.opens(path, f.flags, f.mode).Some? && node.seek(path, f.pos) == f.pos)
            && (!s.npm && !s.heavy ==> forall a :: a in s.areas && !(s.is32 && a.start * 4096 == 0xffff_e000) ==>
                  a.path.None? || a.flags / 2 % 2 == 1 || node.opens(a.path.value, 0, 0).Some?)
  {
    hide Kept, FromLe, FileFits, Sane, AreaOk;
    KeptExactly(s.areas, s.is32);
    assert forall fd :: fd in s.t.fds ==> fd < n;
    assert s.heavy ==> forall a :: Reached(a, s.heavy, node);
  }

  /** The descriptors of s and their files as the node opens them, shared as before. */
  ghost predicate SameFiles(s: Snapshot, names: map<nat, seq<byte>>, node: Node, u: Table)
    requires Named(s.t, names)
  {
    && TableOk(u) && SameSharing(s.t, u)
    && forall fd :: fd in s.t.fds ==>
         var o, g := s.t.fds[fd], u.objs[u.fds[fd]];
         && g == Landing(Stored(s.t, names, fd), node)
         && g.path == names[o] && g.pos == s.t.objs[o].pos && g.flags == s.t.objs[o].flags
  }

  /**
   * Migration: what is checkpointed on one node and restarted on another has the same
   * descriptors, their files opened under the stored names with the same position and
   * flags and shared in the same way, the same memory and the same working directory. It
   * succeeds exactly if a checkpoint can be made and the other node allows it.
   */
  method Migrate(s: Snapshot, n: nat, shadow: bool, pid: nat, kmax: nat, counter: IdentCounter, p: Process, space: Space, node: Node, gone: set<nat>)
    returns (ok: bool, ghost names: map<nat, seq<byte>>, ghost idents: map<nat, nat>)
    requires SnapshotOk(s, n) && pid < U31
    requires p.Valid() && p.t.fds.Keys - gone <= {0} && node.nrOpen <= U31
    modifies counter, p, space
    ensures p.Valid() && (ok ==> Admissible(s, shadow, kmax))
    ensures !Admissible(s, shadow, kmax) ==> p.t == old(p.t) && space.mem == old(space.mem)
    ensures Admissible(s, shadow, kmax) ==>
      && Named(s.t, names)
      && NamesOk(s.t, shadow, pid, old(counter.ident), counter.ident, names, idents, n)
      && (ok <==> Arrives(s, names, n, node))
    ensures ok ==> SameFiles(s, names, node, p.t) && p.cwd == s.cwd && p.limit == Bound(s.rlimits, node)
    ensures ok ==> space.mem == if s.npm then map[] else Overlay(map[], Kept(s.areas, s.is32), s.heavy)
    ensures ok && !s.npm && Disjoint(s.areas) ==> MemoryBack(s.areas, s.is32, s.heavy, space.mem)
  {
    hide Disjoint, MemoryBack, NamesOk, Records, RecOk, FileFits, Whole, Overlay, Kept, Writable, Sane, MemoryOk,
         Supported, Arrives, Named, Written, SameFiles, Bound;
    var img := new Image.File();
    ghost var stop;
    ok, names, idents, stop := WriteCheckpoint(img, s, n, shadow, pid, kmax, counter);
    if !ok {
      return;
    }
    RecordsReadable(s, n, shadow, pid, old(counter.ident), counter.ident, names, idents);
    var copy := new Image.File();
    copy.data := img.data;
    OverlayBack(s.areas, s.is32, s.heavy);
    ok := Arrive(copy, s, n, names, p, space, node, gone, kmax);
  }

  /** The restart of a checkpoint in a process that keeps nothing open but descriptor 0. */
  method Arrive(img: Image.File, s: Snapshot, n: nat, ghost names: map<nat, seq<byte>>, p: Process, space: Space, node: Node, gone: set<nat>, ghost kmax: nat)
    returns (ok: bool)
    requires SnapshotOk(s, n) && Countable(s, kmax) && AreasWritable(s) && CwdFits(s) && Named(s.t, names)
    requires var rs := Records(s.t, names, n);
             img.pos == 0 && img.data == Whole(s, rs) && (forall r :: r in rs ==> RecOk(r)) && |rs| == |s.t.fds|
    requires p.Valid() && p.t.fds.Keys - gone <= {0} && node.nrOpen <= U31
    modifies img`pos, p, space
    ensures p.Valid() && (ok <==> Arrives(s, names, n, node))
    ensures ok ==> SameFiles(s, names, node, p.t) && p.cwd == s.cwd && p.limit == Bound(s.rlimits, node)
    ensures ok ==> space.mem == if s.npm then map[] else Overlay(map[], Kept(s.areas, s.is32), s.heavy)
  {
    hide MemoryOk, Records, RecOk, FileFits, Whole, Overlay, Kept, Supported, ReadOpening, Restorable,
         Front, Named, SameFiles, Bound, Continues, AreasWritable, Follows, Sane, Loads;
    ghost var rs := Records(s.t, names, n);
    OpeningArrives(s, n, names, p.t, gone, node, kmax);
    if ReadOpening(img.data, p.t, gone, node).Some? {
      WholeContinues(s, rs, ReadOpening(img.data, p.t, gone, node).value);
    }
    ok := Restart(img, p, space, node, gone, s, []);
  }

  /** The files of a checkpoint arrive together, exactly if each of them can be restored. */
  lemma OpeningArrives(s: Snapshot, n: nat, names: map<nat, seq<byte>>, t: Table, gone: set<nat>, node: Node, kmax: nat)
    requires SnapshotOk(s, n) && Countable(s, kmax) && Named(s.t, names) && TableOk(t) && t.fds.Keys - gone <= {0}
    requires var rs := Records(s.t, names, n); (forall r :: r in rs ==> RecOk(r)) && |rs| == |s.t.fds|
    ensures var rs, limit := Records(s.t, names, n), Bound(s.rlimits, node);
            var o := ReadOpening(Whole(s, rs), t, gone, node);
            && (o.Some? <==> CACHE_ENTRY * |s.t.fds| <= node.kmax && Restorable(s.t, names, n, limit, node))
            && (o.Some? ==>
                  && o.value.pos == |Front(s, rs)| && o.value.npm == s.npm && o.value.mapCount == |Kept(s.areas, s.is32)|
                  && o.value.limit == limit && SameFiles(s, names, node, o.value.t))
  {
    hide AreaOk, Records, RecOk, FileFits, Whole, ApplyAll, EffectAll, Kept, Supported, ReadOpening, Restorable, Front,
         SameFiles, Bound, Sane, Landed;
    var t0 := t.(fds := t.fds - gone - {0});
    assert t0.fds == map[];
    KeptCount(s.areas, s.is32);
    EffectRecords(t0, s.t, names, n, Bound(s.rlimits, node), node);
    OpeningOfWhole(s, Records(s.t, names, n), t, gone, node);
    if Restorable(s.t, names, n, Bound(s.rlimits, node), node) {
      LandedSame(s, n, names, node, t0, Bound(s.rlimits, node));
    }
  }

  lemma LandedSame(s: Snapshot, n: nat, names: map<nat, seq<byte>>, node: Node, t0: Table, limit: nat)
    requires SnapshotOk(s, n) && Named(s.t, names) && TableOk(t0) && t0.fds == map[] && Restorable(s.t, names, n, limit, node)
    ensures SameFiles(s, names, node, ApplyAll(t0, Records(Landed(s.t, names, node), names, n)))
  {
    hide MemoryOk, FileFits, Records, ApplyAll, Landed, Arrived, Sane, Landing;
    var l := Landed(s.t, names, node);
    TableRoundTrip(t0, l, names, n);
    forall fd | fd in s.t.fds
      ensures Stored(l, names, fd) == Landing(Stored(s.t, names, fd), node)
      ensures var f := Stored(s.t, names, fd); var g := Landing(f, node); g.path == f.path && g.pos == f.pos && g.flags == f.flags
    {
      LandedFile(s.t, names, node, fd);
      StoredSane(s.t, names, fd);
      LandingKeeps(Stored(s.t, names, fd), node);
    }
  }

  lemma StoredSane(t: Table, names: map<nat, seq<byte>>, fd: nat)
    requires Named(t, names) && fd in t.fds && Sane(t.objs[t.fds[fd]])
    ensures Sane(Stored(t, names, fd))
  {
  }

  lemma WholeContinues(s: Snapshot, rs: seq<Rec>, o: Opening)
    requires MemoryOk(s) && AreasWritable(s) && CwdFits(s)
    requires o.pos == |Front(s, rs)| && o.npm == s.npm && o.mapCount == |Kept(s.areas, s.is32)|
    ensures Continues(Whole(s, rs), o, s, [])
  {
    hide Front, AreaBytes, Kept, Rest, MemoryOk, AreasWritable;
    assert Whole(s, rs)[..o.pos] == Front(s, rs);
    assert Rest(s) + [] == Rest(s);
  }

  lemma {:induction false} KeptCount(areas: seq<Area>, is32: bool)
    ensures |Kept(areas, is32)| <= |areas|
  {
    if areas != [] {
      KeptCount(areas[..|areas| - 1], is32);
    }
  }
}
