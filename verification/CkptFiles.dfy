// Writing the open files of a process into a checkpoint image and restoring them.

module CkptFiles {
  import opened Bytes
  import opened Files
  import opened Image
  import opened Names
  import opened FdTable
  import opened OpenFiles

  const U64: nat := 0x1_0000_0000_0000_0000

  // ----- records as bytes -----------------------------------------------------------------

  /** The fields of struct file fit those of the record. */
  predicate FileFits(f: OpenFile) {
    f.pos < U64 && f.flags < U32 && f.mode < U32 && f.kind < U32
  }

  /** A path with its terminator that a record can hold. */
  predicate Short(path: seq<byte>) {
    |path| + 1 < PAGE_SIZE
  }

  /** The buffer that d_path gets when an open file is written: a page less 1000 bytes. */
  const PATH_ROOM: nat := PAGE_SIZE - 1000

  predicate PathFits(path: seq<byte>) {
    |path| + 1 <= PATH_ROOM
  }

  /** Regular files, directories, character devices and pipes (by the file type bits of i_mode). */
  predicate Supported(kind: nat) {
    kind / 0x1000 % 16 in {1, 2, 4, 8}
  }

  predicate IsSpecial(kind: nat) {
    kind / 0x1000 % 16 in {1, 2}
  }

  /** Every number of a record fits its 32-bit or 64-bit field. */
  predicate RecOk(r: Rec) {
    match r
    case New(fd, f) => fd < U32 && FileFits(f) && Short(f.path)
    case Dup(fd, first) => fd < U32 && first < U32
  }

  /** struct tcmi_ckpt_openfile_newfile_hdr, packed. */
  function EncodeNew(fd: nat, f: OpenFile): (s: seq<byte>)
    ensures |s| == 28
  {
    Le(fd, 4) + Le(f.pos, 8) + Le(f.flags, 4) + Le(f.mode, 4) + Le(f.kind, 4) + Le(|f.path| + 1, 4)
  }

  function EncodeRec(r: Rec): (s: seq<byte>)
    ensures |s| >= 4
  {
    match r
    case New(fd, f) => Le(0, 4) + (EncodeNew(fd, f) + (f.path + [0]))
    case Dup(fd, first) => Le(1, 4) + (Le(fd, 4) + Le(first, 4))
  }

  function EncodeRecs(rs: seq<Rec>): (s: seq<byte>) {
    if rs == [] then [] else EncodeRecs(rs[..|rs| - 1]) + EncodeRec(rs[|rs| - 1])
  }

  lemma NewFields(fd: nat, f: OpenFile)
    requires fd < U32 && FileFits(f) && Short(f.path)
    ensures var s := EncodeNew(fd, f);
            && FromLe(s[..4]) == fd && FromLe(s[4..12]) == f.pos && FromLe(s[12..16]) == f.flags
            && FromLe(s[16..20]) == f.mode && FromLe(s[20..24]) == f.kind && FromLe(s[24..]) == |f.path| + 1
  {
    hide Le, FromLe;
    Pow256Values();
    LeRoundTrip(fd, 4);
    LeRoundTrip(f.pos, 8);
    LeRoundTrip(f.flags, 4);
    LeRoundTrip(f.mode, 4);
    LeRoundTrip(f.kind, 4);
    LeRoundTrip(|f.path| + 1, 4);
    NewSlices(fd, f);
  }

  lemma NewSlices(fd: nat, f: OpenFile)
    ensures var s := EncodeNew(fd, f);
            && s[..4] == Le(fd, 4) && s[4..12] == Le(f.pos, 8) && s[12..16] == Le(f.flags, 4)
            && s[16..20] == Le(f.mode, 4) && s[20..24] == Le(f.kind, 4) && s[24..] == Le(|f.path| + 1, 4)
  {
    hide Le;
  }

  /** A record begins with its type: 0 for a file with its fields and path, 1 for a duplicate. */
  lemma RecLayout(r: Rec)
    ensures var s := EncodeRec(r);
            match r
            case New(fd, f) => s[..4] == Le(0, 4) && |s| >= 32 && s[4..32] == EncodeNew(fd, f) && s[32..] == f.path + [0]
            case Dup(fd, first) => s[..4] == Le(1, 4) && |s| == 12 && s[4..8] == Le(fd, 4) && s[8..] == Le(first, 4)
  {
    hide Le, EncodeNew;
  }

  // ----- restoring -------------------------------------------------------------------------

  /** data holds x at pos. */
  ghost predicate At(data: seq<byte>, pos: nat, x: seq<byte>) {
    pos + |x| <= |data| && data[pos..pos + |x|] == x
  }

  lemma AtParts(data: seq<byte>, pos: nat, x: seq<byte>, y: seq<byte>)
    requires At(data, pos, x + y)
    ensures At(data, pos, x) && At(data, pos + |x|, y)
  {
    assert data[pos..pos + |x|] == data[pos..pos + |x + y|][..|x|];
    assert data[pos + |x|..pos + |x| + |y|] == data[pos..pos + |x + y|][|x|..];
  }

  /** The full record that an image holds at pos behind its type. */
  function ParseNew(data: seq<byte>, pos: nat): (r: Option<(Rec, nat)>)
    ensures r.Some? ==> r.value.0.New? && RecOk(r.value.0)
  {
    if pos + 28 > |data| then None
    else
      var s := data[pos..pos + 28];
      var size := FromLe(s[24..]);
      var next := pos + 28 + size;
      if size >= PAGE_SIZE || next > |data| then None
      else
        FieldBounds(s);
        var path := if size == 0 then [] else data[pos + 28..next - 1];
        Some((New(FromLe(s[..4]), OpenFile(path, FromLe(s[4..12]), FromLe(s[12..16]), FromLe(s[16..20]), FromLe(s[20..24]))), next))
  }

  lemma FieldBounds(s: seq<byte>)
    requires |s| == 28
    ensures FromLe(s[..4]) < U32 && FromLe(s[4..12]) < U64 && FromLe(s[12..16]) < U32 && FromLe(s[16..20]) < U32 && FromLe(s[20..24]) < U32
  {
    hide FromLe, Pow256;
    Pow256Values();
    FromLeBound(s[..4]);
    FromLeBound(s[4..12]);
    FromLeBound(s[12..16]);
    FromLeBound(s[16..20]);
    FromLeBound(s[20..24]);
  }

  function ParseDup(data: seq<byte>, pos: nat): (r: Option<(Rec, nat)>)
    ensures r.Some? ==> r.value.0.Dup? && RecOk(r.value.0)
  {
    if pos + 8 > |data| then None
    else
      DupBounds(data[pos..pos + 4], data[pos + 4..pos + 8]);
      Some((Dup(FromLe(data[pos..pos + 4]), FromLe(data[pos + 4..pos + 8])), pos + 8))
  }

  lemma DupBounds(a: seq<byte>, b: seq<byte>)
    requires |a| == 4 && |b| == 4
    ensures FromLe(a) < U32 && FromLe(b) < U32
  {
    hide FromLe, Pow256;
    Pow256Values();
    FromLeBound(a);
    FromLeBound(b);
  }

  /** The record that an image holds at pos and where it ends. */
  function ParseRec(data: seq<byte>, pos: nat): (r: Option<(Rec, nat)>)
    ensures r.Some? ==> RecOk(r.value.0)
  {
    if pos + 4 > |data| then None
    else
      var kind := FromLe(data[pos..pos + 4]);
      if kind == 0 then ParseNew(data, pos + 4)
      else if kind == 1 then ParseDup(data, pos + 4)
      else None
  }

  /** A full record is read if its header and as many bytes of path as this says are there, less than a page. */
  lemma ParsesExactly(data: seq<byte>, pos: nat)
    ensures ParseNew(data, pos).Some? <==>
            pos + 28 <= |data| && FromLe(data[pos + 24..pos + 28]) < 4096 && pos + 28 + FromLe(data[pos + 24..pos + 28]) <= |data|
    ensures ParseNew(data, pos).Some? ==> ParseNew(data, pos).value.1 == pos + 28 + FromLe(data[pos + 24..pos + 28])
    ensures ParseRec(data, pos).Some? ==> FromLe(data[pos..pos + 4]) in {0, 1}
  {
    hide FromLe;
    if pos + 28 <= |data| {
      assert data[pos..pos + 28][24..] == data[pos + 24..pos + 28];
    }
  }

  lemma ParseNewEncoded(data: seq<byte>, pos: nat, fd: nat, f: OpenFile)
    requires fd < U32 && FileFits(f) && Short(f.path) && At(data, pos, EncodeNew(fd, f) + (f.path + [0]))
    ensures ParseNew(data, pos) == Some((New(fd, f), pos + 28 + |f.path| + 1))
  {
    hide EncodeNew, FromLe;
    AtParts(data, pos, EncodeNew(fd, f), f.path + [0]);
    AtParts(data, pos + 28, f.path, [0]);
    NewFields(fd, f);
  }

  lemma ParseDupEncoded(data: seq<byte>, pos: nat, fd: nat, first: nat)
    requires fd < U32 && first < U32 && At(data, pos, Le(fd, 4) + Le(first, 4))
    ensures ParseDup(data, pos) == Some((Dup(fd, first), pos + 8))
  {
    hide Le, FromLe;
    Pow256Values();
    LeRoundTrip(fd, 4);
    LeRoundTrip(first, 4);
    AtParts(data, pos, Le(fd, 4), Le(first, 4));
  }

  /** A record that was written is read back, wherever it lies in the image. */
  lemma ParseEncoded(data: seq<byte>, pos: nat, r: Rec)
    requires RecOk(r) && At(data, pos, EncodeRec(r))
    ensures ParseRec(data, pos) == Some((r, pos + |EncodeRec(r)|))
  {
    hide Le, FromLe, EncodeNew, ParseNew, ParseDup;
    Pow256Values();
    LeRoundTrip(0, 4);
    LeRoundTrip(1, 4);
    match r {
      case New(fd, f) =>
        AtParts(data, pos, Le(0, 4), EncodeNew(fd, f) + (f.path + [0]));
        ParseNewEncoded(data, pos + 4, fd, f);
      case Dup(fd, first) =>
        AtParts(data, pos, Le(1, 4), Le(fd, 4) + Le(first, 4));
        ParseDupEncoded(data, pos + 4, fd, first);
    }
  }

  /**
   * What restoring one record on a node does to the descriptor table of a process with
   * the given limit; None if it fails. The two numbers -EBADF and -1 pass for success
   * without restoring anything.
   */
  ghost function Effect(t: Table, limit: nat, node: Node, r: Rec): (u: Option<Table>) {
    match r
    case New(fd, f) =>
      if !Supported(f.kind) then (if fd == EBADF || fd == MINUS_ONE then Some(t) else None)
      else
        var g := Arrived(node, f);
        if g.None? || Full(t.fds, limit) then None
        else if fd < limit then Some(Apply(t, New(fd, g.value)))
        else if fd == EBADF then Some(t.(objs := t.objs[t.next := g.value], next := t.next + 1))
        else None
    case Dup(fd, first) =>
      if fd == EBADF then Some(t)
      else if first in t.fds && (fd < limit || fd == first) then Some(Apply(t, r))
      else None
  }

  /** A descriptor below the limit is free for open. */
  ghost predicate Roomy(fds: map<nat, nat>, limit: nat) {
    exists k: nat :: k < limit && k !in fds
  }

  /**
   * Exactly which full records can be restored and what each does. Regular files,
   * directories, character devices and pipes are opened; of others only the numbers -9 and
   * -1 are accepted.
   */
  lemma NewExactly(t: Table, limit: nat, node: Node, fd: nat, f: OpenFile)
    requires limit <= 0x8000_0000
    ensures var u, ino := Effect(t, limit, node, New(fd, f)), node.opens(f.path, f.flags, f.mode);
            if f.kind / 0x1000 % 16 !in {1, 2, 4, 8} then u == if fd == 0xffff_fff7 || fd == 0xffff_ffff then Some(t) else None
            else
              && (u.Some? <==>
                    ino.Some? && node.seek(f.path, f.pos) == f.pos && Roomy(t.fds, limit) && (fd < limit || fd == 0xffff_fff7))
              && (u.Some? ==>
                    && u.value.fds == (if fd < limit then t.fds[fd := t.next] else t.fds)
                    && u.value.objs == t.objs[t.next := OpenFile(f.path, if f.pos < 0x8000_0000_0000_0000 then f.pos else 0,
                                                                 KeptFlags(f.flags), ino.value.mode, ino.value.kind)])
  {
    hide KeptFlags;
    assert Full(t.fds, limit) <==> !Roomy(t.fds, limit);
  }

  /** A duplicate needs an open descriptor and a number below the limit; under -9 it always passes. */
  lemma DupExactly(t: Table, limit: nat, node: Node, fd: nat, first: nat)
    requires limit <= 0x8000_0000
    ensures var u := Effect(t, limit, node, Dup(fd, first));
            && (u.Some? <==> fd == 0xffff_fff7 || (first in t.fds && (fd < limit || fd == first)))
            && (u.Some? ==> u.value.objs == t.objs && u.value.fds == if fd == 0xffff_fff7 then t.fds else t.fds[fd := t.fds[first]])
  {
  }

  ghost function EffectAll(t: Table, limit: nat, node: Node, rs: seq<Rec>): (u: Option<Table>) {
    if rs == [] then Some(t)
    else
      var before := EffectAll(t, limit, node, rs[..|rs| - 1]);
      if before.None? then None else Effect(before.value, limit, node, rs[|rs| - 1])
  }

  /**
   * A record with a number of a descriptor restores that descriptor or fails. Records
   * with a negative number leave every descriptor alone, and they are accepted exactly
   * for -EBADF and, with a type that is not restored, for -1.
   */
  lemma NegativeDescriptors(t: Table, limit: nat, node: Node, r: Rec)
    requires limit <= U31 && r.fd >= U31 && (forall fd :: fd in t.fds ==> fd < U31)
    ensures var u := Effect(t, limit, node, r);
            && (u.Some? ==> u.value.fds == t.fds && forall o :: o in t.objs && o < t.next ==> u.value.objs[o] == t.objs[o])
            && (r.Dup? ==> (u.Some? <==> r.fd == EBADF))
            && (r.New? && !Supported(r.f.kind) ==> (u.Some? <==> r.fd == EBADF || r.fd == MINUS_ONE))
            && (r.New? && Supported(r.f.kind) ==> (u.Some? <==> r.fd == EBADF && Arrived(node, r.f).Some? && !Full(t.fds, limit)))
  {
  }

  /**
   * On a file that takes every position that is not negative and refuses the others with
   * -EINVAL, a record is restored with its position, or refused; but the position that
   * reads as -EINVAL is accepted, and the file is left at its start.
   */
  lemma SeekOnRegular(t: Table, limit: nat, node: Node, fd: nat, f: OpenFile)
    requires fd < limit && !Full(t.fds, limit) && Supported(f.kind) && node.opens(f.path, f.flags, f.mode).Some?
    requires f.pos < U64 && node.seek(f.path, f.pos) == if f.pos < U63 then f.pos else U64 - 22
    ensures var u := Effect(t, limit, node, New(fd, f));
            && (u.Some? <==> f.pos < U63 || f.pos == U64 - 22)
            && (u.Some? ==> u.value.objs[u.value.fds[fd]].pos == if f.pos < U63 then f.pos else 0)
  {
  }

  /** On a file that cannot be positioned only the position that reads as -ESPIPE is accepted. */
  lemma SeekOnTerminal(t: Table, limit: nat, node: Node, fd: nat, f: OpenFile)
    requires fd < limit && !Full(t.fds, limit) && Supported(f.kind) && node.opens(f.path, f.flags, f.mode).Some?
    requires f.pos < U64 && node.seek(f.path, f.pos) == U64 - 29
    ensures var u := Effect(t, limit, node, New(fd, f));
            && (u.Some? <==> f.pos == U64 - 29)
            && (u.Some? ==> u.value.objs[u.value.fds[fd]].pos == 0)
  {
  }

  /** Images that the restart accepts although their record restores nothing. */
  lemma AcceptedForNothing(t: Table, limit: nat, node: Node, first: nat)
    requires limit <= U31 && first < U32
    ensures var r := Dup(EBADF, first); Replay(t, limit, node, EncodeRec(r), 0, 1) == Some((t, |EncodeRec(r)|))
    ensures var r := New(MINUS_ONE, OpenFile([47], 0, 0, 0, 0xc000)); Replay(t, limit, node, EncodeRec(r), 0, 1) == Some((t, |EncodeRec(r)|))
  {
    hide EncodeRec, ParseRec;
    OneRecord(t, limit, node, Dup(EBADF, first));
    OneRecord(t, limit, node, New(MINUS_ONE, OpenFile([47], 0, 0, 0, 0xc000)));
  }

  lemma OneRecord(t: Table, limit: nat, node: Node, r: Rec)
    requires RecOk(r) && Effect(t, limit, node, r) == Some(t)
    ensures Replay(t, limit, node, EncodeRec(r), 0, 1) == Some((t, |EncodeRec(r)|))
  {
    hide EncodeRec, ParseRec, Effect;
    assert EncodeRec(r)[0..|EncodeRec(r)|] == EncodeRec(r);
    ParseEncoded(EncodeRec(r), 0, r);
    assert Replay(t, limit, node, EncodeRec(r), 0, 0) == Some((t, 0));
  }

  /** The table and the cursor after count records, or None if one of them is bad. */
  ghost function Replay(t: Table, limit: nat, node: Node, data: seq<byte>, pos: nat, count: nat): (r: Option<(Table, nat)>) {
    if count == 0 then Some((t, pos))
    else
      var before := Replay(t, limit, node, data, pos, count - 1);
      if before.None? then None else ReplayOne(before.value.0, limit, node, data, before.value.1)
  }

  ghost function ReplayOne(t: Table, limit: nat, node: Node, data: seq<byte>, pos: nat): (r: Option<(Table, nat)>) {
    var rec := ParseRec(data, pos);
    if rec.None? then None
    else
      var u := Effect(t, limit, node, rec.value.0);
      if u.None? then None else Some((u.value, rec.value.1))
  }

  lemma {:induction false} ReplayStops(t: Table, limit: nat, node: Node, data: seq<byte>, pos: nat, i: nat, count: nat)
    requires i <= count && Replay(t, limit, node, data, pos, i).None?
    ensures Replay(t, limit, node, data, pos, count).None?
    decreases count
  {
    hide ReplayOne;
    if i < count {
      ReplayStops(t, limit, node, data, pos, i, count - 1);
    }
  }

  /**
   * Opening, positioning and placing the file of a full record; a type that is not
   * restored opens nothing.
   */
  method RestoreNewFile(p: Process, node: Node, fd: nat, f: OpenFile) returns (ok: bool)
    requires p.Valid()
    modifies p`t
    ensures p.Valid()
    ensures var u := Effect(old(p.t), p.limit, node, New(fd, f)); (ok <==> u.Some?) && (ok ==> p.t == u.value)
  {
    hide Supported, KeptFlags, LowestFree;
    if Supported(f.kind) {
      ok := OpenRestored(p, node, fd, f);
    } else {
      assert p.t.fds - {MINUS_ONE} == p.t.fds;
      ok := p.Place(MINUS_ONE, fd);
    }
  }

  method OpenRestored(p: Process, node: Node, fd: nat, f: OpenFile) returns (ok: bool)
    requires p.Valid() && Supported(f.kind)
    modifies p`t
    ensures p.Valid()
    ensures var u := Effect(old(p.t), p.limit, node, New(fd, f)); (ok <==> u.Some?) && (ok ==> p.t == u.value)
  {
    hide Supported, KeptFlags;
    var ino := node.opens(f.path, f.flags, f.mode);
    if ino.None? {
      return false;
    }
    ghost var t := p.t;
    var got := p.Open(f.path, KeptFlags(f.flags), ino.value.mode, ino.value.kind);
    if got.None? {
      return false;
    }
    var sought := node.seek(f.path, f.pos);
    if sought != f.pos {
      return false;
    }
    if sought < U63 {
      p.Seek(got.value, sought);
    }
    ghost var g := Arrived(node, f).value;
    assert p.t.objs == t.objs[t.next := g];
    ok := p.Place(got.value, fd);
    assert ok ==> p.t.fds == if fd < p.limit then t.fds[fd := t.next] else t.fds;
  }

  /** tcmi_ckpt_openfile_read_newfd, for any content of the image. */
  method ReadNew(img: Image.File, p: Process, node: Node) returns (ok: bool)
    requires p.Valid()
    modifies img`pos, p`t
    ensures p.Valid()
    ensures var r := ParseNew(img.data, old(img.pos));
            && (ok <==> r.Some? && Effect(old(p.t), p.limit, node, r.value.0).Some?)
            && (ok ==> Effect(old(p.t), p.limit, node, r.value.0) == Some(p.t) && img.pos == r.value.1)
  {
    hide FromLe, Supported, Effect;
    var hdr := img.Read(28);
    if hdr.None? {
      return false;
    }
    var s := hdr.value;
    var pathSize := FromLe(s[24..]);
    if pathSize >= PAGE_SIZE {
      return false;
    }
    var name := img.Read(pathSize);
    if name.None? {
      return false;
    }
    var path := if pathSize == 0 then [] else name.value[..pathSize - 1];
    assert pathSize > 0 ==> path == img.data[old(img.pos) + 28..old(img.pos) + 28 + pathSize - 1];
    ok := RestoreNewFile(p, node, FromLe(s[..4]),
                         OpenFile(path, FromLe(s[4..12]), FromLe(s[12..16]), FromLe(s[16..20]), FromLe(s[20..24])));
  }

  /** tcmi_ckpt_openfile_read_dupfd: the result of dup2 is compared with the descriptor. */
  method ReadDup(img: Image.File, p: Process, ghost node: Node) returns (ok: bool)
    requires p.Valid()
    modifies img`pos, p`t
    ensures p.Valid()
    ensures var r := ParseDup(img.data, old(img.pos));
            && (ok <==> r.Some? && Effect(old(p.t), p.limit, node, r.value.0).Some?)
            && (ok ==> Effect(old(p.t), p.limit, node, r.value.0) == Some(p.t) && img.pos == r.value.1)
  {
    hide FromLe;
    var hdr := img.Read(8);
    if hdr.None? {
      return false;
    }
    assert hdr.value[..4] == img.data[old(img.pos)..old(img.pos) + 4];
    assert hdr.value[4..] == img.data[old(img.pos) + 4..old(img.pos) + 8];
    var to, from := FromLe(hdr.value[..4]), FromLe(hdr.value[4..]);
    var result := p.Dup2(from, to);
    ok := result == to;
  }

  /** tcmi_ckpt_openfile_read: a record of any other type is refused. */
  method ReadRec(img: Image.File, p: Process, node: Node) returns (ok: bool)
    requires p.Valid()
    modifies img`pos, p`t
    ensures p.Valid()
    ensures var r := ReplayOne(old(p.t), p.limit, node, img.data, old(img.pos));
            (ok <==> r.Some?) && (ok ==> r == Some((p.t, img.pos)))
  {
    hide FromLe, Effect, ParseNew, ParseDup;
    var hdr := img.Read(4);
    if hdr.None? {
      return false;
    }
    var kind := FromLe(hdr.value);
    if kind == 0 {
      ok := ReadNew(img, p, node);
    } else if kind == 1 {
      ok := ReadDup(img, p, node);
    } else {
      ok := false;
    }
  }

  /** tcmi_ckpt_read_files: as many records as the header of the checkpoint announces. */
  method ReadFiles(img: Image.File, p: Process, node: Node, count: nat) returns (ok: bool)
    requires p.Valid()
    modifies img`pos, p`t
    ensures p.Valid()
    ensures var r := Replay(old(p.t), p.limit, node, img.data, old(img.pos), count);
            (ok <==> r.Some?) && (ok ==> r == Some((p.t, img.pos)))
  {
    hide ReplayOne;
    var i := 0;
    ok := true;
    while i < count && ok
      invariant 0 <= i <= count && p.Valid() && img.data == old(img.data)
      invariant ok ==> Replay(old(p.t), p.limit, node, img.data, old(img.pos), i) == Some((p.t, img.pos))
      invariant !ok ==> Replay(old(p.t), p.limit, node, img.data, old(img.pos), i).None?
    {
      ok := ReadRec(img, p, node);
      i := i + 1;
    }
    if !ok {
      ReplayStops(old(p.t), p.limit, node, img.data, old(img.pos), i, count);
    }
  }

  /** Reading back records that were written has the effect of each of them in turn. */
  lemma {:induction false} ReplayEncoded(t: Table, limit: nat, node: Node, data: seq<byte>, pos: nat, rs: seq<Rec>)
    requires (forall r :: r in rs ==> RecOk(r)) && At(data, pos, EncodeRecs(rs))
    ensures var u := EffectAll(t, limit, node, rs);
            Replay(t, limit, node, data, pos, |rs|) == if u.None? then None else Some((u.value, pos + |EncodeRecs(rs)|))
    decreases |rs|
  {
    hide RecOk, EncodeRec, ParseRec, Effect;
    if rs != [] {
      var n := |rs| - 1;
      AtParts(data, pos, EncodeRecs(rs[..n]), EncodeRec(rs[n]));
      ReplayEncoded(t, limit, node, data, pos, rs[..n]);
      ParseEncoded(data, pos + |EncodeRecs(rs[..n])|, rs[n]);
    }
  }

  /** Every descriptor below n can be restored: it is below the limit, and its file opens there. */
  ghost predicate Restorable(t: Table, names: map<nat, seq<byte>>, n: nat, limit: nat, node: Node)
    requires Named(t, names)
  {
    forall fd :: fd in t.fds && fd < n ==> fd < limit && Arrived(node, Stored(t, names, fd)).Some?
  }

  /** The table as it arrives: each file as the node opens it under its name. */
  ghost function Landed(t: Table, names: map<nat, seq<byte>>, node: Node): (u: Table)
    requires Named(t, names)
    ensures Named(u, names) && u.fds == t.fds
  {
    t.(objs := map o | o in t.objs && o in names :: Landing(t.objs[o].(path := names[o]), node))
  }

  ghost function Landing(f: OpenFile, node: Node): (g: OpenFile) {
    var g := Arrived(node, f);
    if g.Some? then g.value else f
  }

  lemma LandedFile(t: Table, names: map<nat, seq<byte>>, node: Node, fd: nat)
    requires Named(t, names) && fd in t.fds
    ensures Stored(Landed(t, names, node), names, fd) == Landing(Stored(t, names, fd), node)
  {
    hide KeptFlags;
  }

  /** A file that arrives has its name, its position and its flags; its mode and type are the node's. */
  lemma LandingKeeps(f: OpenFile, node: Node)
    requires Sane(f) && Arrived(node, f).Some?
    ensures var g := Landing(f, node); g.path == f.path && g.pos == f.pos && g.flags == f.flags
    ensures var g, ino := Landing(f, node), node.opens(f.path, f.flags, f.mode);
            ino.Some? && g.mode == ino.value.mode && g.kind == ino.value.kind
  {
  }

  /** i_mode of every file of ProxyFS: a character device. */
  const PROXY_KIND: nat := 0x21a0

  ghost predicate ServesProxies(node: Node) {
    forall path, flags, mode :: Ascii(MNT_POINT) <= path && node.opens(path, flags, mode).Some? ==>
      node.opens(path, flags, mode).value.kind == PROXY_KIND
  }

  /** A special file that was overtaken, a pipe too, arrives as a character device. */
  lemma OvertakenKind(f: OpenFile, shadow: bool, pid: nat, ident: nat, node: Node)
    requires ServesProxies(node) && NeedsProxy(f, shadow)
    requires Arrived(node, f.(path := StoredPath(f, shadow, pid, ident))).Some?
    ensures Landing(f.(path := StoredPath(f, shadow, pid, ident)), node).kind == PROXY_KIND
  {
    hide KeptFlags;
    ProxyPathStarts(pid, ident % U16);
  }

  lemma ProxyPathStarts(pid: nat, ident: nat)
    ensures Ascii(MNT_POINT) <= Ascii(ProxyPath(pid, ident))
  {
    assert ProxyPath(pid, ident)[..|MNT_POINT|] == MNT_POINT;
    assert Ascii(ProxyPath(pid, ident))[..|MNT_POINT|] == Ascii(MNT_POINT);
  }

  /**
   * The records of a table restore it completely, each file as the node opens it, if
   * every descriptor can be restored, and fail otherwise, in any process that has none of
   * the descriptors open.
   */
  lemma {:induction false} EffectRecords(t0: Table, t: Table, names: map<nat, seq<byte>>, n: nat, limit: nat, node: Node)
    requires Named(t, names) && TableOk(t0) && t0.fds.Keys !! t.fds.Keys && n <= U31
    requires forall fd :: fd in t.fds && fd < n ==> Supported(t.objs[t.fds[fd]].kind)
    ensures EffectAll(t0, limit, node, Records(t, names, n)) ==
            if Restorable(t, names, n, limit, node) then Some(ApplyAll(t0, Records(Landed(t, names, node), names, n))) else None
  {
    hide Effect, Apply, RecordOf, Supported, Restorable, First, Restored, Landed;
    if n == 0 {
      NothingToRestore(t, names, limit, node);
    } else {
      EffectRecords(t0, t, names, n - 1, limit, node);
      var l := Landed(t, names, node);
      var rs, ls := Records(t, names, n - 1), Records(l, names, n - 1);
      RestorableStep(t, names, n - 1, limit, node);
      if n - 1 in t.fds {
        var r := RecordOf(t, names, n - 1);
        assert (rs + [r])[..|rs|] == rs;
        ApplySnoc(t0, ls, RecordOf(l, names, n - 1));
        if Restorable(t, names, n - 1, limit, node) {
          RestoreBelow(t0, l, names, n - 1);
          EffectRecord(t0, t, names, n - 1, limit, node, ApplyAll(t0, ls));
        }
      } else {
        assert rs + [] == rs && ls + [] == ls;
      }
    }
  }

  lemma NothingToRestore(t: Table, names: map<nat, seq<byte>>, limit: nat, node: Node)
    requires Named(t, names)
    ensures Restorable(t, names, 0, limit, node)
  {
  }

  lemma RestorableStep(t: Table, names: map<nat, seq<byte>>, n: nat, limit: nat, node: Node)
    requires Named(t, names)
    ensures Restorable(t, names, n + 1, limit, node) <==>
              Restorable(t, names, n, limit, node) && (n in t.fds ==> n < limit && Arrived(node, Stored(t, names, n)).Some?)
  {
    hide Arrived;
  }

  lemma EffectRecord(t0: Table, t: Table, names: map<nat, seq<byte>>, n: nat, limit: nat, node: Node, u: Table)
    requires Named(t, names) && TableOk(t0) && Restored(t0, Landed(t, names, node), names, n, u) && t0.fds.Keys !! t.fds.Keys
    requires n in t.fds && n < U31 && Supported(t.objs[t.fds[n]].kind) && Restorable(t, names, n, limit, node)
    ensures Effect(u, limit, node, RecordOf(t, names, n)) ==
            if n < limit && Arrived(node, Stored(t, names, n)).Some? then Some(Apply(u, RecordOf(Landed(t, names, node), names, n))) else None
  {
    var d := First(t.fds, n);
    assert n !in u.fds && (d < n ==> d in u.fds);
    LandedFile(t, names, node, n);
    StoredShared(t, names, n);
    hide Apply, Supported, First, TableOk, Landed, Restored, KeptFlags;
    assert d < n ==> Arrived(node, Stored(t, names, d)).Some?;
  }

  lemma StoredShared(t: Table, names: map<nat, seq<byte>>, n: nat)
    requires Named(t, names) && n in t.fds
    ensures Stored(t, names, First(t.fds, n)) == Stored(t, names, n)
  {
  }

  // ----- writing ---------------------------------------------------------------------------

  /** struct tcmi_fdcache: for each file already written, the descriptor it was written for. */
  class FdCache {
    const entries: array<(nat, nat)>
    var used: nat

    constructor (size: nat)
      ensures used == 0 && entries.Length == size && fresh(entries)
    {
      entries := new (nat, nat)[size];
      used := 0;
    }

    /** tcmi_fdcache_add: the caller ignores that a full cache refuses. */
    method Add(fd: nat, obj: nat) returns (result: int)
      requires used <= entries.Length
      modifies this`used, entries
      ensures result == if old(used) < entries.Length then 0 else -12
      ensures used <= entries.Length
      ensures entries[..used] == old(entries[..used]) + if result == 0 then [(fd, obj)] else []
    {
      if used == entries.Length {
        return -12;
      }
      entries[used] := (fd, obj);
      used := used + 1;
      result := 0;
    }

    /** tcmi_fdcache_lookup: the descriptor of the first entry for the file. */
    method Lookup(obj: nat) returns (fd: int)
      requires used <= entries.Length
      ensures fd < 0 ==> forall i :: 0 <= i < used ==> entries[i].1 != obj
      ensures fd >= 0 ==> exists i :: 0 <= i < used && entries[i] == (fd, obj)
    {
      for i := 0 to used
        invariant forall j :: 0 <= j < i ==> entries[j].1 != obj
      {
        if entries[i].1 == obj {
          return entries[i].0;
        }
      }
      fd := -22;
    }
  }

  /** The cache holds exactly the first descriptors below n of their files. */
  ghost predicate CacheOk(es: seq<(nat, nat)>, fds: map<nat, nat>, n: nat) {
    && (forall i :: 0 <= i < |es| ==> es[i].0 < n && es[i].0 in fds && es[i].1 == fds[es[i].0] && First(fds, es[i].0) == es[i].0)
    && (forall i, j :: 0 <= i < j < |es| ==> es[i].0 != es[j].0)
    && (forall fd :: fd in fds && fd < n && First(fds, fd) == fd ==> (fd, fds[fd]) in es)
  }

  lemma CacheAnswers(es: seq<(nat, nat)>, fds: map<nat, nat>, n: nat)
    requires CacheOk(es, fds, n) && n in fds
    ensures (forall i :: 0 <= i < |es| ==> es[i].1 != fds[n]) <==> First(fds, n) == n
    ensures forall i :: 0 <= i < |es| && es[i].1 == fds[n] ==> es[i].0 == First(fds, n) < n
  {
    var d := First(fds, n);
    forall i | 0 <= i < |es| && es[i].1 == fds[n]
      ensures es[i].0 == d < n
    {
      assert First(fds, es[i].0) == es[i].0;
    }
    if d < n {
      assert First(fds, d) == d;
      assert (d, fds[d]) in es;
    }
  }

  /** A cache as large as the number of open files is never full when one is added. */
  lemma {:induction false} CacheSize(es: seq<(nat, nat)>, fds: map<nat, nat>, n: nat)
    requires CacheOk(es, fds, n) && n in fds
    ensures |es| < |fds|
  {
    var ds := set i | 0 <= i < |es| :: es[i].0;
    Distinct(es, ds);
    assert ds <= fds.Keys - {n};
    Subset(ds, fds.Keys - {n});
  }

  lemma Subset(a: set<nat>, b: set<nat>)
    requires a <= b
    ensures |a| <= |b|
  {
    assert |b| == |a| + |b - a| by {
      assert b == a + (b - a);
    }
  }

  lemma {:induction false} Distinct(es: seq<(nat, nat)>, ds: set<nat>)
    requires ds == set i | 0 <= i < |es| :: es[i].0
    requires forall i, j :: 0 <= i < j < |es| ==> es[i].0 != es[j].0
    ensures |ds| == |es|
    decreases |es|
  {
    if es != [] {
      var k := |es| - 1;
      var rest := set i | 0 <= i < |es[..k]| :: es[..k][i].0;
      Distinct(es[..k], rest);
      assert ds == rest + {es[k].0};
      assert es[k].0 !in rest;
    }
  }

  // ----- names under which special files are stored -------------------------------------------

  function Ascii(s: string): (b: seq<byte>)
    ensures |b| == |s|
  {
    seq(|s|, i requires 0 <= i < |s| => s[i] as int % 256)
  }

  function Text(b: seq<byte>): (s: string)
    ensures |s| == |b|
  {
    seq(|b|, i requires 0 <= i < |b| => b[i] as char)
  }

  ghost predicate Plain(s: string) {
    forall i :: 0 <= i < |s| ==> s[i] as int < 256
  }

  lemma {:induction false} PrintPlain(n: nat)
    ensures Plain(Print(n))
  {
    if n >= 10 {
      PrintPlain(n / 10);
    }
  }

  lemma TextAscii(s: string)
    requires Plain(s)
    ensures Text(Ascii(s)) == s
  {
  }

  lemma PathPlain(pid: nat, ident: nat)
    ensures Plain(ProxyPath(pid, ident)) && Text(Ascii(ProxyPath(pid, ident))) == ProxyPath(pid, ident)
  {
    PrintPlain(pid);
    PrintPlain(ident);
    TextAscii(ProxyPath(pid, ident));
  }

  /** Devices and pipes of a migrating process are served by ProxyFS from now on. */
  predicate NeedsProxy(f: OpenFile, shadow: bool) {
    && !(Ascii(MNT_POINT) <= f.path) && IsSpecial(f.kind)
    && shadow && !(Ascii("/dev/null") <= f.path)
  }

  function StoredPath(f: OpenFile, shadow: bool, pid: nat, ident: nat): (p: seq<byte>) {
    if NeedsProxy(f, shadow) then Ascii(ProxyPath(pid, ident % U16)) else f.path
  }

  /** The name under which a file is stored: its own, unless it is a pipe or device of a migrating process. */
  lemma StoredName(f: OpenFile, shadow: bool, pid: nat, ident: nat)
    ensures StoredPath(f, shadow, pid, ident) ==
            if shadow && f.kind / 0x1000 % 16 in {1, 2} && !(Ascii("/mnt/proxy") <= f.path) && !(Ascii("/dev/null") <= f.path)
            then Ascii("/mnt/proxy/" + Print(pid) + "-" + Print(ident % 0x1_0000)) else f.path
  {
    hide Print, Ascii;
    assert ProxyPath(pid, ident % U16) == "/mnt/proxy/" + Print(pid) + "-" + Print(ident % 0x1_0000);
  }

  lemma {:induction false} PrintLength(n: nat, k: nat)
    requires k > 0 && n < Pow10(k)
    ensures |Print(n)| <= k
    decreases k
  {
    if n >= 10 {
      assert k > 1 by {
        assert k == 1 ==> Pow10(k) == 10;
      }
      PrintLength(n / 10, k - 1);
    }
  }

  lemma ProxyPathFits(pid: nat, ident: nat)
    requires pid < U31
    ensures |Ascii(ProxyPath(pid, ident % U16))| <= 27
  {
    assert Pow10(5) == 100_000;
    assert Pow10(10) == Pow10(5) * 100_000 by {
      assert Pow10(7) == 100 * Pow10(5);
      assert Pow10(10) == 1000 * Pow10(7);
    }
    PrintLength(pid, 10);
    PrintLength(ident % U16, 5);
  }

  // ----- the loop over all descriptors ---------------------------------------------------------

  /** The descriptors below n that are open: what tcmi_ckpt_file_count counts. */
  function CountBelow(fds: map<nat, nat>, n: nat): (c: nat) {
    if n == 0 then 0 else CountBelow(fds, n - 1) + if n - 1 in fds then 1 else 0
  }

  lemma {:induction false} CountIsSize(fds: map<nat, nat>, n: nat)
    ensures CountBelow(fds, n) == |set fd | fd in fds && fd < n|
  {
    if n > 0 {
      CountIsSize(fds, n - 1);
      var smaller := set fd | fd in fds && fd < n - 1;
      var all := set fd | fd in fds && fd < n;
      assert all == smaller + if n - 1 in fds then {n - 1} else {};
    }
  }

  lemma CountAll(fds: map<nat, nat>, n: nat)
    requires forall fd :: fd in fds ==> fd < n
    ensures CountBelow(fds, n) == |fds|
  {
    CountIsSize(fds, n);
    assert (set fd | fd in fds && fd < n) == fds.Keys;
  }

  lemma {:induction false} RecordsCount(t: Table, names: map<nat, seq<byte>>, n: nat)
    requires Named(t, names)
    ensures |Records(t, names, n)| == CountBelow(t.fds, n)
  {
    if n > 0 {
      RecordsCount(t, names, n - 1);
    }
  }

  lemma {:induction false} RecordsSame(t: Table, names: map<nat, seq<byte>>, other: map<nat, seq<byte>>, n: nat)
    requires Named(t, names) && Named(t, other)
    requires forall fd :: fd in t.fds && fd < n ==> names[t.fds[fd]] == other[t.fds[fd]]
    ensures Records(t, names, n) == Records(t, other, n)
  {
    if n > 0 {
      RecordsSame(t, names, other, n - 1);
    }
  }

  /** No record of a table has a number that does not fit its field. */
  lemma {:induction false} RecordsFit(t: Table, names: map<nat, seq<byte>>, n: nat)
    requires Named(t, names) && n <= U31
    requires forall fd :: fd in t.fds && fd < n ==> FileFits(Stored(t, names, fd)) && Short(names[t.fds[fd]])
    ensures forall r :: r in Records(t, names, n) ==> RecOk(r)
  {
    if n > 0 {
      RecordsFit(t, names, n - 1);
    }
  }

  /** The counter of proxyfs_server_overtake_file. */
  class IdentCounter {
    var ident: nat
  }

  /**
   * Each open file is stored under its own name, or under the proxy name of an
   * identifier given out in this checkpoint and to no other file of it.
   */
  ghost predicate NamesOk(t: Table, shadow: bool, pid: nat, lo: nat, hi: nat,
                          names: map<nat, seq<byte>>, idents: map<nat, nat>, n: nat)
    requires Named(t, names)
  {
    && (forall d :: d in idents ==> d < n && lo < idents[d] <= hi)
    && (forall d, e :: d in idents && e in idents && d != e ==> idents[d] != idents[e])
    && (forall fd :: fd in t.fds && fd < n ==> NameOk(t, shadow, pid, names, idents, fd))
  }

  /** idents maps the first descriptor of a file to the identifier the file got. */
  ghost predicate NameOk(t: Table, shadow: bool, pid: nat, names: map<nat, seq<byte>>, idents: map<nat, nat>, fd: nat)
    requires Named(t, names) && fd in t.fds
  {
    var f, d := t.objs[t.fds[fd]], First(t.fds, fd);
    && (NeedsProxy(f, shadow) ==> d in idents)
    && names[t.fds[fd]] == StoredPath(f, shadow, pid, if d in idents then idents[d] else 0)
  }

  /** A name given to the file of descriptor n does not touch files seen before. */
  lemma NameKept(t: Table, shadow: bool, pid: nat, names: map<nat, seq<byte>>, idents: map<nat, nat>, fd: nat, n: nat, path: seq<byte>, id: nat)
    requires Named(t, names) && fd in t.fds && NameOk(t, shadow, pid, names, idents, fd)
    requires n in t.fds && First(t.fds, n) == n && fd < n
    ensures var more := names[t.fds[n] := path];
            && Named(t, more)
            && NameOk(t, shadow, pid, more, idents, fd)
            && NameOk(t, shadow, pid, more, idents[n := id], fd)
  {
    hide NeedsProxy, StoredPath, FirstFrom;
    assert t.fds[fd] != t.fds[n];
  }

  lemma NameGiven(t: Table, shadow: bool, pid: nat, names: map<nat, seq<byte>>, idents: map<nat, nat>, n: nat, hi: nat)
    requires Named(t, names) && n in t.fds && First(t.fds, n) == n && n !in idents
    ensures var f := t.objs[t.fds[n]];
            var more := names[t.fds[n] := StoredPath(f, shadow, pid, hi + 1)];
            Named(t, more) && NameOk(t, shadow, pid, more, if NeedsProxy(f, shadow) then idents[n := hi + 1] else idents, n)
  {
  }

  lemma NamesNew(t: Table, shadow: bool, pid: nat, lo: nat, hi: nat, names: map<nat, seq<byte>>, idents: map<nat, nat>, n: nat)
    requires Named(t, names) && lo <= hi && NamesOk(t, shadow, pid, lo, hi, names, idents, n)
    requires n in t.fds && First(t.fds, n) == n
    ensures var f := t.objs[t.fds[n]];
            var need := NeedsProxy(f, shadow);
            var more := names[t.fds[n] := StoredPath(f, shadow, pid, hi + 1)];
            && Named(t, more)
            && NamesOk(t, shadow, pid, lo, if need then hi + 1 else hi, more, if need then idents[n := hi + 1] else idents, n + 1)
            && Records(t, more, n) == Records(t, names, n)
  {
    hide NeedsProxy, StoredPath, Records, NameOk, First, FirstFrom;
    var path := StoredPath(t.objs[t.fds[n]], shadow, pid, hi + 1);
    NameGiven(t, shadow, pid, names, idents, n, hi);
    forall fd | fd in t.fds && fd < n
      ensures NameOk(t, shadow, pid, names[t.fds[n] := path], idents, fd)
      ensures NameOk(t, shadow, pid, names[t.fds[n] := path], idents[n := hi + 1], fd)
    {
      NameKept(t, shadow, pid, names, idents, fd, n, path, hi + 1);
    }
    RecordsSame(t, names, names[t.fds[n] := path], n);
  }

  /** Two proxy paths of one owner are equal exactly when their numbers are. */
  lemma ProxyPathsDiffer(pid: nat, i: nat, j: nat)
    ensures Ascii(ProxyPath(pid, i)) == Ascii(ProxyPath(pid, j)) <==> i == j
  {
    hide Ascii, Text, ScanPair;
    if Ascii(ProxyPath(pid, i)) == Ascii(ProxyPath(pid, j)) {
      PathPlain(pid, i);
      PathPlain(pid, j);
      assert ProxyPath(pid, i)[|MNT_POINT| + 1..] == FileName(pid, i);
      assert ProxyPath(pid, j)[|MNT_POINT| + 1..] == FileName(pid, j);
      ScanFileName(pid, i);
      ScanFileName(pid, j);
    }
  }

  /**
   * Two special files are stored under different names if and only if their identifiers
   * differ modulo 65536, which holds for all of a checkpoint that gives out at most
   * 65536 of them.
   */
  lemma StoredNamesDiffer(t: Table, shadow: bool, pid: nat, lo: nat, hi: nat, names: map<nat, seq<byte>>, idents: map<nat, nat>, n: nat, a: nat, b: nat)
    requires TableOk(t) && Named(t, names) && NamesOk(t, shadow, pid, lo, hi, names, idents, n)
    requires a in t.fds && b in t.fds && a < n && b < n
    requires NeedsProxy(t.objs[t.fds[a]], shadow) && NeedsProxy(t.objs[t.fds[b]], shadow)
    ensures First(t.fds, a) in idents && First(t.fds, b) in idents
    ensures names[t.fds[a]] == names[t.fds[b]] <==> idents[First(t.fds, a)] % U16 == idents[First(t.fds, b)] % U16
    ensures hi - lo <= U16 ==> (names[t.fds[a]] == names[t.fds[b]] <==> t.fds[a] == t.fds[b])
  {
    hide NeedsProxy, Ascii, ProxyPath, FirstFrom;
    assert NameOk(t, shadow, pid, names, idents, a) && NameOk(t, shadow, pid, names, idents, b);
    var i, j := idents[First(t.fds, a)], idents[First(t.fds, b)];
    ProxyPathsDiffer(pid, i % U16, j % U16);
    SameResidue(lo, hi, i, j);
  }

  lemma SameResidue(lo: nat, hi: nat, i: nat, j: nat)
    requires lo < i <= hi && lo < j <= hi
    ensures hi - lo <= U16 && i % U16 == j % U16 ==> i == j
  {
  }

  lemma NameShared(t: Table, shadow: bool, pid: nat, names: map<nat, seq<byte>>, idents: map<nat, nat>, n: nat)
    requires Named(t, names) && n in t.fds && NameOk(t, shadow, pid, names, idents, First(t.fds, n))
    ensures NameOk(t, shadow, pid, names, idents, n)
  {
    hide NeedsProxy, StoredPath, FirstFrom;
    assert First(t.fds, First(t.fds, n)) == First(t.fds, n);
  }

  lemma NamesDup(t: Table, shadow: bool, pid: nat, lo: nat, hi: nat, names: map<nat, seq<byte>>, idents: map<nat, nat>, n: nat)
    requires Named(t, names) && NamesOk(t, shadow, pid, lo, hi, names, idents, n)
    requires n in t.fds ==> First(t.fds, n) < n
    ensures NamesOk(t, shadow, pid, lo, hi, names, idents, n + 1)
  {
    hide NameOk, First, FirstFrom;
    if n in t.fds {
      NameShared(t, shadow, pid, names, idents, n);
    }
  }

  lemma CacheNext(es: seq<(nat, nat)>, fds: map<nat, nat>, n: nat)
    requires CacheOk(es, fds, n)
    ensures n in fds && First(fds, n) == n ==> CacheOk(es + [(n, fds[n])], fds, n + 1)
    ensures (n in fds && First(fds, n) == n) || CacheOk(es, fds, n + 1)
  {
    hide FirstFrom;
  }

  /**
   * The full record of descriptor fd can be written: d_path has room for the path, and
   * a file that has to be served by ProxyFS can be overtaken by its server.
   */
  ghost predicate NewOk(t: Table, shadow: bool, takable: set<nat>, fd: nat)
    requires TableOk(t) && fd in t.fds
  {
    var f := t.objs[t.fds[fd]];
    PathFits(f.path) && (NeedsProxy(f, shadow) ==> t.fds[fd] in takable)
  }

  ghost predicate Writable(t: Table, shadow: bool, takable: set<nat>)
    requires TableOk(t)
  {
    forall fd :: fd in t.fds ==> NewOk(t, shadow, takable, fd)
  }

  /**
   * The record of a file's first descriptor, and the cache entry for the others. When
   * the name cannot be had, the type of the record has been written and nothing else.
   */
  method WriteNew(img: Image.File, cache: FdCache, t: Table, fd: nat, shadow: bool, pid: nat, takable: set<nat>, counter: IdentCounter)
    returns (ok: bool)
    requires TableOk(t) && fd in t.fds && |img.data| <= img.pos && cache.used < cache.entries.Length
    modifies img, cache, cache.entries, counter
    ensures |img.data| <= img.pos && cache.used <= cache.entries.Length && (ok <==> NewOk(t, shadow, takable, fd))
    ensures ok ==> cache.entries[..cache.used] == old(cache.entries[..cache.used]) + [(fd, t.fds[fd])]
    ensures var f := t.objs[t.fds[fd]];
            if ok then
              && counter.ident == old(counter.ident) + (if NeedsProxy(f, shadow) then 1 else 0)
              && img.Full() == old(img.Full()) + EncodeRec(New(fd, f.(path := StoredPath(f, shadow, pid, old(counter.ident) + 1))))
            else
              && old(counter.ident) <= counter.ident <= old(counter.ident) + 1
              && img.Full() == old(img.Full()) + Le(0, 4)
  {
    hide EncodeNew, NeedsProxy, Le, PathFits;
    ghost var before := img.Full();
    img.Write(Le(0, 4));
    var f := t.objs[t.fds[fd]];
    if !PathFits(f.path) {
      return false;
    }
    var path := f.path;
    if NeedsProxy(f, shadow) {
      counter.ident := counter.ident + 1;
      if t.fds[fd] !in takable {
        return false;
      }
      path := Ascii(ProxyPath(pid, counter.ident % U16));
    }
    WriteFields(img, fd, f.(path := path));
    Assoc(before, Le(0, 4), EncodeNew(fd, f.(path := path)) + (path + [0]));
    var _ := cache.Add(fd, t.fds[fd]);
    ok := true;
  }

  method WriteFields(img: Image.File, fd: nat, f: OpenFile)
    requires |img.data| <= img.pos
    modifies img
    ensures |img.data| <= img.pos && img.Full() == old(img.Full()) + (EncodeNew(fd, f) + (f.path + [0]))
  {
    hide EncodeNew;
    ghost var before := img.Full();
    img.Write(EncodeNew(fd, f));
    img.Write(f.path + [0]);
    Assoc(before, EncodeNew(fd, f), f.path + [0]);
  }

  method WriteDup(img: Image.File, fd: nat, first: nat)
    requires |img.data| <= img.pos
    modifies img
    ensures |img.data| <= img.pos && img.Full() == old(img.Full()) + EncodeRec(Dup(fd, first))
  {
    hide Le;
    ghost var before := img.Full();
    img.Write(Le(1, 4));
    img.Write(Le(fd, 4) + Le(first, 4));
    Assoc(before, Le(1, 4), Le(fd, 4) + Le(first, 4));
  }

  /** tcmi_ckpt_openfile_write: a short record if the cache knows the file, a full one if not. */
  method WriteFile(img: Image.File, cache: FdCache, t: Table, fd: nat, shadow: bool, pid: nat, takable: set<nat>, counter: IdentCounter,
                   ghost lo: nat, ghost names: map<nat, seq<byte>>, ghost idents: map<nat, nat>)
    returns (ok: bool, ghost more: map<nat, seq<byte>>, ghost given: map<nat, nat>)
    requires TableOk(t) && fd in t.fds && |img.data| <= img.pos && Named(t, names)
    requires cache.used <= cache.entries.Length == |t.fds| && CacheOk(cache.entries[..cache.used], t.fds, fd)
    requires lo <= counter.ident && NamesOk(t, shadow, pid, lo, counter.ident, names, idents, fd)
    modifies img, cache, cache.entries, counter
    ensures |img.data| <= img.pos && Named(t, more) && lo <= counter.ident
    ensures ok <==> (First(t.fds, fd) == fd ==> NewOk(t, shadow, takable, fd))
    ensures ok ==> cache.used <= cache.entries.Length && CacheOk(cache.entries[..cache.used], t.fds, fd + 1)
    ensures img.Full() == old(img.Full()) + if ok then EncodeRec(RecordOf(t, more, fd)) else Le(0, 4)
    ensures Records(t, more, fd) == Records(t, names, fd)
    ensures NamesOk(t, shadow, pid, lo, counter.ident, more, given, if ok then fd + 1 else fd)
  {
    hide EncodeRec, NamesOk, StoredPath, NeedsProxy, Records, CacheOk, FirstFrom, Named, NewOk, Le;
    CacheNext(cache.entries[..cache.used], t.fds, fd);
    CacheAnswers(cache.entries[..cache.used], t.fds, fd);
    more, given := names, idents;
    var first := cache.Lookup(t.fds[fd]);
    if first >= 0 {
      WriteDup(img, fd, first);
      NamesDup(t, shadow, pid, lo, counter.ident, names, idents, fd);
      return true, more, given;
    }
    CacheSize(cache.entries[..cache.used], t.fds, fd);
    NamesNew(t, shadow, pid, lo, counter.ident, names, idents, fd);
    ghost var f, ident := t.objs[t.fds[fd]], counter.ident;
    ok := WriteNew(img, cache, t, fd, shadow, pid, takable, counter);
    if ok {
      more := names[t.fds[fd] := StoredPath(f, shadow, pid, ident + 1)];
      given := if NeedsProxy(f, shadow) then idents[fd := ident + 1] else idents;
    } else {
      NamesSpent(t, shadow, pid, lo, ident, counter.ident, names, idents, fd);
    }
  }

  /** An identifier that was spent in vain is given to no file. */
  lemma NamesSpent(t: Table, shadow: bool, pid: nat, lo: nat, hi: nat, more: nat, names: map<nat, seq<byte>>, idents: map<nat, nat>, n: nat)
    requires Named(t, names) && hi <= more && NamesOk(t, shadow, pid, lo, hi, names, idents, n)
    ensures NamesOk(t, shadow, pid, lo, more, names, idents, n)
  {
    hide NameOk, First, FirstFrom;
  }

  /** The first descriptor whose record cannot be written. */
  ghost predicate StopsAt(t: Table, shadow: bool, takable: set<nat>, stop: nat)
    requires TableOk(t)
  {
    && stop in t.fds && !NewOk(t, shadow, takable, stop)
    && forall fd :: fd in t.fds && fd < stop ==> NewOk(t, shadow, takable, fd)
  }

  /**
   * tcmi_ckpt_write_files: every open descriptor, in ascending order, up to the first
   * one whose record cannot be written.
   */
  method WriteFiles(img: Image.File, t: Table, n: nat, shadow: bool, pid: nat, takable: set<nat>, counter: IdentCounter)
    returns (ok: bool, ghost names: map<nat, seq<byte>>, ghost idents: map<nat, nat>, ghost stop: nat)
    requires TableOk(t) && (forall fd :: fd in t.fds ==> fd < n) && |img.data| <= img.pos
    modifies img, counter
    ensures |img.data| <= img.pos && Named(t, names) && (ok <==> Writable(t, shadow, takable))
    ensures if ok then stop == n else StopsAt(t, shadow, takable, stop)
    ensures img.Full() == old(img.Full()) + EncodeRecs(Records(t, names, stop)) + if ok then [] else Le(0, 4)
    ensures old(counter.ident) <= counter.ident
    ensures NamesOk(t, shadow, pid, old(counter.ident), counter.ident, names, idents, stop)
  {
    hide EncodeRec, NamesOk, Records, EncodeRecs, CacheOk, FirstFrom, Named, RecordOf, NewOk, Le;
    ghost var before, lo := img.Full(), counter.ident;
    names, idents := map o | o in t.objs :: t.objs[o].path, map[];
    NamesStart(t, shadow, pid, lo, names, before);
    var cache := new FdCache(|t.fds|);
    assert cache.entries[..cache.used] == [];
    var fd := 0;
    while fd < n
      invariant 0 <= fd <= n && |img.data| <= img.pos && Named(t, names)
      invariant cache.used <= cache.entries.Length == |t.fds|
      invariant CacheOk(cache.entries[..cache.used], t.fds, fd)
      invariant img.Full() == before + EncodeRecs(Records(t, names, fd))
      invariant lo <= counter.ident && NamesOk(t, shadow, pid, lo, counter.ident, names, idents, fd)
      invariant forall k :: k in t.fds && k < fd ==> NewOk(t, shadow, takable, k)
    {
      if fd in t.fds {
        SharedNewOk(t, shadow, takable, fd);
        ok, names, idents := WriteFile(img, cache, t, fd, shadow, pid, takable, counter, lo, names, idents);
        if !ok {
          return false, names, idents, fd;
        }
        EncodeLast(before, t, names, fd);
      } else {
        CacheNext(cache.entries[..cache.used], t.fds, fd);
        NamesDup(t, shadow, pid, lo, counter.ident, names, idents, fd);
        RecordsGap(t, names, fd);
      }
      fd := fd + 1;
    }
    ok, stop := true, n;
    assert img.Full() + [] == img.Full();
  }

  lemma SharedNewOk(t: Table, shadow: bool, takable: set<nat>, fd: nat)
    requires TableOk(t) && fd in t.fds
    ensures NewOk(t, shadow, takable, fd) <==> NewOk(t, shadow, takable, First(t.fds, fd))
  {
  }

  lemma EncodeLast(before: seq<byte>, t: Table, names: map<nat, seq<byte>>, fd: nat)
    requires Named(t, names) && fd in t.fds
    ensures before + EncodeRecs(Records(t, names, fd + 1))
         == (before + EncodeRecs(Records(t, names, fd))) + EncodeRec(RecordOf(t, names, fd))
  {
    hide EncodeRec, RecordOf;
    var rs, r := Records(t, names, fd), RecordOf(t, names, fd);
    assert (rs + [r])[..|rs|] == rs;
    Assoc(before, EncodeRecs(rs), EncodeRec(r));
  }

  lemma RecordsGap(t: Table, names: map<nat, seq<byte>>, fd: nat)
    requires Named(t, names) && fd !in t.fds
    ensures Records(t, names, fd + 1) == Records(t, names, fd)
  {
    assert Records(t, names, fd) + [] == Records(t, names, fd);
  }

  lemma NamesStart(t: Table, shadow: bool, pid: nat, lo: nat, names: map<nat, seq<byte>>, before: seq<byte>)
    requires TableOk(t) && names.Keys == t.objs.Keys
    ensures Named(t, names) && NamesOk(t, shadow, pid, lo, lo, names, map[], 0)
    ensures CacheOk([], t.fds, 0) && before + EncodeRecs(Records(t, names, 0)) == before
  {
  }
}
