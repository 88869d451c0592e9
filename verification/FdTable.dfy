// A process's file descriptors and the system calls that the checkpoint and fork
// code uses on them: open (POSIX.1-2017 System Interfaces, section 2.14: the lowest
// free descriptor), dup2, close and lseek. Descriptors and results that C keeps in an
// int are 32-bit words here, so that a negative number is a word from U31 on.

module FdTable {
  import opened Bytes
  import opened Files

  const U31: nat := 0x8000_0000
  const MINUS_ONE: nat := 0xffff_ffff
  /** -EBADF. */
  const EBADF: nat := 0xffff_fff7

  const U63: nat := 0x8000_0000_0000_0000

  /** struct file: what open was given, and the position. */
  datatype OpenFile = OpenFile(path: seq<byte>, pos: nat, flags: nat, mode: nat, kind: nat)

  /** What the kernel of a node makes of an opened file besides what open was told. */
  datatype Inode = Inode(mode: nat, kind: nat)

  /**
   * A node as far as its kernel answers the code: do_sys_open of a path with flags and
   * mode, vfs_llseek of the file so opened to a position (64-bit words, so that an error
   * is a word from U63 on), the directories that path_lookup finds, the bound of any
   * descriptor table, the largest kmalloc, and whether a program that a non-preemptive
   * checkpoint names can be executed.
   */
  datatype Node = Node(opens: (seq<byte>, nat, nat) -> Option<Inode>, seek: (seq<byte>, nat) -> nat,
                       dirs: set<seq<byte>>, nrOpen: nat, kmax: nat, starts: bool)

  /** open drops O_CREAT, O_EXCL, O_NOCTTY and O_TRUNC from the flags of the file. */
  function KeptFlags(flags: nat): (g: nat)
  {
    flags % 64 + flags / 1024 * 1024
  }

  /** Exactly bits 6 to 9 are cleared. */
  lemma KeptBits(flags: nat)
    ensures var g := KeptFlags(flags); g % 64 == flags % 64 && g / 64 % 16 == 0 && g / 1024 == flags / 1024
  {
    Digits(flags / 1024, flags % 64);
  }

  lemma Digits(q: nat, r: nat)
    requires r < 64
    ensures var g := r + q * 1024; g % 64 == r && g / 64 == 16 * q && g / 1024 == q
  {
  }

  /** What every struct file satisfies. */
  predicate Sane(f: OpenFile) {
    f.pos < U63 && KeptFlags(f.flags) == f.flags
  }

  lemma SaneMeans(f: OpenFile)
    ensures Sane(f) <==> f.pos < 0x8000_0000_0000_0000 && f.flags / 64 % 16 == 0
  {
    KeptBits(f.flags);
    if f.flags / 64 % 16 == 0 {
      assert f.flags / 64 == 16 * (f.flags / 1024);
    }
  }

  /**
   * The file that opening and positioning f on a node yields, if that succeeds: the code
   * takes the seek for successful when its result equals the position asked for. An
   * error can equal it, and then the file has not been positioned.
   */
  function Arrived(node: Node, f: OpenFile): (g: Option<OpenFile>) {
    var ino := node.opens(f.path, f.flags, f.mode);
    if ino.None? || node.seek(f.path, f.pos) != f.pos then None
    else Some(OpenFile(f.path, if f.pos < U63 then f.pos else 0, KeptFlags(f.flags), ino.value.mode, ino.value.kind))
  }

  /** Descriptors point to file objects; several may point to the same one. */
  datatype Table = Table(fds: map<nat, nat>, objs: map<nat, OpenFile>, next: nat)

  ghost predicate TableOk(t: Table) {
    && (forall fd :: fd in t.fds ==> t.fds[fd] in t.objs)
    && (forall o :: o in t.objs ==> o < t.next)
  }

  ghost predicate LowestFree(fds: map<nat, nat>, n: nat) {
    n !in fds && forall k :: 0 <= k < n ==> k in fds
  }

  /** No descriptor below the limit is free. */
  ghost predicate Full(fds: map<nat, nat>, limit: nat) {
    forall k :: 0 <= k < limit ==> k in fds
  }

  /** Two tables in which the same descriptors are open and share files alike. */
  ghost predicate SameSharing(t: Table, u: Table) {
    && t.fds.Keys == u.fds.Keys
    && forall a, b :: a in t.fds && b in t.fds ==> (t.fds[a] == t.fds[b] <==> u.fds[a] == u.fds[b])
  }

  class Process {
    var t: Table
    /** The bound that new descriptors have to stay below. Older ones may lie above it. */
    var limit: nat
    var cwd: seq<byte>

    ghost predicate Valid()
      reads this
    {
      TableOk(t) && limit <= U31 && forall fd :: fd in t.fds ==> fd < U31
    }

    constructor (t: Table, limit: nat)
      requires TableOk(t) && limit <= U31 && (forall fd :: fd in t.fds ==> fd < U31)
      ensures Valid() && this.t == t && this.limit == limit
    {
      this.t, this.limit, cwd := t, limit, [47];
    }

    /** Reading off the lowest free descriptor. */
    method FindFree() returns (fd: nat)
      ensures LowestFree(t.fds, fd)
    {
      fd := 0;
      ghost var left := t.fds.Keys;
      while fd in t.fds
        invariant forall k :: 0 <= k < fd ==> k in t.fds
        invariant left <= t.fds.Keys && (forall k :: k in t.fds && k >= fd ==> k in left)
        decreases |left|
      {
        left := left - {fd};
        fd := fd + 1;
      }
    }

    /** Fails with EMFILE when no descriptor is free. */
    method Open(path: seq<byte>, flags: nat, mode: nat, kind: nat) returns (result: Option<nat>)
      requires Valid()
      modifies this`t
      ensures Valid() && (result.None? <==> Full(old(t.fds), limit))
      ensures result.None? ==> t == old(t)
      ensures result.Some? ==> LowestFree(old(t.fds), result.value) && result.value < limit
      ensures result.Some? ==> t == Table(old(t.fds)[result.value := old(t.next)],
                                          old(t.objs)[old(t.next) := OpenFile(path, 0, flags, mode, kind)], old(t.next) + 1)
    {
      var fd := FindFree();
      if fd >= limit {
        return None;
      }
      t := Table(t.fds[fd := t.next], t.objs[t.next := OpenFile(path, 0, flags, mode, kind)], t.next + 1);
      result := Some(fd);
    }

    /**
     * Fails for a descriptor that is not open and for another target that is negative or
     * not below the limit; otherwise silently closes the target.
     */
    method Dup2(from: nat, to: nat) returns (result: nat)
      requires Valid()
      modifies this`t
      ensures Valid() && result == if from in old(t.fds) && (to < limit || to == from) then to else EBADF
      ensures t == if from in old(t.fds) && (to < limit || to == from) then old(t).(fds := old(t.fds)[to := old(t.fds)[from]]) else old(t)
    {
      if from !in t.fds || (to >= limit && to != from) {
        return EBADF;
      }
      t := t.(fds := t.fds[to := t.fds[from]]);
      result := to;
    }

    method Close(fd: nat)
      requires Valid()
      modifies this`t
      ensures Valid() && t == old(t).(fds := old(t.fds) - {fd})
    {
      t := t.(fds := t.fds - {fd});
    }

    /** The close-on-exec descriptors, when a new program is started. */
    method CloseAll(gone: set<nat>)
      requires Valid()
      modifies this`t
      ensures Valid() && t == old(t).(fds := old(t.fds) - gone)
    {
      t := t.(fds := t.fds - gone);
    }

    method SetLimit(bound: nat)
      requires Valid() && bound <= U31
      modifies this`limit
      ensures Valid() && limit == bound
    {
      limit := bound;
    }

    method Seek(fd: nat, pos: nat)
      requires Valid() && fd in t.fds
      modifies this`t
      ensures Valid() && t == old(t.(objs := t.objs[t.fds[fd] := t.objs[t.fds[fd]].(pos := pos)]))
    {
      t := t.(objs := t.objs[t.fds[fd] := t.objs[t.fds[fd]].(pos := pos)]);
    }

    /**
     * Moves what open returned to the wanted descriptor if it is another one: dup2,
     * and close. The result of dup2 is compared with the wanted descriptor, so that a
     * wanted descriptor of -EBADF passes for success; got is -1 when nothing was opened.
     */
    method Place(got: nat, want: nat) returns (ok: bool)
      requires Valid() && (got in t.fds || got == MINUS_ONE)
      modifies this`t
      ensures Valid() && (ok <==> want == got || want == EBADF || (got in old(t.fds) && want < limit))
      ensures ok ==> t == old(t).(fds := if want == got then old(t.fds)
                                         else if want < limit then old(t.fds)[want := old(t.fds)[got]] - {got}
                                         else old(t.fds) - {got})
    {
      if want != got {
        var result := Dup2(got, want);
        if result != want {
          return false;
        }
        Close(got);
      }
      ok := true;
    }
  }
}
