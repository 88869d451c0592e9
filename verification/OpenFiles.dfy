// Open files in the checkpoint: one record per descriptor, a full one for the first
// descriptor of a file and a short one for each further descriptor of it
// (src/tcmi/ckpt/tcmi_ckpt_openfile.c, src/tcmi/ckpt/tcmi_ckpt.c).

module OpenFiles {
  import opened Bytes
  import opened Files
  import opened Names
  import opened FdTable

  datatype Rec = New(fd: nat, f: OpenFile) | Dup(fd: nat, first: nat)

  /** The lowest descriptor from k on that refers to the object of descriptor fd. */
  function FirstFrom(fds: map<nat, nat>, fd: nat, k: nat): (d: nat)
    requires fd in fds && k <= fd
    ensures k <= d <= fd && d in fds && fds[d] == fds[fd]
    ensures forall j :: k <= j < d && j in fds ==> fds[j] != fds[fd]
    decreases fd - k
  {
    if k in fds && fds[k] == fds[fd] then k else FirstFrom(fds, fd, k + 1)
  }

  function First(fds: map<nat, nat>, fd: nat): (d: nat)
    requires fd in fds
    ensures d <= fd && d in fds && fds[d] == fds[fd]
    ensures forall j :: 0 <= j < d && j in fds ==> fds[j] != fds[fd]
  {
    FirstFrom(fds, fd, 0)
  }

  /** The file a record stores: as it is open, under the name it is to be opened by. */
  function Stored(t: Table, names: map<nat, seq<byte>>, fd: nat): (f: OpenFile)
    requires fd in t.fds && t.fds[fd] in t.objs && t.fds[fd] in names
  {
    t.objs[t.fds[fd]].(path := names[t.fds[fd]])
  }

  ghost predicate Named(t: Table, names: map<nat, seq<byte>>) {
    forall fd :: fd in t.fds ==> t.fds[fd] in t.objs && t.fds[fd] in names
  }

  /** The record of one descriptor. */
  ghost function RecordOf(t: Table, names: map<nat, seq<byte>>, fd: nat): (r: Rec)
    requires Named(t, names) && fd in t.fds
  {
    var d := First(t.fds, fd);
    if d == fd then New(fd, Stored(t, names, fd)) else Dup(fd, d)
  }

  /** The records of all descriptors below n, in the order of the descriptors. */
  ghost function Records(t: Table, names: map<nat, seq<byte>>, n: nat): (rs: seq<Rec>)
    requires Named(t, names)
  {
    if n == 0 then []
    else Records(t, names, n - 1) + if n - 1 in t.fds then [RecordOf(t, names, n - 1)] else []
  }

  // ----- restoring ----------------------------------------------------------------------

  /** What one record does to the descriptor table of the restarted process. */
  ghost function Apply(t: Table, r: Rec): (u: Table) {
    match r
    case New(fd, f) => Table(t.fds[fd := t.next], t.objs[t.next := f], t.next + 1)
    case Dup(fd, first) => if first in t.fds then t.(fds := t.fds[fd := t.fds[first]]) else t
  }

  ghost function ApplyAll(t: Table, rs: seq<Rec>): (u: Table) {
    if rs == [] then t else Apply(ApplyAll(t, rs[..|rs| - 1]), rs[|rs| - 1])
  }

  lemma ApplySnoc(t: Table, rs: seq<Rec>, r: Rec)
    ensures ApplyAll(t, rs + [r]) == Apply(ApplyAll(t, rs), r)
  {
    assert (rs + [r])[..|rs|] == rs;
  }

  /** The descriptors of t below n are open in u, next to those of t0. */
  ghost predicate RestoredKeys(t0: Table, t: Table, n: nat, u: Table) {
    && TableOk(u) && t0.next <= u.next
    && (forall fd :: fd in u.fds <==> fd in t0.fds || (fd in t.fds && fd < n))
    && (forall fd :: fd in u.fds && !(fd in t.fds && fd < n) ==> u.fds[fd] == t0.fds[fd])
    && (forall o :: o in t0.objs ==> o in u.objs && u.objs[o] == t0.objs[o])
  }

  /** Descriptors below n share files in uf as in tf. */
  ghost predicate SharedAlike(tf: map<nat, nat>, uf: map<nat, nat>, n: nat) {
    forall a, b :: a in tf && b in tf && a < n && b < n ==> a in uf && b in uf && (uf[a] == uf[b] <==> tf[a] == tf[b])
  }

  /** A descriptor refers to a new file like the one it referred to. */
  ghost predicate FileBack(t0: Table, t: Table, names: map<nat, seq<byte>>, u: Table, fd: nat)
    requires Named(t, names) && fd in t.fds
  {
    && fd in u.fds && t0.next <= u.fds[fd] < u.next
    && u.fds[fd] in u.objs && u.objs[u.fds[fd]] == Stored(t, names, fd)
  }

  /** They refer to new files like those they referred to, shared in the same way. */
  ghost predicate RestoredFiles(t0: Table, t: Table, names: map<nat, seq<byte>>, n: nat, u: Table)
    requires Named(t, names)
  {
    && (forall fd :: fd in t.fds && fd < n ==> FileBack(t0, t, names, u, fd))
    && SharedAlike(t.fds, u.fds, n)
  }

  ghost predicate Restored(t0: Table, t: Table, names: map<nat, seq<byte>>, n: nat, u: Table)
    requires Named(t, names)
  {
    RestoredKeys(t0, t, n, u) && RestoredFiles(t0, t, names, n, u)
  }

  lemma RestoreNew(t0: Table, t: Table, names: map<nat, seq<byte>>, n: nat, u: Table)
    requires Named(t, names) && TableOk(t0) && Restored(t0, t, names, n, u)
    requires n in t.fds && First(t.fds, n) == n
    ensures Restored(t0, t, names, n + 1, Apply(u, New(n, Stored(t, names, n))))
  {
    hide RestoredFiles, First, Apply;
    NewKeys(t0, t, n, u, Stored(t, names, n));
    NewFiles(t0, t, names, n, u);
  }

  lemma NewFiles(t0: Table, t: Table, names: map<nat, seq<byte>>, n: nat, u: Table)
    requires Named(t, names) && RestoredFiles(t0, t, names, n, u) && t0.next <= u.next
    requires n in t.fds && First(t.fds, n) == n
    ensures RestoredFiles(t0, t, names, n + 1, Apply(u, New(n, Stored(t, names, n))))
  {
    hide FirstFrom, SharedAlike;
    forall fd | fd in t.fds && fd < n + 1
      ensures FileBack(t0, t, names, Apply(u, New(n, Stored(t, names, n))), fd)
    {
      assert fd < n ==> FileBack(t0, t, names, u, fd);
    }
    NewSharing(t.fds, u.fds, n, u.next);
  }

  lemma NewSharing(tf: map<nat, nat>, uf: map<nat, nat>, n: nat, next: nat)
    requires n in tf && (forall fd :: fd in tf && fd < n ==> fd in uf && uf[fd] < next && tf[fd] != tf[n])
    requires SharedAlike(tf, uf, n)
    ensures SharedAlike(tf, uf[n := next], n + 1)
  {
  }

  lemma NewKeys(t0: Table, t: Table, n: nat, u: Table, f: OpenFile)
    requires TableOk(t0) && RestoredKeys(t0, t, n, u) && n in t.fds
    ensures RestoredKeys(t0, t, n + 1, Apply(u, New(n, f)))
  {
  }

  lemma RestoreDup(t0: Table, t: Table, names: map<nat, seq<byte>>, n: nat, u: Table)
    requires Named(t, names) && TableOk(t0) && Restored(t0, t, names, n, u)
    requires n in t.fds && First(t.fds, n) < n
    ensures Restored(t0, t, names, n + 1, Apply(u, Dup(n, First(t.fds, n))))
  {
    hide RestoredKeys, RestoredFiles, Apply, FirstFrom;
    DupKeys(t0, t, n, u, First(t.fds, n));
    DupFiles(t0, t, names, n, u, First(t.fds, n));
  }

  lemma DupKeys(t0: Table, t: Table, n: nat, u: Table, d: nat)
    requires TableOk(t0) && RestoredKeys(t0, t, n, u) && n in t.fds && d in t.fds && d < n
    ensures RestoredKeys(t0, t, n + 1, Apply(u, Dup(n, d)))
  {
  }

  lemma DupFiles(t0: Table, t: Table, names: map<nat, seq<byte>>, n: nat, u: Table, d: nat)
    requires Named(t, names) && RestoredFiles(t0, t, names, n, u)
    requires n in t.fds && d in t.fds && d < n && t.fds[d] == t.fds[n]
    ensures RestoredFiles(t0, t, names, n + 1, Apply(u, Dup(n, d)))
  {
    hide SharedAlike;
    forall fd | fd in t.fds && fd < n + 1
      ensures FileBack(t0, t, names, Apply(u, Dup(n, d)), fd)
    {
      assert FileBack(t0, t, names, u, if fd == n then d else fd);
    }
    DupSharing(t.fds, u.fds, n, d);
  }

  lemma DupSharing(tf: map<nat, nat>, uf: map<nat, nat>, n: nat, d: nat)
    requires n in tf && d in tf && d < n && tf[d] == tf[n] && d in uf && SharedAlike(tf, uf, n)
    ensures SharedAlike(tf, uf[n := uf[d]], n + 1)
  {
  }

  lemma {:induction false} RestoreBelow(t0: Table, t: Table, names: map<nat, seq<byte>>, n: nat)
    requires Named(t, names) && TableOk(t0)
    ensures Restored(t0, t, names, n, ApplyAll(t0, Records(t, names, n)))
  {
    hide Restored, Apply, RecordOf;
    if n == 0 {
      RestoreNothing(t0, t, names);
    } else {
      RestoreBelow(t0, t, names, n - 1);
      var rs := Records(t, names, n - 1);
      if n - 1 in t.fds {
        ApplySnoc(t0, rs, RecordOf(t, names, n - 1));
        RestoreOne(t0, t, names, n - 1, ApplyAll(t0, rs));
      } else {
        assert rs + [] == rs;
        RestoreGap(t0, t, names, n - 1, ApplyAll(t0, rs));
      }
    }
  }

  lemma RestoreNothing(t0: Table, t: Table, names: map<nat, seq<byte>>)
    requires Named(t, names) && TableOk(t0)
    ensures Restored(t0, t, names, 0, t0)
  {
  }

  lemma RestoreGap(t0: Table, t: Table, names: map<nat, seq<byte>>, n: nat, u: Table)
    requires Named(t, names) && Restored(t0, t, names, n, u) && n !in t.fds
    ensures Restored(t0, t, names, n + 1, u)
  {
  }

  lemma RestoreOne(t0: Table, t: Table, names: map<nat, seq<byte>>, n: nat, u: Table)
    requires Named(t, names) && TableOk(t0) && Restored(t0, t, names, n, u) && n in t.fds
    ensures Restored(t0, t, names, n + 1, Apply(u, RecordOf(t, names, n)))
  {
    hide Restored, Apply;
    if First(t.fds, n) == n {
      RestoreNew(t0, t, names, n, u);
    } else {
      RestoreDup(t0, t, names, n, u);
    }
  }

  /**
   * Restoring the records of a table into any table brings back every descriptor
   * with its file, shared exactly as before, leaves the other descriptors alone, and
   * yields the original set of descriptors if and only if the process had no
   * descriptor open that the original did not have.
   */
  lemma TableRoundTrip(t0: Table, t: Table, names: map<nat, seq<byte>>, n: nat)
    requires Named(t, names) && TableOk(t0) && (forall fd :: fd in t.fds ==> fd < n)
    ensures var u := ApplyAll(t0, Records(t, names, n));
            && TableOk(u) && u.fds.Keys == t0.fds.Keys + t.fds.Keys
            && (forall fd :: fd in t.fds ==> u.objs[u.fds[fd]] == t.objs[t.fds[fd]].(path := names[t.fds[fd]]))
            && (forall a, b :: a in t.fds && b in t.fds ==> (u.fds[a] == u.fds[b] <==> t.fds[a] == t.fds[b]))
            && (forall fd :: fd in t0.fds && fd !in t.fds ==> u.fds[fd] == t0.fds[fd] && u.objs[u.fds[fd]] == t0.objs[t0.fds[fd]])
            && (u.fds.Keys == t.fds.Keys <==> t0.fds.Keys <= t.fds.Keys)
            && (t0.fds == map[] ==> SameSharing(t, u))
  {
    RestoreBelow(t0, t, names, n);
  }
}
