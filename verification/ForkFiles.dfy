// After a remote fork the child's proxied descriptors are reopened under the child's
// own identity, in place (src/proxyfs/proxyfs_helper.h).

module ForkFiles {
  import opened Bytes
  import opened Files
  import opened Names
  import opened FdTable
  import opened OpenFiles
  import opened CkptFiles

  /** is_proxyfs_file. */
  predicate Proxied(path: seq<byte>) {
    Ascii(MNT_POINT) <= path
  }

  lemma ProxyPathProxied(pid: nat, ident: nat)
    ensures Proxied(Ascii(ProxyPath(pid, ident))) && IsProxied(ProxyPath(pid, ident))
  {
    var p := ProxyPath(pid, ident);
    assert p[..|MNT_POINT|] == MNT_POINT;
    assert Ascii(p)[..|MNT_POINT|] == Ascii(MNT_POINT);
  }

  /** The owner and identifier that a proxied file's name carries. */
  datatype Owner = Owner(pid: nat, ident: nat)

  /** names says what each proxied file of the table is called. */
  ghost predicate NamedBy(t: Table, names: map<nat, Owner>) {
    forall o :: o in t.objs && Proxied(t.objs[o].path) ==>
      o in names && names[o].ident < U16 && t.objs[o].path == Ascii(ProxyPath(names[o].pid, names[o].ident))
  }

  /** g takes the place of f for the new owner. */
  predicate IsRenewed(f: OpenFile, o: Owner, pid: nat, g: OpenFile) {
    g.path == Ascii(ProxyPath(pid, o.ident)) && g.pos == f.pos && g.flags == f.flags
  }

  ghost predicate Changes(t: Table, names: map<nat, Owner>, pid: nat, fd: nat)
    requires fd in t.fds && t.fds[fd] in t.objs && NamedBy(t, names)
  {
    Proxied(t.objs[t.fds[fd]].path) && names[t.fds[fd]].pid != pid
  }

  /** u is t after the files whose first descriptor is below n have been renewed. */
  ghost predicate Cloned(t: Table, names: map<nat, Owner>, pid: nat, n: nat, u: Table)
    requires TableOk(t) && NamedBy(t, names)
  {
    && TableOk(u) && t.next <= u.next && u.fds.Keys == t.fds.Keys
    && (forall o :: o in t.objs ==> o in u.objs && u.objs[o] == t.objs[o])
    && (forall fd :: fd in t.fds ==> DescriptorOk(t, names, pid, n, u, fd))
    && (forall a, b :: a in t.fds && b in t.fds ==> (u.fds[a] == u.fds[b] <==> t.fds[a] == t.fds[b]))
  }

  ghost predicate DescriptorOk(t: Table, names: map<nat, Owner>, pid: nat, n: nat, u: Table, fd: nat)
    requires TableOk(t) && NamedBy(t, names) && TableOk(u) && fd in t.fds && fd in u.fds
  {
    var o := t.fds[fd];
    if Changes(t, names, pid, fd) && First(t.fds, fd) < n then
      t.next <= u.fds[fd] && IsRenewed(t.objs[o], names[o], pid, u.objs[u.fds[fd]])
    else
      u.fds[fd] == o
  }

  /** Close fd, reopen under the new name, and repoint every duplicate above it. */
  function Renew(u: Table, fd: nat, g: OpenFile): (v: Table)
    requires fd in u.fds
  {
    Table(map k | k in u.fds :: if u.fds[k] == u.fds[fd] && k >= fd then u.next else u.fds[k],
          u.objs[u.next := g], u.next + 1)
  }

  lemma RenewOk(t: Table, names: map<nat, Owner>, pid: nat, n: nat, u: Table, g: OpenFile)
    requires TableOk(t) && NamedBy(t, names) && Cloned(t, names, pid, n, u)
    requires n in t.fds && Changes(t, names, pid, n) && First(t.fds, n) == n && IsRenewed(t.objs[t.fds[n]], names[t.fds[n]], pid, g)
    ensures Cloned(t, names, pid, n + 1, Renew(u, n, g))
  {
    var v := Renew(u, n, g);
    RenewTable(t, u, n, g);
    hide IsRenewed, Proxied, First, NamedBy, TableOk, Changes, DescriptorOk, Renew;
    forall fd | fd in t.fds
      ensures DescriptorOk(t, names, pid, n + 1, v, fd)
      ensures v.fds[fd] == if t.fds[fd] == t.fds[n] then u.next else u.fds[fd]
    {
      RenewDescriptor(t, names, pid, n, u, g, fd);
    }
    RenewSharing(t.fds, u.fds, v.fds, n, u.next);
  }

  lemma RenewTable(t: Table, u: Table, n: nat, g: OpenFile)
    requires TableOk(u) && n in u.fds && (forall o :: o in t.objs ==> o in u.objs && u.objs[o] == t.objs[o])
    ensures var v := Renew(u, n, g);
            && TableOk(v) && v.next == u.next + 1 && v.fds.Keys == u.fds.Keys
            && (forall o :: o in t.objs ==> o in v.objs && v.objs[o] == t.objs[o])
            && (forall fd :: fd in u.fds ==> u.fds[fd] < u.next)
  {
  }

  lemma RenewDescriptor(t: Table, names: map<nat, Owner>, pid: nat, n: nat, u: Table, g: OpenFile, fd: nat)
    requires TableOk(t) && NamedBy(t, names) && TableOk(u) && t.next <= u.next && u.fds.Keys == t.fds.Keys
    requires n in t.fds && Changes(t, names, pid, n) && First(t.fds, n) == n && IsRenewed(t.objs[t.fds[n]], names[t.fds[n]], pid, g)
    requires fd in t.fds && DescriptorOk(t, names, pid, n, u, fd) && (u.fds[fd] == u.fds[n] <==> t.fds[fd] == t.fds[n])
    ensures var v := Renew(u, n, g);
            && TableOk(v) && v.fds.Keys == t.fds.Keys
            && DescriptorOk(t, names, pid, n + 1, v, fd)
            && v.fds[fd] == if t.fds[fd] == t.fds[n] then u.next else u.fds[fd]
  {
    hide IsRenewed, Proxied, FirstFrom, NamedBy;
    FirstOfShared(t.fds, n, fd);
  }

  lemma FirstOfShared(fds: map<nat, nat>, n: nat, fd: nat)
    requires n in fds && fd in fds && First(fds, n) == n
    ensures First(fds, fd) == n <==> fds[fd] == fds[n]
    ensures fds[fd] == fds[n] ==> fd >= n
  {
    hide FirstFrom;
  }

  lemma RenewSharing(tf: map<nat, nat>, uf: map<nat, nat>, vf: map<nat, nat>, n: nat, next: nat)
    requires n in tf && (forall fd :: fd in tf ==> fd in uf && uf[fd] < next && fd in vf)
    requires forall fd :: fd in tf ==> vf[fd] == if tf[fd] == tf[n] then next else uf[fd]
    requires forall a, b :: a in tf && b in tf ==> (uf[a] == uf[b] <==> tf[a] == tf[b])
    ensures forall a, b :: a in tf && b in tf ==> (vf[a] == vf[b] <==> tf[a] == tf[b])
  {
  }

  /** A descriptor that needs no change, or has been changed with an earlier one. */
  lemma SkipOk(t: Table, names: map<nat, Owner>, pid: nat, n: nat, u: Table)
    requires TableOk(t) && NamedBy(t, names) && Cloned(t, names, pid, n, u)
    requires n !in t.fds || !Changes(t, names, pid, n) || First(t.fds, n) < n
    ensures Cloned(t, names, pid, n + 1, u)
  {
    hide IsRenewed, Proxied, FirstFrom;
    forall fd | fd in t.fds
      ensures DescriptorOk(t, names, pid, n + 1, u, fd)
    {
      assert DescriptorOk(t, names, pid, n, u, fd);
      if First(t.fds, fd) == n {
        assert t.fds[fd] == t.fds[n];
      }
    }
  }

  lemma CloneStart(t: Table, names: map<nat, Owner>, pid: nat)
    requires TableOk(t) && NamedBy(t, names)
    ensures Cloned(t, names, pid, 0, t)
  {
    hide IsRenewed, Proxied, FirstFrom;
  }

  /**
   * resolve_duplicates: the descriptors above fd that still refer to the old file. One
   * that is not below the limit cannot be duplicated into and stays closed.
   */
  method ResolveDuplicates(p: Process, fd: nat, stale: nat, max: nat) returns (ok: bool)
    requires p.Valid() && fd in p.t.fds && p.t.fds[fd] != stale && (forall k :: k in p.t.fds ==> k < max)
    modifies p`t
    ensures p.Valid() && p.t.objs == old(p.t.objs) && p.t.next == old(p.t.next)
    ensures ok <==> forall k :: k in old(p.t.fds) && k > fd && old(p.t.fds)[k] == stale ==> k < p.limit
    ensures ok ==> p.t.fds == map k | k in old(p.t.fds) :: if old(p.t.fds)[k] == stale && k > fd then old(p.t.fds)[fd] else old(p.t.fds)[k]
    ensures forall k :: k in old(p.t.fds) && old(p.t.fds)[k] != stale ==> k in p.t.fds && p.t.fds[k] == old(p.t.fds)[k]
  {
    ghost var before := p.t.fds;
    var k := fd + 1;
    while k < max
      invariant p.Valid() && p.t.objs == old(p.t.objs) && p.t.next == old(p.t.next)
      invariant p.t.fds.Keys == before.Keys
      invariant forall j :: j in before ==> p.t.fds[j] == if before[j] == stale && fd < j < k then before[fd] else before[j]
      invariant forall j :: j in before && fd < j < k && before[j] == stale ==> j < p.limit
    {
      if k in p.t.fds && p.t.fds[k] == stale {
        p.Close(k);
        var result := p.Dup2(fd, k);
        if result != k {
          return false;
        }
      }
      k := k + 1;
    }
    ok := true;
  }

  lemma AlterOf(path: seq<byte>, o: Owner, pid: nat)
    requires o.ident < U16 && path == Ascii(ProxyPath(o.pid, o.ident))
    ensures Proxied(path)
    ensures Alter(Text(path), pid) == if o.pid == pid then Unchanged else Renamed(ProxyPath(pid, o.ident))
  {
    PathPlain(o.pid, o.ident);
    ProxyPathProxied(o.pid, o.ident);
    AlterAgrees(o.pid, o.ident, pid);
  }

  /** What the kernel answers to the open of a new name and to the seek that follows. */
  datatype Answer = Refused | Opened(mode: nat, kind: nat, sought: nat)

  /** The duplicates of fd, itself among them, are below the limit. */
  ghost predicate BelowLimit(fds: map<nat, nat>, fd: nat, limit: nat)
    requires fd in fds
  {
    forall k :: k in fds && k >= fd && fds[k] == fds[fd] ==> k < limit
  }

  /** Descriptors of other files are as they were. */
  ghost predicate OthersKept(u: Table, fd: nat, v: Table)
    requires fd in u.fds
  {
    && (forall k :: k in u.fds && u.fds[k] != u.fds[fd] ==> k in v.fds && v.fds[k] == u.fds[k])
    && (forall o :: o in u.objs ==> o in v.objs && v.objs[o] == u.objs[o])
  }

  /**
   * Close, open under the new name at the same descriptor, seek, and repoint the
   * duplicates. When the open is refused, the descriptor is closed and that is all.
   */
  method Reopen(p: Process, fd: nat, path: seq<byte>, answer: Answer, max: nat) returns (result: int)
    requires p.Valid() && fd in p.t.fds && (forall k :: k in p.t.fds ==> k < max)
    requires Sane(p.t.objs[p.t.fds[fd]])
    modifies p`t
    ensures p.Valid() && OthersKept(old(p.t), fd, p.t) && result <= 0
    ensures var f := old(p.t.objs[p.t.fds[fd]]);
            && (result == 0 <==> answer.Opened? && answer.sought == f.pos && BelowLimit(old(p.t.fds), fd, p.limit))
            && (result == 0 ==> p.t == Renew(old(p.t), fd, OpenFile(path, f.pos, f.flags, answer.mode, answer.kind)))
    ensures answer.Refused? ==> result == -13 && p.t == old(p.t).(fds := old(p.t.fds) - {fd})
  {
    hide Sane, Renew, BelowLimit, KeptFlags;
    ghost var u := p.t;
    var obj := p.t.fds[fd];
    var f := p.t.objs[obj];
    SaneParts(f);
    p.Close(fd);
    if answer.Refused? {
      return -13;
    }
    result := OpenInPlace(p, fd, path, f.flags, answer);
    NotBelow(u.fds, fd, p.limit);
    if result < 0 {
      return;
    }
    if answer.sought != f.pos {
      return -22;
    }
    p.Seek(fd, f.pos);
    ghost var g := OpenFile(path, f.pos, f.flags, answer.mode, answer.kind);
    Repointed(u, fd, g, p.t, p.limit);
    var resolved := ResolveDuplicates(p, fd, obj, max);
    if !resolved {
      return -22;
    }
  }

  lemma SaneParts(f: OpenFile)
    requires Sane(f)
    ensures KeptFlags(f.flags) == f.flags
  {
  }

  lemma NotBelow(fds: map<nat, nat>, fd: nat, limit: nat)
    requires fd in fds
    ensures fd >= limit ==> !BelowLimit(fds, fd, limit)
  {
  }

  /** Repointing the duplicates in a table whose descriptor fd is already the new file renews it. */
  lemma Repointed(u: Table, fd: nat, g: OpenFile, w: Table, limit: nat)
    requires TableOk(u) && fd in u.fds && fd < limit
    requires w == Table(u.fds[fd := u.next], u.objs[u.next := g], u.next + 1)
    ensures BelowLimit(u.fds, fd, limit) <==> forall k :: k in w.fds && k > fd && w.fds[k] == u.fds[fd] ==> k < limit
    ensures Renew(u, fd, g) == Table(map k | k in w.fds :: if w.fds[k] == u.fds[fd] && k > fd then w.fds[fd] else w.fds[k], w.objs, w.next)
  {
    assert forall k :: k in u.fds && k != fd ==> k in w.fds && w.fds[k] == u.fds[k];
    assert forall k :: k in w.fds && k != fd ==> k in u.fds;
  }

  /** Open and dup2 into a descriptor that has just been closed; possible exactly below the limit. */
  method OpenInPlace(p: Process, fd: nat, path: seq<byte>, flags: nat, answer: Answer) returns (result: int)
    requires p.Valid() && fd !in p.t.fds && fd < U31 && answer.Opened? && KeptFlags(flags) == flags
    modifies p`t
    ensures p.Valid() && result <= 0 && (result == 0 <==> fd < p.limit)
    ensures forall k :: k in old(p.t.fds) ==> k in p.t.fds && p.t.fds[k] == old(p.t.fds)[k]
    ensures forall o :: o in old(p.t.objs) ==> o in p.t.objs && p.t.objs[o] == old(p.t.objs)[o]
    ensures result == 0 ==>
              p.t == Table(old(p.t.fds)[fd := old(p.t.next)],
                           old(p.t.objs)[old(p.t.next) := OpenFile(path, 0, flags, answer.mode, answer.kind)], old(p.t.next) + 1)
  {
    var got := p.Open(path, KeptFlags(flags), answer.mode, answer.kind);
    if got.None? {
      return -24;
    }
    if got.value != fd {
      var placed := p.Dup2(got.value, fd);
      if placed != fd {
        return -22;
      }
      p.Close(got.value);
    }
    result := 0;
    assert p.t.fds == old(p.t.fds)[fd := old(p.t.next)];
  }

  /** The loop gets past descriptor fd: d_path has room for its path, and a reopen goes well. */
  ghost predicate StepOk(t: Table, names: map<nat, Owner>, pid: nat, limit: nat, opens: map<nat, Answer>, fd: nat)
    requires TableOk(t) && NamedBy(t, names) && fd in t.fds
  {
    && PathFits(t.objs[t.fds[fd]].path)
    && (Changes(t, names, pid, fd) && First(t.fds, fd) == fd ==>
          fd in opens && opens[fd].Opened? && opens[fd].sought == t.objs[t.fds[fd]].pos && BelowLimit(t.fds, fd, limit))
  }

  ghost predicate StepsOk(t: Table, names: map<nat, Owner>, pid: nat, limit: nat, opens: map<nat, Answer>, n: nat)
    requires TableOk(t) && NamedBy(t, names)
  {
    forall fd :: fd in t.fds && fd < n ==> StepOk(t, names, pid, limit, opens, fd)
  }

  /** How a rewriting ended that went up to descriptor stop, with table u before it. */
  ghost predicate Ended(t: Table, names: map<nat, Owner>, pid: nat, limit: nat, opens: map<nat, Answer>, max: nat,
                        result: int, stop: nat, u: Table, v: Table)
    requires TableOk(t) && NamedBy(t, names)
  {
    && result <= 0 && stop <= max && Cloned(t, names, pid, stop, u) && StepsOk(t, names, pid, limit, opens, stop)
    && (result == 0 ==> stop == max && v == u)
    && (result < 0 ==> stop in t.fds && !StepOk(t, names, pid, limit, opens, stop))
    && (result < 0 && stop in t.fds && !PathFits(t.objs[t.fds[stop]].path) ==> v == u)
    && (result < 0 && stop in t.fds && PathFits(t.objs[t.fds[stop]].path) && (stop !in opens || opens[stop].Refused?) ==>
          v == u.(fds := u.fds - {stop}))
  }

  /** What every proxied file of the table satisfies. */
  ghost predicate ProxiedSane(t: Table) {
    forall o :: o in t.objs && Proxied(t.objs[o].path) ==> Sane(t.objs[o])
  }

  /**
   * proxyfs_clone_file_names. opens says, for the descriptor at which a file is reopened,
   * what the kernel answers: the client refuses a second open of the same file and the
   * server may not know it. The loop stops at the first descriptor, proxied or not, whose
   * path is too long for d_path, and at the first reopen that does not go well.
   */
  method CloneFileNames(p: Process, pid: nat, max: nat, opens: map<nat, Answer>, ghost names: map<nat, Owner>)
    returns (result: int, ghost stop: nat, ghost u: Table)
    requires p.Valid() && NamedBy(p.t, names) && ProxiedSane(p.t) && pid < U31 && (forall k :: k in p.t.fds ==> k < max)
    modifies p`t
    ensures p.Valid() && Ended(old(p.t), names, pid, p.limit, opens, max, result, stop, u, p.t)
    ensures result == 0 <==> StepsOk(old(p.t), names, pid, p.limit, opens, max)
    ensures forall fd :: fd in old(p.t.fds) && !Proxied(old(p.t).objs[old(p.t.fds)[fd]].path) ==>
              fd in p.t.fds && p.t.fds[fd] == old(p.t.fds)[fd] && p.t.objs[p.t.fds[fd]] == old(p.t).objs[old(p.t.fds)[fd]]
  {
    hide Proxied, IsRenewed, Renew, First, Alter, Cloned, NamedBy, Changes, PathFits, StepOk, ProxiedSane, OthersKept, BelowLimit;
    ghost var t := p.t;
    CloneStart(t, names, pid);
    for fd := 0 to max
      invariant p.Valid() && Cloned(t, names, pid, fd, p.t) && StepsOk(t, names, pid, p.limit, opens, fd)
      invariant forall k :: k in p.t.fds ==> k < max
    {
      u := p.t;
      Untouched(t, names, pid, fd, u);
      PathKept(t, names, pid, p.limit, opens, fd, u);
      if fd in p.t.fds && !PathFits(p.t.objs[p.t.fds[fd]].path) {
        NoStep(t, names, pid, p.limit, opens, fd);
        return -22, fd, u;
      }
      var path := Decide(p, fd, pid, t, names);
      if path.None? {
        SkipOk(t, names, pid, fd, u);
        Skipped(t, names, pid, p.limit, opens, fd);
      } else {
        var answer := if fd in opens then opens[fd] else Refused;
        Stepped(t, names, pid, p.limit, opens, fd, u);
        result := Reopen(p, fd, path.value, answer, max);
        if result < 0 {
          StillUntouched(t, names, pid, fd, u, p.t);
          return result, fd, u;
        }
        RenewedHere(t, names, pid, fd, answer, path.value);
        RenewOk(t, names, pid, fd, u, OpenFile(path.value, t.objs[t.fds[fd]].pos, t.objs[t.fds[fd]].flags, answer.mode, answer.kind));
        Untouched(t, names, pid, fd + 1, p.t);
      }
    }
    Untouched(t, names, pid, max, p.t);
    result, stop, u := 0, max, p.t;
  }

  lemma NoStep(t: Table, names: map<nat, Owner>, pid: nat, limit: nat, opens: map<nat, Answer>, fd: nat)
    requires TableOk(t) && NamedBy(t, names) && fd in t.fds && !PathFits(t.objs[t.fds[fd]].path)
    ensures !StepOk(t, names, pid, limit, opens, fd)
  {
  }

  lemma Skipped(t: Table, names: map<nat, Owner>, pid: nat, limit: nat, opens: map<nat, Answer>, fd: nat)
    requires TableOk(t) && NamedBy(t, names)
    requires fd in t.fds ==> PathFits(t.objs[t.fds[fd]].path) && (!Changes(t, names, pid, fd) || First(t.fds, fd) < fd)
    ensures fd in t.fds ==> StepOk(t, names, pid, limit, opens, fd)
  {
  }

  /** At the first descriptor of a file the table in between is still the original as far as that file goes. */
  lemma Stepped(t: Table, names: map<nat, Owner>, pid: nat, limit: nat, opens: map<nat, Answer>, fd: nat, u: Table)
    requires TableOk(t) && NamedBy(t, names) && Cloned(t, names, pid, fd, u) && ProxiedSane(t)
    requires fd in t.fds && PathFits(t.objs[t.fds[fd]].path) && Changes(t, names, pid, fd) && First(t.fds, fd) == fd
    ensures fd in u.fds && u.fds[fd] == t.fds[fd] && u.objs[u.fds[fd]] == t.objs[t.fds[fd]] && Sane(t.objs[t.fds[fd]])
    ensures BelowLimit(u.fds, fd, limit) <==> BelowLimit(t.fds, fd, limit)
    ensures StepOk(t, names, pid, limit, opens, fd) <==>
              fd in opens && opens[fd].Opened? && opens[fd].sought == t.objs[t.fds[fd]].pos && BelowLimit(t.fds, fd, limit)
  {
    hide IsRenewed, Proxied, FirstFrom, PathFits, Sane;
    assert DescriptorOk(t, names, pid, fd, u, fd);
  }

  lemma RenewedHere(t: Table, names: map<nat, Owner>, pid: nat, fd: nat, answer: Answer, path: seq<byte>)
    requires fd in t.fds && t.fds[fd] in t.objs && t.fds[fd] in names && answer.Opened?
    requires path == Ascii(ProxyPath(pid, names[t.fds[fd]].ident))
    ensures var f := t.objs[t.fds[fd]]; IsRenewed(f, names[t.fds[fd]], pid, OpenFile(path, f.pos, f.flags, answer.mode, answer.kind))
  {
  }

  lemma StillUntouched(t: Table, names: map<nat, Owner>, pid: nat, n: nat, u: Table, v: Table)
    requires TableOk(t) && NamedBy(t, names) && Cloned(t, names, pid, n, u) && TableOk(v)
    requires n in t.fds && n in u.fds && Proxied(t.objs[t.fds[n]].path) && OthersKept(u, n, v)
    ensures forall fd :: fd in t.fds && !Proxied(t.objs[t.fds[fd]].path) ==>
              fd in v.fds && v.fds[fd] == t.fds[fd] && v.objs[v.fds[fd]] == t.objs[t.fds[fd]]
  {
    hide IsRenewed, Proxied, FirstFrom, NamedBy;
    forall fd | fd in t.fds && !Proxied(t.objs[t.fds[fd]].path)
      ensures fd in v.fds && v.fds[fd] == t.fds[fd] && v.objs[v.fds[fd]] == t.objs[t.fds[fd]]
    {
      assert DescriptorOk(t, names, pid, n, u, fd) && DescriptorOk(t, names, pid, n, u, n);
      assert t.fds[fd] != t.fds[n];
    }
  }

  /** A descriptor that the loop comes to has a path that fits now exactly if it had one before. */
  lemma PathKept(t: Table, names: map<nat, Owner>, pid: nat, limit: nat, opens: map<nat, Answer>, n: nat, u: Table)
    requires TableOk(t) && NamedBy(t, names) && Cloned(t, names, pid, n, u) && pid < U31 && StepsOk(t, names, pid, limit, opens, n)
    ensures TableOk(u) && u.fds.Keys == t.fds.Keys
    ensures n in t.fds ==> (PathFits(u.objs[u.fds[n]].path) <==> PathFits(t.objs[t.fds[n]].path))
  {
    hide Proxied, FirstFrom, PathFits, IsRenewed, BelowLimit;
    if n in t.fds {
      assert DescriptorOk(t, names, pid, n, u, n);
      if Changes(t, names, pid, n) && First(t.fds, n) < n {
        RenewedFits(t.objs[t.fds[n]], names[t.fds[n]], pid, u.objs[u.fds[n]]);
        assert StepOk(t, names, pid, limit, opens, First(t.fds, n));
      }
    }
  }

  lemma RenewedFits(f: OpenFile, o: Owner, pid: nat, g: OpenFile)
    requires o.ident < U16 && pid < U31 && IsRenewed(f, o, pid, g)
    ensures PathFits(g.path)
  {
    hide Ascii, ProxyPath;
    ProxyPathFits(pid, o.ident);
  }

  /** What the loop does with one descriptor: nothing, or reopen it under the given name. */
  method Decide(p: Process, fd: nat, pid: nat, ghost t: Table, ghost names: map<nat, Owner>) returns (path: Option<seq<byte>>)
    requires TableOk(t) && NamedBy(t, names) && Cloned(t, names, pid, fd, p.t)
    ensures path.None? ==> fd !in t.fds || !Changes(t, names, pid, fd) || First(t.fds, fd) < fd
    ensures path.Some? ==>
              && fd in t.fds && fd in p.t.fds && Changes(t, names, pid, fd) && First(t.fds, fd) == fd
              && Proxied(t.objs[t.fds[fd]].path) && t.fds[fd] in names
              && path.value == Ascii(ProxyPath(pid, names[t.fds[fd]].ident))
  {
    hide Proxied, Alter, FirstFrom;
    path := None;
    if fd in p.t.fds {
      assert DescriptorOk(t, names, pid, fd, p.t, fd);
      var f := p.t.objs[p.t.fds[fd]];
      ghost var o := t.fds[fd];
      if Changes(t, names, pid, fd) && First(t.fds, fd) < fd {
        AlterOf(f.path, Owner(pid, names[o].ident), pid);
      } else if Proxied(t.objs[o].path) {
        AlterOf(f.path, names[o], pid);
      }
      if Proxied(f.path) {
        var a := Alter(Text(f.path), pid);
        if a.Renamed? {
          path := Some(Ascii(a.path));
        }
      }
    }
  }

  /** Descriptors of other files are never touched. */
  lemma Untouched(t: Table, names: map<nat, Owner>, pid: nat, n: nat, u: Table)
    requires TableOk(t) && NamedBy(t, names) && Cloned(t, names, pid, n, u)
    ensures TableOk(u) && u.fds.Keys == t.fds.Keys
    ensures forall fd :: fd in t.fds && !Proxied(t.objs[t.fds[fd]].path) ==>
              u.fds[fd] == t.fds[fd] && u.objs[u.fds[fd]] == t.objs[t.fds[fd]]
  {
    hide IsRenewed, Proxied, FirstFrom;
    forall fd | fd in t.fds && !Proxied(t.objs[t.fds[fd]].path)
      ensures u.fds[fd] == t.fds[fd]
    {
      assert DescriptorOk(t, names, pid, n, u, fd);
    }
  }

  /**
   * On success every proxied descriptor carries the new owner and its old identifier,
   * descriptors share files exactly as before, and all others are as they were.
   */
  lemma ClonedMeans(t: Table, names: map<nat, Owner>, pid: nat, max: nat, u: Table, fd: nat)
    requires TableOk(t) && NamedBy(t, names) && Cloned(t, names, pid, max, u)
    requires fd in t.fds && (forall k :: k in t.fds ==> k < max)
    ensures SameSharing(t, u)
    ensures var f, g, o := t.objs[t.fds[fd]], u.objs[u.fds[fd]], t.fds[fd];
            if Ascii("/mnt/proxy") <= f.path then
              && o in names && f.path == Ascii("/mnt/proxy/" + Print(names[o].pid) + "-" + Print(names[o].ident))
              && g.path == Ascii("/mnt/proxy/" + Print(pid) + "-" + Print(names[o].ident)) && g.pos == f.pos && g.flags == f.flags
            else u.fds[fd] == o && g == f
  {
    hide FirstFrom, Print, Ascii;
    var o := t.fds[fd];
    if o in names {
      PathText(names[o].pid, names[o].ident);
      PathText(pid, names[o].ident);
    }
    assert DescriptorOk(t, names, pid, max, u, fd);
  }

  lemma PathText(pid: nat, ident: nat)
    ensures ProxyPath(pid, ident) == "/mnt/proxy/" + Print(pid) + "-" + Print(ident)
  {
    hide Print;
  }
}
