// The circular buffer of ProxyFS (src/proxyfs/buffer.h, src/proxyfs/buffer.c).
//
// The C structure keeps two pointers into one memory block and a flag that
// separates the full from the empty buffer when the pointers meet. Pointers are
// modelled as offsets from the start of the block.

module CircBuf {
  import opened Bytes

  predicate Pointers(d: seq<byte>, rd: nat, wr: nat, full: bool) {
    rd < |d| && wr < |d| && (full ==> rd == wr)
  }

  /** The bytes queued in the block d, oldest first. */
  function Queue(d: seq<byte>, rd: nat, wr: nat, full: bool): (s: seq<byte>)
    requires Pointers(d, rd, wr, full)
    ensures |s| <= |d|
  {
    if rd < wr then d[rd..wr]
    else if wr < rd || full then d[rd..] + d[..wr]
    else []
  }

  function Wrap(p: nat, size: nat): (q: nat)
    requires size > 0 && p < 2 * size
    ensures q < size
  {
    if p >= size then p - size else p
  }

  /** Moving the read pointer drops the oldest bytes. */
  lemma DropOldest(d: seq<byte>, rd: nat, wr: nat, full: bool, n: nat)
    requires Pointers(d, rd, wr, full) && 0 < n <= |Queue(d, rd, wr, full)|
    ensures Queue(d, Wrap(rd + n, |d|), wr, false) == Queue(d, rd, wr, full)[n..]
  {
    if rd >= wr && rd + n >= |d| {
      assert (d[rd..] + d[..wr])[n..] == d[rd + n - |d|..wr];
    }
  }

  /** Moving the write pointer over copied bytes queues them. */
  lemma CommitCopied(d: seq<byte>, rd: nat, wr: nat, full: bool, n: nat)
    requires Pointers(d, rd, wr, full) && 0 < n <= |d| - |Queue(d, rd, wr, full)| && wr + n <= |d|
    ensures !full
    ensures var w := Wrap(wr + n, |d|);
            Queue(d, rd, w, w == rd) == Queue(d, rd, wr, full) + d[wr..wr + n]
  {
    if rd > wr {
      assert d[..wr] + d[wr..wr + n] == d[..wr + n];
      assert d[rd..] + d[..wr] + d[wr..wr + n] == d[rd..] + d[..wr + n];
    } else {
      assert d[rd..wr] + d[wr..wr + n] == d[rd..wr + n];
      if wr + n == |d| {
        assert d[rd..wr + n] == d[rd..] + d[..0];
      }
    }
  }

  /** Writing behind the queued bytes does not disturb them. */
  lemma CopyIsFree(d: seq<byte>, e: seq<byte>, rd: nat, wr: nat, full: bool, n: nat)
    requires |d| == |e| && Pointers(d, rd, wr, full)
    requires n <= |d| - |Queue(d, rd, wr, full)| && wr + n <= |d|
    requires forall k :: 0 <= k < |d| && !(wr <= k < wr + n) ==> d[k] == e[k]
    ensures Queue(e, rd, wr, full) == Queue(d, rd, wr, full)
  {
    assert d[..wr] == e[..wr];
    assert rd < wr ==> d[rd..wr] == e[rd..wr];
    assert wr < rd ==> d[rd..] == e[rd..];
    assert n == 0 ==> d == e;
  }

  lemma JoinRuns(base: seq<byte>, src: seq<byte>, i: nat, j: nat)
    requires i <= |src| && j <= |src| - i
    ensures (base + src[..i]) + src[i..][..j] == base + src[..i + j]
  {
    assert src[..i + j] == src[..i] + src[i..][..j];
  }

  lemma SplitRuns(s: seq<byte>, i: nat, j: nat)
    requires i + j <= |s|
    ensures s[..i] + s[i..][..j] == s[..i + j]
    ensures s[i..][j..] == s[i + j..]
  {
  }

  class Ring {
    const data: array<byte>
    var rd: nat
    var wr: nat
    var full: bool

    ghost predicate Valid()
      reads this, data
    {
      Pointers(data[..], rd, wr, full)
    }

    ghost function Contents(): (s: seq<byte>)
      reads this, data
      requires Valid()
      ensures |s| <= data.Length
    {
      Queue(data[..], rd, wr, full)
    }

    constructor (size: nat)
      requires size > 0
      ensures Valid() && fresh(data) && data.Length == size
      ensures Contents() == []
    {
      data := new byte[size];
      rd, wr, full := 0, 0, false;
    }

    /** Longest run of queued bytes that one copy can take. */
    method ReadSize() returns (n: nat)
      requires Valid()
      ensures n <= |Contents()| && rd + n <= data.Length && (n == |Contents()| || rd + n == data.Length)
      ensures n == 0 <==> Contents() == []
    {
      if wr > rd {
        n := wr - rd;
      } else if wr < rd || full {
        n := data.Length - rd;
      } else {
        n := 0;
      }
    }

    /** Longest run of free space that one copy can fill. */
    method WriteSize() returns (n: nat)
      requires Valid()
      ensures n <= data.Length - |Contents()| && wr + n <= data.Length
      ensures n == data.Length - |Contents()| || wr + n == data.Length
      ensures n == 0 <==> |Contents()| == data.Length
    {
      if wr > rd {
        n := data.Length - wr;
      } else if wr < rd {
        n := rd - wr;
      } else if full {
        n := 0;
      } else {
        n := data.Length - wr;
      }
    }

    method FreeSpace() returns (n: nat)
      requires Valid()
      ensures n == data.Length - |Contents()|
    {
      if wr > rd {
        n := data.Length - (wr - rd);
      } else if wr < rd {
        n := rd - wr;
      } else if full {
        n := 0;
      } else {
        n := data.Length;
      }
    }

    method Count() returns (n: nat)
      requires Valid()
      ensures n == |Contents()|
    {
      var free := FreeSpace();
      n := data.Length - free;
    }

    /** Drops the oldest count bytes; the caller must not ask for more than there are. */
    method AdjustRead(count: nat)
      requires Valid() && count <= |Contents()|
      modifies this
      ensures Valid() && Contents() == old(Contents())[count..]
      ensures wr == old(wr)
    {
      hide Queue;
      if count > 0 {
        DropOldest(data[..], rd, wr, full, count);
        full := false;
        rd := rd + count;
        if rd >= data.Length {
          rd := rd - data.Length;
        }
      }
    }

    /** Commits count bytes that were copied behind the queued ones. */
    method AdjustWrite(count: nat)
      requires Valid() && wr + count <= data.Length
      requires count <= data.Length - |Contents()|
      modifies this
      ensures Valid()
      ensures Contents() == old(Contents()) + old(data[..][wr..wr + count])
      ensures rd == old(rd) && wr == if old(wr) + count < data.Length then old(wr) + count else 0
    {
      hide Queue;
      if count > 0 {
        CommitCopied(data[..], rd, wr, full, count);
        wr := wr + count;
        if wr >= data.Length {
          wr := wr - data.Length;
        }
        if wr == rd {
          full := true;
        }
      }
    }

    /** The memcpy into the free run that starts at the write pointer. */
    method CopyIn(src: seq<byte>)
      requires Valid() && wr + |src| <= data.Length
      requires |src| <= data.Length - |Contents()|
      modifies data
      ensures Valid() && Contents() == old(Contents())
      ensures data[..][wr..wr + |src|] == src
    {
      hide Queue;
      ghost var before := data[..];
      var i := 0;
      while i < |src|
        invariant 0 <= i <= |src|
        invariant forall k :: 0 <= k < i ==> data[wr + k] == src[k]
        invariant forall k :: 0 <= k < data.Length && !(wr <= k < wr + i) ==> data[k] == before[k]
      {
        data[wr + i] := src[i];
        i := i + 1;
      }
      CopyIsFree(before, data[..], rd, wr, full, |src|);
    }

    /** One memcpy into the buffer together with the pointer move behind it. */
    method PutRun(src: seq<byte>)
      requires Valid() && wr + |src| <= data.Length
      requires |src| <= data.Length - |Contents()|
      modifies this, data
      ensures Valid() && Contents() == old(Contents()) + src
      ensures wr == if old(wr) + |src| < data.Length then old(wr) + |src| else 0
    {
      hide Queue;
      CopyIn(src);
      AdjustWrite(|src|);
    }

    /** Appends as much of src as fits and says how much that was. */
    method Write(src: seq<byte>) returns (n: nat)
      requires Valid()
      modifies this, data
      ensures Valid()
      ensures n == Min(|src|, data.Length - |old(Contents())|)
      ensures Contents() == old(Contents()) + src[..n]
      decreases |src|
    {
      hide Contents;
      ghost var before := Contents();
      var wrs := WriteSize();
      if wrs == 0 {
        return 0;
      }
      if |src| < wrs {
        PutRun(src);
        n := |src|;
      } else {
        PutRun(src[..wrs]);
        var rest := Write(src[wrs..]);
        n := wrs + rest;
        JoinRuns(before, src, wrs, rest);
      }
    }

    /** The oldest count bytes, when they do not wrap. */
    method PeekRun(count: nat) returns (out: seq<byte>)
      requires Valid() && rd + count <= data.Length && count <= |Contents()|
      ensures out == Contents()[..count]
    {
      out := data[rd..rd + count];
    }

    /** One memcpy out of the buffer together with the pointer move behind it. */
    method TakeRun(count: nat) returns (out: seq<byte>)
      requires Valid() && rd + count <= data.Length && count <= |Contents()|
      modifies this
      ensures Valid() && wr == old(wr)
      ensures out == old(Contents())[..count] && Contents() == old(Contents())[count..]
    {
      hide Contents;
      out := PeekRun(count);
      AdjustRead(count);
    }

    /** Removes and returns the oldest bytes, at most count of them. */
    method Read(count: nat) returns (out: seq<byte>)
      requires Valid()
      modifies this
      ensures Valid() && wr == old(wr)
      ensures |out| == Min(count, |old(Contents())|)
      ensures out == old(Contents())[..|out|] && Contents() == old(Contents())[|out|..]
      decreases count
    {
      hide Contents;
      ghost var before := Contents();
      var have := Count();
      var want := Min(count, have);
      var rs := ReadSize();
      if rs == 0 {
        return [];
      }
      if want < rs {
        out := TakeRun(want);
      } else {
        var first := TakeRun(rs);
        var rest := Read(want - rs);
        out := first + rest;
        SplitRuns(before, rs, |rest|);
      }
    }

    /** Copies from the given offset without consuming anything. */
    method LookAt(count: nat, offset: nat) returns (out: seq<byte>)
      requires Valid() && offset <= |Contents()|
      modifies this
      ensures Valid() && rd == old(rd) && wr == old(wr) && full == old(full)
      ensures Contents() == old(Contents())
      ensures |out| == Min(count, |old(Contents())| - offset)
      ensures out == old(Contents())[offset..offset + |out|]
    {
      hide Queue;
      ghost var before := Contents();
      var savedRd, savedFull := rd, full;
      AdjustRead(offset);
      out := Read(count);
      assert out == before[offset..][..|out|];
      rd, full := savedRd, savedFull;
    }
  }
}
