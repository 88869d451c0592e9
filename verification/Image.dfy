// The checkpoint file: a sequence of bytes with a cursor (src/tcmi/ckpt/tcmi_ckpt.h).

module Image {
  import opened Bytes
  import opened Files

  const PAGE_SIZE: nat := 4096

  function Zeros(n: nat): (s: seq<byte>)
    ensures |s| == n && forall i :: 0 <= i < n ==> s[i] == 0
  {
    seq(n, _ => 0)
  }

  /** Bytes from at to the next page boundary. */
  function Gap(at: nat): (n: nat)
    ensures n < PAGE_SIZE && (at + n) % PAGE_SIZE == 0
  {
    (PAGE_SIZE - at % PAGE_SIZE) % PAGE_SIZE
  }

  /** (pos + PAGE_SIZE - 1) & PAGE_MASK. */
  function Aligned(pos: nat): (a: nat)
    ensures a == pos + Gap(pos)
  {
    (pos + PAGE_SIZE - 1) / PAGE_SIZE * PAGE_SIZE
  }

  class File {
    var data: seq<byte>
    var pos: nat

    /**
     * The bytes up to the cursor, with the hole that a forward seek leaves read as
     * zeros. The next write makes the file exactly that long.
     */
    ghost function Full(): (s: seq<byte>)
      reads this
      requires |data| <= pos
      ensures |s| == pos
    {
      data + Zeros(pos - |data|)
    }

    constructor ()
      ensures data == [] && pos == 0
    {
      data, pos := [], 0;
    }

    /** tcmi_ckpt_write at or behind the end of the file. */
    method Write(bytes: seq<byte>)
      requires |data| <= pos
      modifies this
      ensures |data| <= pos && Full() == old(Full()) + bytes
      ensures if bytes != [] then data == Full() else data == old(data)
    {
      if bytes != [] {
        data := data + Zeros(pos - |data|) + bytes;
      }
      pos := pos + |bytes|;
      assert bytes != [] ==> Zeros(pos - |data|) == [];
    }

    /** tcmi_ckpt_read: all of the bytes or an error. */
    method Read(count: nat) returns (bytes: Option<seq<byte>>)
      modifies this`pos
      ensures bytes == if old(pos) + count <= |data| then Some(data[old(pos)..old(pos) + count]) else None
      ensures bytes.Some? ==> pos == old(pos) + count
    {
      if pos + count > |data| {
        return None;
      }
      bytes := Some(data[pos..pos + count]);
      pos := pos + count;
    }

    /** tcmi_ckpt_seek relative to the cursor. */
    method SeekForward(n: nat)
      modifies this`pos
      ensures pos == old(pos) + n
      ensures |data| <= old(pos) ==> Full() == old(Full()) + Zeros(n)
    {
      pos := pos + n;
      assert |data| <= old(pos) ==> Zeros(pos - |data|) == Zeros(old(pos) - |data|) + Zeros(n);
    }

    method PageAlign()
      modifies this`pos
      ensures pos == old(pos) + Gap(old(pos))
      ensures |data| <= old(pos) ==> Full() == old(Full()) + Zeros(Gap(old(pos)))
    {
      var next := Aligned(pos);
      SeekForward(next - pos);
    }
  }
}
