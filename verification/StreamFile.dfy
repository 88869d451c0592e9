// The part that proxy files and real files share: struct proxyfs_file_t with its
// two circular buffers (src/proxyfs/proxyfs_file.h) and the sending of the write
// buffer (src/proxyfs/proxyfs_task.c).

module StreamFile {
  import opened Bytes
  import opened Streams
  import opened CircBuf
  import opened Messages
  import opened Files

  class Base {
    const writeBuf: Ring
    const readBuf: Ring
    var unconfirmed: nat

    ghost predicate Valid()
      reads this, writeBuf, writeBuf.data, readBuf, readBuf.data
    {
      && writeBuf != readBuf && writeBuf.data != readBuf.data
      && writeBuf.Valid() && readBuf.Valid()
      && writeBuf.data.Length == BUF_SIZE && readBuf.data.Length == BUF_SIZE
      && unconfirmed <= |writeBuf.Contents()|
    }

    ghost function Out(): (s: seq<byte>)
      reads this, writeBuf, writeBuf.data, readBuf, readBuf.data
      requires Valid()
    {
      writeBuf.Contents()
    }

    ghost function In(): (s: seq<byte>)
      reads this, writeBuf, writeBuf.data, readBuf, readBuf.data
      requires Valid()
    {
      readBuf.Contents()
    }

    ghost function Parts(): (s: set<object>)
      reads this
    {
      {this, writeBuf, writeBuf.data, readBuf, readBuf.data}
    }

    constructor ()
      ensures Valid() && Out() == [] && In() == [] && unconfirmed == 0
      ensures fresh(Parts())
    {
      writeBuf := new Ring(BUF_SIZE);
      readBuf := new Ring(BUF_SIZE);
      unconfirmed := 0;
    }

    /** write_from_peer: the caller ignores how much was accepted. */
    method WriteFromPeer(data: seq<byte>) returns (n: nat)
      requires Valid()
      modifies readBuf, readBuf.data
      ensures Valid() && In() == Fill(old(In()), data) && Out() == old(Out()) && unconfirmed == old(unconfirmed)
      ensures n == Min(|data|, Room(old(In())))
    {
      hide Ring.Contents, Ring.Valid;
      n := readBuf.Write(data);
    }

    /** read_to_peer: the oldest bytes not sent yet, now counted as sent. */
    method ReadToPeer(count: nat) returns (data: seq<byte>)
      requires Valid()
      modifies this, writeBuf
      ensures Valid() && Out() == old(Out()) && In() == old(In())
      ensures |data| == Min(count, |Out()| - old(unconfirmed)) && unconfirmed == old(unconfirmed) + |data|
      ensures data == Out()[old(unconfirmed)..unconfirmed]
    {
      hide Ring.Contents, Ring.Valid;
      data := writeBuf.LookAt(count, unconfirmed);
      unconfirmed := unconfirmed + |data|;
    }

    /** submit_read_to_peer: the peer has consumed n bytes. */
    method SubmitReadToPeer(n: nat)
      requires Valid() && n <= unconfirmed
      modifies this, writeBuf
      ensures Valid() && Out() == old(Out())[n..] && unconfirmed == old(unconfirmed) - n && In() == old(In())
    {
      hide Ring.Contents, Ring.Valid;
      writeBuf.AdjustRead(n);
      unconfirmed := unconfirmed - n;
    }

    /** proxyfs_task_send_write_buf: at most one message; again when bytes are left. */
    method SendWriteBuf() returns (msgs: seq<Msg>, again: bool)
      requires Valid()
      modifies this, writeBuf
      ensures Valid() && Out() == old(Out()) && In() == old(In())
      ensures var unsent := old(Out()[unconfirmed..]); var n := Min(|unsent|, MAX_DATA);
              && msgs == (if unsent == [] then [] else [Write(unsent[..n])])
              && unconfirmed == old(unconfirmed) + n
              && again == (|unsent| > MAX_DATA)
    {
      hide Ring.Contents, Ring.Valid;
      var total := writeBuf.Count();
      var send := total - unconfirmed;
      if send == 0 {
        return [], false;
      }
      again := false;
      if send > MAX_DATA {
        send := MAX_DATA;
        again := true;
      }
      ghost var sent := unconfirmed;
      var data := ReadToPeer(send);
      assert data == Out()[sent..][..send];
      msgs := [Write(data)];
    }

    /** proxyfs_task_send_buffers for this file: everything unsent, in messages that fit. */
    method SendBuffers() returns (msgs: seq<Msg>)
      requires Valid()
      modifies this, writeBuf
      ensures Valid() && Out() == old(Out()) && In() == old(In()) && unconfirmed == |Out()|
      ensures msgs == Chunks(old(Out()[unconfirmed..]))
    {
      hide Ring.Contents, Ring.Valid, Chunks;
      ghost var all := Chunks(Out()[unconfirmed..]);
      var again := true;
      msgs := [];
      while again
        invariant Valid() && Out() == old(Out()) && In() == old(In())
        invariant all == msgs + (if again then Chunks(Out()[unconfirmed..]) else [])
        invariant again || unconfirmed == |Out()|
        decreases |Out()| - unconfirmed, again
      {
        ghost var unsent := Out()[unconfirmed..];
        var more;
        more, again := SendWriteBuf();
        FirstChunk(unsent, msgs);
        msgs := msgs + more;
        assert again ==> Out()[unconfirmed..] == unsent[MAX_DATA..];
      }
    }
  }

  lemma FirstChunk(unsent: seq<byte>, before: seq<Msg>)
    ensures unsent == [] ==> before + Chunks(unsent) == before
    ensures 0 < |unsent| <= MAX_DATA ==> Chunks(unsent) == [Write(unsent[..|unsent|])]
    ensures |unsent| > MAX_DATA ==>
            before + Chunks(unsent) == (before + [Write(unsent[..MAX_DATA])]) + Chunks(unsent[MAX_DATA..])
  {
    assert unsent[..|unsent|] == unsent;
  }
}
