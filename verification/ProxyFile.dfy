// The proxy file on the client: proxyfs_pipe_proxy_file with its base classes, and
// the blocking write of the file system above it (src/proxyfs/proxyfs_fs.c).

module ProxyFile {
  import opened Bytes
  import opened Streams
  import opened CircBuf
  import opened PipeRecords
  import opened Messages
  import opened Files
  import opened StreamFile

  /** What the client thread does to the write buffer while a writer sleeps. */
  datatype Event = Sent | Confirmed(n: nat)

  class File {
    const base: Base
    var eof: bool
    var readRequested: bool
    /** What happens at each point where the writer can be overtaken; when this runs out, a sleeper is interrupted. */
    var events: seq<seq<Event>>
    ghost var records: seq<seq<byte>>

    ghost predicate Valid()
      reads this, base, base.writeBuf, base.writeBuf.data, base.readBuf, base.readBuf.data
    {
      base.Valid()
    }

    ghost function View(): (c: Proxy)
      reads this, base, base.writeBuf, base.writeBuf.data, base.readBuf, base.readBuf.data
      requires Valid()
    {
      Proxy(base.Out(), base.unconfirmed, base.In(), eof, readRequested)
    }

    constructor (events: seq<seq<Event>>)
      ensures Valid() && View() == FRESH && records == [] && this.events == events && fresh(base.Parts())
    {
      base := new Base();
      eof, readRequested := false, false;
      this.events := events;
      records := [];
    }

    /**
     * proxyfs_pipe_proxy_file_write_user: the number of payload bytes appended, or
     * minus the space to wait for.
     */
    method WriteUser(buf: seq<byte>) returns (length: int)
      requires Valid()
      modifies this`records, base.writeBuf, base.writeBuf.data
      ensures Valid() && View() == Files.WriteUser(old(View()), buf)
      ensures var a := Accept(Room(old(View()).wbuf), buf);
              && (a.Refused? ==> length == 0 - a.need) && (a.Payload? ==> length == |a.bytes|)
              && records == old(records) + if a.Payload? then [a.bytes] else []
    {
      hide Ring.Contents, Ring.Valid, Le;
      var free := base.writeBuf.FreeSpace();
      if free < 2 * COUNTER_SIZE {
        return -(2 * COUNTER_SIZE);
      }
      if |buf| <= PIPE_BUF && free < COUNTER_SIZE + |buf| {
        return -(COUNTER_SIZE + |buf|);
      }
      var size := Min(free - COUNTER_SIZE, |buf|);
      ghost var before := base.Out();
      var _ := base.writeBuf.Write(Le(size, COUNTER_SIZE));
      assert Le(size, COUNTER_SIZE)[..COUNTER_SIZE] == Le(size, COUNTER_SIZE);
      length := base.writeBuf.Write(buf[..size]);
      assert buf[..size][..size] == buf[..size];
      Assoc(before, Le(size, COUNTER_SIZE), buf[..size]);
      records := records + [buf[..size]];
    }

    /** proxyfs_proxy_file_read_user: the bytes, and the acknowledgement that follows them. */
    method ReadUser(count: nat) returns (data: seq<byte>, ack: Msg)
      requires Valid()
      modifies base.readBuf
      ensures Valid() && data == old(View()).rbuf[..Min(count, |old(View()).rbuf|)]
      ensures View() == old(View()).(rbuf := old(View()).rbuf[|data|..]) && ack == WriteResp(|data|)
    {
      hide Ring.Contents, Ring.Valid;
      data := base.readBuf.Read(count);
      ack := WriteResp(|data|);
    }

    /** proxyfs_proxy_file_write_from_peer: no data means end of file. */
    method WriteFromPeer(data: seq<byte>)
      requires Valid()
      modifies this`eof, base.readBuf, base.readBuf.data
      ensures Valid() && View() == Files.WriteFromPeer(old(View()), data)
    {
      hide Ring.Contents, Ring.Valid, Fill;
      if data == [] {
        eof := true;
      } else {
        var _ := base.WriteFromPeer(data);
      }
    }

    /** The client thread sends or handles acknowledgements, never for more than was sent. */
    method Overtaken()
      requires Valid()
      modifies this`events, base, base.writeBuf
      ensures Valid() && |base.Out()| <= |old(base.Out())|
      ensures if old(events) == [] then events == [] && View() == old(View()) else events == old(events)[1..]
    {
      hide Ring.Contents, Ring.Valid;
      if events == [] {
        return;
      }
      var batch := events[0];
      events := events[1..];
      for i := 0 to |batch|
        invariant Valid() && |base.Out()| <= |old(base.Out())| && events == old(events)[1..]
      {
        match batch[i]
        case Sent =>
          var _, _ := base.SendWriteBuf();
        case Confirmed(n) =>
          base.SubmitReadToPeer(Min(n, base.unconfirmed));
      }
    }

    /** proxyfs_proxy_file_wait_for_space_interruptible; false when a signal ended the wait. */
    method WaitForSpace(space: nat) returns (ok: bool)
      requires Valid() && space <= BUF_SIZE
      modifies this`events, base, base.writeBuf
      ensures Valid() && |events| <= |old(events)|
      ensures (ok <==> Room(base.Out()) >= space) && Room(base.Out()) >= Room(old(base.Out()))
      ensures |events| == |old(events)| ==> base.Out() == old(base.Out())
      ensures Room(old(base.Out())) >= space ==> events == old(events)
      ensures !ok ==> events == []
    {
      hide Ring.Contents, Ring.Valid;
      var free := base.writeBuf.FreeSpace();
      while free < space
        invariant Valid() && free == Room(base.Out()) && |base.Out()| <= |old(base.Out())|
        invariant |events| <= |old(events)|
        invariant |events| == |old(events)| ==> base.Out() == old(base.Out())
        invariant Room(old(base.Out())) >= space ==> events == old(events)
        decreases |events|
      {
        if events == [] {
          return false;
        }
        Overtaken();
        free := base.writeBuf.FreeSpace();
      }
      ok := true;
    }

    /** One pass of the write loop up to the answer of write_user; room is what it found. */
    method Attempt(rest: seq<byte>) returns (length: int, ghost room: nat)
      requires Valid()
      modifies this`events, this`records, base, base.writeBuf, base.writeBuf.data
      ensures Valid() && room >= Room(old(base.Out()))
      ensures if old(events) == [] then events == [] && room == Room(old(base.Out())) else |events| < |old(events)|
      ensures match Accept(room, rest)
              case Refused(need) => length == 0 - need && records == old(records) && Room(base.Out()) == room
              case Payload(bytes) =>
                length == |bytes| && records == old(records) + [bytes] && Room(base.Out()) == room - COUNTER_SIZE - |bytes|
    {
      hide Ring.Contents, Ring.Valid, Le, Base.Valid;
      Overtaken();
      room := Room(base.Out());
      length := WriteUser(rest);
    }

    /**
     * proxyfs_fs_fdinode_write, whose outcome is described by Outcome. A blocking write
     * fails only when it is interrupted.
     */
    method Write(buf: seq<byte>, nonblock: bool) returns (result: int, ghost added: seq<seq<byte>>)
      requires Valid()
      modifies this`events, this`records, base, base.writeBuf, base.writeBuf.data
      ensures Valid() && records == old(records) + added
      ensures Outcome(buf, nonblock, Room(old(base.Out())), old(events) == [], Room(base.Out()), result, added)
      ensures !nonblock && result < 0 ==> events == []
    {
      hide Ring.Contents, Ring.Valid, Le, Base.Valid, Accept, Flat, Going, Outcome;
      var total := 0;
      added := [];
      assert records + [] == records;
      ghost var first, alone := Room(base.Out()), events == [];
      Start(buf, nonblock, first, alone);
      while true
        invariant Valid() && records == old(records) + added && total <= |buf|
        invariant Going(buf, nonblock, first, alone, Room(base.Out()), total, added)
        invariant alone ==> events == []
        decreases |events|, |buf| - total, Room(base.Out())
      {
        ghost var now := Room(base.Out());
        ghost var room;
        var length;
        length, room := Attempt(buf[total..]);
        ghost var a := Accept(room, buf[total..]);
        if length > 0 {
          Appended(buf, nonblock, first, alone, now, total, added, room);
          added, total := added + [a.bytes], total + length;
          if total == |buf| || nonblock {
            return total, added;
          }
        } else if length == 0 {
          Empty(buf, nonblock, first, alone, now, total, added, room);
          added := added + [a.bytes];
          if nonblock {
            return -11, added;
          }
          var ok := WaitForSpace(1);
          Emptied(buf, first, alone, Room(base.Out()), added);
          if !ok {
            return -512, added;
          }
        } else {
          if nonblock {
            TurnedAway(buf, nonblock, first, alone, now, total, added, room, Room(base.Out()));
            return -11, added;
          }
          var ok := WaitForSpace(-length);
          if !ok {
            TurnedAway(buf, nonblock, first, alone, now, total, added, room, Room(base.Out()));
            return -512, added;
          }
          Waited(buf, nonblock, first, alone, now, total, added, room, Room(base.Out()));
        }
      }
    }
  }

  /**
   * What a write did, that found first bytes of room and left now of it: the records it
   * added and its result. With alone no other thread touched the buffer meanwhile.
   */
  ghost predicate Outcome(buf: seq<byte>, nonblock: bool, first: nat, alone: bool, now: nat, result: int, added: seq<seq<byte>>) {
    // the records are, in order, a prefix of the buffer, all that a positive result reports
    && Flat(added) <= buf && result != 0
    && (result > 0 ==> result <= |buf| && Flat(added) == buf[..result])
    && (result > 0 && !nonblock ==> result == |buf|)
    && (result > 0 && |buf| <= PIPE_BUF ==> added == [buf])
    && (result > 0 && nonblock ==> added == [buf[..result]])
    // an empty buffer never succeeds; a non-blocking write fails for lack of space only, and
    // takes all that there is room for
    && (buf == [] ==> result < 0)
    && (result < 0 && nonblock ==> buf == [] || (added == [] && !Takes(now, |buf|)))
    && (result > 0 && nonblock ==> result == |buf| || now == 0)
    && (alone && nonblock && buf != [] ==> (result > 0 <==> Takes(first, |buf|)))
    // of a blocking write that was interrupted the rest did not fit
    && (result < 0 && !nonblock && buf != [] ==> !Takes(now, |buf| - |Flat(added)|))
    // a failure hides bytes in the stream only for buffers longer than PIPE_BUF, and
    // always for those if there was room for a record to begin with
    && (result < 0 && Flat(added) != [] ==> !nonblock && |buf| > PIPE_BUF && |Flat(added)| < |buf|)
    && (result < 0 && !nonblock && |buf| > PIPE_BUF && Flat(added) == [] ==> now < 2 * COUNTER_SIZE)
    && (result < 0 && !nonblock && first >= 2 * COUNTER_SIZE ==> (Flat(added) != [] <==> |buf| > PIPE_BUF))
    // without other threads the room decides how much gets in
    && (alone && !nonblock && |buf| > PIPE_BUF && first >= 2 * COUNTER_SIZE ==>
          var n := Min(first - COUNTER_SIZE, |buf|);
          added == [buf[..n]] && result == if n == |buf| then n else -512)
  }

  /** The state of a write between two attempts, with now bytes of room. */
  ghost predicate Going(buf: seq<byte>, nonblock: bool, first: nat, alone: bool, now: nat, total: nat, added: seq<seq<byte>>) {
    && total <= |buf| && Flat(added) == buf[..total]
    && (total > 0 ==> !nonblock && total < |buf| && |buf| > PIPE_BUF)
    && (total == 0 && buf != [] ==> added == [])
    && (total == 0 && |buf| > PIPE_BUF ==> now >= first)
    && (alone && nonblock ==> now == first)
    && (alone && |buf| > PIPE_BUF && first >= 2 * COUNTER_SIZE ==>
          if total == 0 then now == first else added == [buf[..total]] && total == first - COUNTER_SIZE && now == 0)
  }

  lemma Start(buf: seq<byte>, nonblock: bool, first: nat, alone: bool)
    ensures Going(buf, nonblock, first, alone, first, 0, [])
  {
  }

  lemma Appended(buf: seq<byte>, nonblock: bool, first: nat, alone: bool, now: nat, total: nat, added: seq<seq<byte>>, room: nat)
    requires Going(buf, nonblock, first, alone, now, total, added) && room >= now && (alone ==> room == now)
    requires var a := Accept(room, buf[total..]); a.Payload? && a.bytes != []
    ensures var piece := Accept(room, buf[total..]).bytes;
            var sum, more, left := total + |piece|, added + [piece], room - COUNTER_SIZE - |piece|;
            && sum <= |buf| && left >= 0
            && if sum == |buf| || nonblock then Outcome(buf, nonblock, first, alone, left, sum, more)
               else Going(buf, nonblock, first, alone, left, sum, more)
  {
    hide Flat;
    var piece := Accept(room, buf[total..]).bytes;
    var more := Grow(added, piece, buf, total);
    if added == [] {
      assert [] + [piece] == [piece];
    }
  }

  lemma Empty(buf: seq<byte>, nonblock: bool, first: nat, alone: bool, now: nat, total: nat, added: seq<seq<byte>>, room: nat)
    requires Going(buf, nonblock, first, alone, now, total, added)
    requires Accept(room, buf[total..]) == Payload([])
    ensures buf == [] && total == 0 && Flat(added + [[]]) == []
    ensures nonblock ==> forall left :: Outcome(buf, nonblock, first, alone, left, -11, added + [[]])
  {
    FlatSnoc(added, []);
  }

  lemma Emptied(buf: seq<byte>, first: nat, alone: bool, now: nat, added: seq<seq<byte>>)
    requires buf == [] && Flat(added) == []
    ensures Going(buf, false, first, alone, now, 0, added) && Outcome(buf, false, first, alone, now, -512, added)
  {
  }

  lemma TurnedAway(buf: seq<byte>, nonblock: bool, first: nat, alone: bool, now: nat, total: nat, added: seq<seq<byte>>, room: nat, left: nat)
    requires Going(buf, nonblock, first, alone, now, total, added) && room >= now && (alone ==> room == now)
    requires var a := Accept(room, buf[total..]); a.Refused? && left < a.need && (nonblock ==> left == room)
    ensures Outcome(buf, nonblock, first, alone, left, if nonblock then -11 else -512, added)
  {
    if total == 0 {
      assert buf[total..] == buf;
    }
  }

  lemma Waited(buf: seq<byte>, nonblock: bool, first: nat, alone: bool, now: nat, total: nat, added: seq<seq<byte>>, room: nat, left: nat)
    requires Going(buf, nonblock, first, alone, now, total, added) && room >= now && (alone ==> room == now)
    requires Accept(room, buf[total..]).Refused? && left >= room && (alone ==> left == room)
    ensures Going(buf, nonblock, first, alone, left, total, added)
  {
  }

  /** An interrupted write of 8193 bytes into an empty buffer has left 8188 of them in the stream. */
  method InterruptedWrite(buf: seq<byte>) returns (result: int, ghost added: seq<seq<byte>>)
    requires |buf| == BUF_SIZE + 1
    ensures result == -512 && added == [buf[..8188]]
  {
    var f := new File([]);
    result, added := f.Write(buf, false);
  }

  ghost function Grow(added: seq<seq<byte>>, piece: seq<byte>, buf: seq<byte>, total: nat): (r: seq<seq<byte>>)
    requires total <= |buf| && Flat(added) == buf[..total] && piece <= buf[total..]
    ensures r == added + [piece] && Flat(r) == buf[..total + |piece|]
  {
    FlatSnoc(added, piece);
    assert buf[..total] + piece == buf[..total + |piece|];
    added + [piece]
  }
}
