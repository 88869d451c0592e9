// The real file on the server: proxyfs_pipe_real_file with the base classes it
// extends, and the per-file part of the server loop.

module RealFile {
  import opened Bytes
  import opened Streams
  import opened CircBuf
  import opened PipeRecords
  import opened Messages
  import opened Files
  import opened StreamFile

  /** What one vfs_read returned: an error, or data, which is none at the end of the pipe. */
  datatype Reply = Failed | Gave(data: seq<byte>)

  function Given(r: Reply): (data: seq<byte>) {
    if r.Failed? then [] else r.data
  }

  /** All the bytes of a series of reads. */
  function AllGiven(rs: seq<Reply>): (data: seq<byte>) {
    if rs == [] then [] else AllGiven(rs[..|rs| - 1]) + Given(rs[|rs| - 1])
  }

  /**
   * The pipe behind a real file. Its answers to poll, vfs_write and vfs_read are
   * taken from scripts, so that a statement for all scripts covers everything a
   * pipe may do: a write of at most PIPE_BUF bytes is taken whole or not at all.
   */
  class Pipe {
    var polls: seq<bool>
    var takes: seq<nat>
    var gives: seq<Reply>
    ghost var log: seq<seq<byte>>   // every vfs_write that took something
    ghost var got: seq<Reply>       // what each vfs_read returned
    ghost var asked: seq<nat>       // how much each of them asked for
    ghost var offered: nat          // the size of the last vfs_write
    ghost var refused: bool         // the last poll or write found the pipe not ready

    method Poll() returns (ok: bool)
      modifies this`polls, this`refused
      ensures refused == !ok && ok == (old(polls) != [] && old(polls)[0])
      ensures polls == if old(polls) == [] then [] else old(polls)[1..]
    {
      ok := false;
      if polls != [] {
        ok := polls[0];
        polls := polls[1..];
      }
      refused := !ok;
    }

    method VfsWrite(buf: seq<byte>) returns (n: nat)
      modifies this`takes, this`log, this`refused, this`offered
      ensures refused == (n == 0) && offered == |buf|
      ensures n <= |buf| && (|buf| <= PIPE_BUF ==> n == 0 || n == |buf|)
      ensures log == old(log) + if n > 0 then [buf[..n]] else []
    {
      n := 0;
      if takes != [] {
        n := if takes[0] > 0 && |buf| <= PIPE_BUF then |buf| else Min(takes[0], |buf|);
        takes := takes[1..];
      }
      log := log + if n > 0 then [buf[..n]] else [];
      refused, offered := n == 0, |buf|;
    }

    method VfsRead(max: nat) returns (reply: Reply)
      modifies this`gives, this`got, this`asked
      ensures |Given(reply)| <= max && got == old(got) + [reply] && asked == old(asked) + [max]
      ensures old(gives) != [] ==> reply.Failed? == old(gives)[0].Failed? && (old(gives)[0] == Gave([]) ==> reply == Gave([]))
    {
      reply := Gave([]);
      if gives != [] {
        if gives[0].Failed? {
          reply := Failed;
        } else {
          reply := Gave(gives[0].data[..Min(max, |gives[0].data|)]);
        }
        gives := gives[1..];
      }
      got, asked := got + [reply], asked + [max];
    }
  }

  /** Whether the read buffer holds enough for another turn. */
  ghost predicate CanTurn(p: Parser) {
    if p.counter == 0 then |p.rbuf| >= COUNTER_SIZE
    else if p.atomic then |p.rbuf| >= p.counter
    else |p.rbuf| > 0
  }

  /** The log of vfs_writes that the grouping by record stands for. */
  ghost function Writes(outs: seq<seq<seq<byte>>>, cur: seq<seq<byte>>): (ws: seq<seq<byte>>) {
    Joined(outs) + cur
  }

  ghost function Joined(outs: seq<seq<seq<byte>>>): (ws: seq<seq<byte>>) {
    if outs == [] then [] else Joined(outs[..|outs| - 1]) + outs[|outs| - 1]
  }

  lemma FinishWrites(p: Parser)
    ensures Writes(Finish(p).outs, Finish(p).cur) == Writes(p.outs, p.cur)
  {
    assert (p.outs + [p.cur])[..|p.outs|] == p.outs;
  }

  lemma EmitWrites(p: Parser, n: nat)
    requires n <= p.counter && n <= |p.rbuf|
    ensures var q := Finish(Emit(p, n));
            Writes(q.outs, q.cur) == Writes(p.outs, p.cur) + [p.rbuf[..n]]
  {
    FinishWrites(Emit(p, n));
  }

  class File {
    const base: Base
    const pipe: Pipe
    var peer: Option<nat>
    var counter: nat
    var atomic: bool
    var readRequested: bool
    var eof: bool
    var closed: bool
    var removed: bool
    ghost var taken: seq<byte>
    ghost var outs: seq<seq<seq<byte>>>
    ghost var cur: seq<seq<byte>>

    ghost function Parts(): (s: set<object>)
      reads this, base
    {
      {this, pipe} + base.Parts()
    }

    ghost predicate Valid()
      reads this, pipe, base, base.writeBuf, base.writeBuf.data, base.readBuf, base.readBuf.data
    {
      base.Valid() && pipe.log == Writes(outs, cur) && (counter > 0 && atomic ==> counter <= PIPE_BUF)
    }

    ghost function Parse(): (p: Parser)
      reads this, pipe, base, base.writeBuf, base.writeBuf.data, base.readBuf, base.readBuf.data
      requires Valid()
    {
      Parser(base.In(), counter, atomic, taken, outs, cur)
    }

    ghost function View(): (f: Real)
      reads this, pipe, base, base.writeBuf, base.writeBuf.data, base.readBuf, base.readBuf.data
      requires Valid()
    {
      Real(base.Out(), base.unconfirmed, Parse(), peer, readRequested, eof, closed, removed)
    }

    constructor (pipe: Pipe)
      requires pipe.log == []
      ensures Valid() && View() == NEW_REAL
    {
      base := new Base();
      this.pipe := pipe;
      peer, counter, atomic := None, 0, false;
      readRequested, eof, closed, removed := false, false, false, false;
      taken, outs, cur := [], [], [];
    }

    /** Removes n bytes from the read buffer. */
    method Consume(n: nat)
      requires Valid() && n <= |Parse().rbuf|
      modifies this`taken, base.readBuf
      ensures Valid() && View() == old(View()).(parser := Drop(old(Parse()), n))
    {
      hide Ring.Contents, Ring.Valid, Writes;
      taken := taken + base.In()[..n];
      base.readBuf.AdjustRead(n);
    }

    /** Ends the record in progress when its counter is zero. */
    ghost method EndRecord()
      requires base.Valid()
      modifies this`outs, this`cur
      ensures base.Valid() && Writes(outs, cur) == old(Writes(outs, cur))
      ensures Parser(base.In(), counter, atomic, taken, outs, cur)
           == Finish(Parser(base.In(), counter, atomic, taken, old(outs), old(cur)))
    {
      FinishWrites(Parser(base.In(), counter, atomic, taken, outs, cur));
      if counter == 0 {
        outs, cur := outs + [cur], [];
      }
    }

    /** A new record: look at its length without consuming it, then decide. */
    method TakeLength() returns (n: nat)
      requires Valid() && counter == 0
      modifies this`counter, this`atomic, this`taken, this`outs, this`cur, base.readBuf
      ensures Valid()
      ensures n == 0 ==> View() == old(View()) && !CanTurn(Parse())
      ensures n > 0 ==> n == COUNTER_SIZE && TurnOk(old(Parse()), TakeHeader)
                        && View() == old(View()).(parser := Do(old(Parse()), TakeHeader))
                        && n == |old(Parse()).rbuf| - |Parse().rbuf|
    {
      hide Ring.Contents, Ring.Valid, Writes;
      var head := base.readBuf.LookAt(COUNTER_SIZE, 0);
      if |head| < COUNTER_SIZE {
        return 0;
      }
      assert head == base.In()[..COUNTER_SIZE];
      counter := FromLe(head);
      atomic := counter <= PIPE_BUF;
      Consume(COUNTER_SIZE);
      EndRecord();
      n := COUNTER_SIZE;
    }

    /** The oldest n bytes, copied when they wrap around the end of the buffer. */
    method Oldest(n: nat) returns (buf: seq<byte>)
      requires Valid() && n <= |Parse().rbuf|
      modifies base.readBuf
      ensures Valid() && View() == old(View()) && buf == Parse().rbuf[..n]
    {
      hide Ring.Contents, Ring.Valid, Writes;
      var run := base.readBuf.ReadSize();
      if run < n {
        buf := base.readBuf.LookAt(n, 0);
      } else {
        buf := base.readBuf.PeekRun(n);
      }
    }

    /** The fields after a vfs_write took the next n bytes. */
    method Advance(n: nat)
      requires base.Valid() && 0 < n <= counter && n <= |base.In()| && (atomic ==> n == counter)
      requires pipe.log == Writes(outs, cur) + [base.In()[..n]]
      modifies this`counter, this`taken, this`outs, this`cur, base.readBuf
      ensures Valid() && base.Out() == old(base.Out()) && base.unconfirmed == old(base.unconfirmed)
      ensures Parse() == Finish(Emit(old(Parser(base.In(), counter, atomic, taken, outs, cur)), n))
    {
      hide Ring.Contents, Ring.Valid, Writes;
      EmitWrites(Parser(base.In(), counter, atomic, taken, outs, cur), n);
      taken, cur := taken + base.In()[..n], cur + [base.In()[..n]];
      base.readBuf.AdjustRead(n);
      counter := counter - n;
      EndRecord();
    }

    /** One vfs_write of up to max bytes of the record in progress. */
    method EmitUpTo(max: nat) returns (n: nat)
      requires Valid() && 0 < max <= counter && max <= |Parse().rbuf| && (atomic ==> max == counter)
      modifies this`counter, this`taken, this`outs, this`cur, base.readBuf, pipe`takes, pipe`log, pipe`refused, pipe`offered
      ensures Valid() && n <= max && (atomic ==> n == 0 || n == max) && pipe.refused == (n == 0) && pipe.offered == max
      ensures View() == if n == 0 then old(View()) else old(View()).(parser := Finish(Emit(old(Parse()), n)))
    {
      hide Ring.Contents, Ring.Valid, Writes, Finish, Emit;
      var buf := Oldest(max);
      n := pipe.VfsWrite(buf);
      if n > 0 {
        assert buf[..n] == base.In()[..n];
        Advance(n);
      }
    }

    /** The part of a turn inside a record: all of an atomic one or what of another lies in one run. */
    method EmitTurn(run: nat) returns (n: nat, ghost turns: seq<Turn>)
      requires Valid() && counter > 0 && 0 < run <= |Parse().rbuf|
      modifies this`counter, this`taken, this`outs, this`cur, base.readBuf, pipe`takes, pipe`log, pipe`refused, pipe`offered
      ensures Valid() && (n > 0 ==> pipe.offered == if atomic then old(counter) else Min(run, old(counter)))
      ensures n == 0 ==> turns == [] && View() == old(View()) && (pipe.refused || !CanTurn(Parse()))
      ensures n > 0 ==> |turns| == 1 && TurnOk(old(Parse()), turns[0])
                        && View() == old(View()).(parser := Do(old(Parse()), turns[0]))
                        && n == |old(Parse()).rbuf| - |Parse().rbuf|
    {
      hide Ring.Contents, Ring.Valid, Writes;
      turns := [];
      if atomic {
        var available := base.readBuf.Count();
        if available < counter {
          return 0, [];
        }
        n := EmitUpTo(counter);
        turns := if n > 0 then [EmitWhole] else [];
      } else {
        n := EmitUpTo(Min(run, counter));
        turns := if n > 0 then [EmitPart(n)] else [];
      }
    }

    /** One turn of the restart_write loop; zero when the loop has to stop. */
    method WriteTurn() returns (n: nat, ghost turns: seq<Turn>)
      requires Valid()
      modifies this`counter, this`atomic, this`taken, this`outs, this`cur, base.readBuf, pipe
      ensures Valid() && pipe.got == old(pipe.got)
      ensures n > 0 && old(counter) > 0 ==>
                pipe.offered == if atomic then old(counter) else Min(Min(|old(Parse()).rbuf|, 8192 - old(base.readBuf.rd)), old(counter))
      ensures n == 0 ==> turns == [] && View() == old(View()) && (pipe.refused || !CanTurn(Parse()))
      ensures n > 0 ==> |turns| == 1 && TurnOk(old(Parse()), turns[0])
                        && View() == old(View()).(parser := Do(old(Parse()), turns[0]))
                        && n == |old(Parse()).rbuf| - |Parse().rbuf|
    {
      hide Ring.Contents, Ring.Valid, Writes, Do, TurnOk;
      turns := [];
      var ok := pipe.Poll();
      if !ok {
        return 0, [];
      }
      var run := base.readBuf.ReadSize();
      if run == 0 {
        return 0, [];
      }
      if counter == 0 {
        n := TakeLength();
        turns := if n > 0 then [TakeHeader] else [];
      } else {
        n, turns := EmitTurn(run);
      }
    }

    /**
     * proxyfs_pipe_real_file_write: turn after turn until the pipe or the buffer
     * stops it; the result is the number of bytes removed from the read buffer.
     */
    method WritePass() returns (total: nat, ghost turns: seq<Turn>)
      requires Valid()
      modifies this`counter, this`atomic, this`taken, this`outs, this`cur, base.readBuf, pipe
      ensures Valid() && TurnsOk(old(Parse()), turns)
      ensures View() == old(View()).(parser := DoAll(old(Parse()), turns))
      ensures total == |old(Parse()).rbuf| - |Parse().rbuf|
      ensures (pipe.refused || !CanTurn(Parse())) && pipe.got == old(pipe.got)
    {
      hide Ring.Contents, Ring.Valid, Writes, Do, TurnOk, TurnsOk, DoAll, Base.Valid;
      total, turns := 0, [];
      NoTurns(Parse());
      while true
        invariant Valid() && TurnsOk(old(Parse()), turns)
        invariant View() == old(View()).(parser := DoAll(old(Parse()), turns))
        invariant total == |old(Parse()).rbuf| - |Parse().rbuf| && pipe.got == old(pipe.got)
        decreases |Parse().rbuf|
      {
        ghost var more;
        var n;
        n, more := WriteTurn();
        if n == 0 {
          return;
        }
        OneMore(old(Parse()), turns, more[0]);
        assert more == [more[0]];
        turns := turns + more;
        total := total + n;
      }
    }

    /** Appends to the write buffer what one vfs_read into its free run returned; an error appends nothing. */
    method ReadRun() returns (reply: Reply, whole: bool)
      requires Valid() && Room(View().wbuf) > 0
      modifies base.writeBuf, base.writeBuf.data, pipe`gives, pipe`got, pipe`asked
      ensures Valid() && |Given(reply)| <= Room(old(View()).wbuf)
      ensures View() == old(View()).(wbuf := old(View()).wbuf + Given(reply))
      ensures var run := Min(Room(old(View()).wbuf), BUF_SIZE - old(base.writeBuf.wr));
              && pipe.got == old(pipe.got) + [reply] && pipe.asked == old(pipe.asked) + [run]
              && |Given(reply)| <= run && (whole <==> |Given(reply)| == run) && run > 0
              && (whole ==> Room(View().wbuf) == 0 || base.writeBuf.wr == 0)
      ensures old(pipe.gives) != [] ==> reply.Failed? == old(pipe.gives)[0].Failed?
    {
      hide Ring.Contents, Ring.Valid, Writes;
      var run := base.writeBuf.WriteSize();
      reply := pipe.VfsRead(run);
      if |Given(reply)| > 0 {
        base.writeBuf.PutRun(Given(reply));
      }
      whole := |Given(reply)| == run;
    }

    /**
     * proxyfs_pipe_real_file_read: at most two reads, the second when the first
     * filled the run up to the end of the block; -EAGAIN when nothing was tried, zero
     * when the one read returned nothing or an error. All that was read is in the write
     * buffer.
     */
    method ReadPass() returns (result: int, ghost data: seq<byte>, ghost replies: seq<Reply>, ghost asked: seq<nat>)
      requires Valid()
      modifies base.writeBuf, base.writeBuf.data, pipe
      ensures Valid() && |data| <= Room(old(View()).wbuf)
      ensures View() == old(View()).(wbuf := old(View()).wbuf + data)
      ensures pipe.got == old(pipe.got) + replies && data == AllGiven(replies)
      ensures result < 0 <==> replies == []
      ensures result >= 0 ==> result == |data| && readRequested && Room(old(View()).wbuf) > 0
      ensures result == 0 <==> replies != [] && Given(replies[0]) == []
      ensures result < 0 <==> !readRequested || Room(old(View()).wbuf) == 0 || !old(pipe.polls != [] && pipe.polls[0])
      ensures result >= 0 && old(pipe.gives) != [] ==> replies[0].Failed? == old(pipe.gives)[0].Failed?
      ensures pipe.asked == old(pipe.asked) + asked && Reads(Room(old(View()).wbuf), old(base.writeBuf.wr), old(pipe.polls), replies, asked)
      ensures result > 0 ==> Ended(Room(View().wbuf), pipe.refused, replies, asked)
    {
      hide Ring.Contents, Ring.Valid, Writes, AllGiven;
      data, replies, asked := [], [], [];
      NoReads();
      if !readRequested {
        return -11, [], [], [];
      }
      var ok := pipe.Poll();
      if !ok {
        return -11, [], [], [];
      }
      var free := base.writeBuf.FreeSpace();
      if free == 0 {
        return -11, [], [], [];
      }
      result, data, replies, asked := ReadBoth();
    }

    /** The reads of a pass, when there is room and the poll agreed. */
    method ReadBoth() returns (result: int, ghost data: seq<byte>, ghost replies: seq<Reply>, ghost asked: seq<nat>)
      requires Valid() && Room(View().wbuf) > 0
      modifies base.writeBuf, base.writeBuf.data, pipe
      ensures Valid() && result == |data| <= Room(old(View()).wbuf)
      ensures View() == old(View()).(wbuf := old(View()).wbuf + data)
      ensures pipe.got == old(pipe.got) + replies && data == AllGiven(replies) && replies != []
      ensures result == 0 <==> Given(replies[0]) == []
      ensures old(pipe.gives) != [] ==> replies[0].Failed? == old(pipe.gives)[0].Failed?
      ensures pipe.asked == old(pipe.asked) + asked
      ensures Reads(Room(old(View()).wbuf), old(base.writeBuf.wr), [true] + old(pipe.polls), replies, asked)
      ensures result > 0 ==> Ended(Room(View().wbuf), pipe.refused, replies, asked)
    {
      hide Ring.Contents, Ring.Valid, Writes, AllGiven, Reads, Ended;
      ghost var before, free, start, polls := base.Out(), Room(View().wbuf), base.writeBuf.wr, pipe.polls;
      var first, whole := ReadRun();
      data, result, replies, asked := Given(first), |Given(first)|, [first], [Min(free, BUF_SIZE - start)];
      OneRead([], first);
      if whole {
        var second;
        ghost var tried;
        second, tried := ReadMore();
        result := result + |Given(second)|;
        if tried {
          OneRead(replies, second);
          Assoc(before, Given(first), Given(second));
          ReadTwice(free, start, polls, first, second, Room(View().wbuf), pipe.refused);
          data, replies, asked := data + Given(second), replies + [second], asked + [free - asked[0]];
        } else {
          assert Given(first) + Given(second) == Given(first);
          ReadOnce(free, start, polls, first, Room(View().wbuf), pipe.refused);
        }
      } else {
        ReadOnce(free, start, polls, first, Room(View().wbuf), pipe.refused);
      }
    }

    /** The second read, when there is room at the start of the block and the pipe has more. */
    method ReadMore() returns (reply: Reply, ghost tried: bool)
      requires Valid()
      modifies base.writeBuf, base.writeBuf.data, pipe
      ensures Valid() && |Given(reply)| <= Room(old(View()).wbuf)
      ensures View() == old(View()).(wbuf := old(View()).wbuf + Given(reply))
      ensures pipe.got == old(pipe.got) + (if tried then [reply] else []) && (!tried ==> Given(reply) == [])
      ensures tried <==> Room(old(View()).wbuf) > 0 && old(pipe.polls != [] && pipe.polls[0])
      ensures !tried ==> pipe.asked == old(pipe.asked) && (pipe.refused || Room(View().wbuf) == 0)
      ensures var run := Min(Room(old(View()).wbuf), BUF_SIZE - old(base.writeBuf.wr));
              tried ==> pipe.asked == old(pipe.asked) + [run] && |Given(reply)| <= run && (|Given(reply)| == run ==> Room(View().wbuf) == 0 || old(base.writeBuf.wr) > 0)
    {
      hide Ring.Contents, Ring.Valid, Writes;
      reply, tried := Failed, false;
      var run := base.writeBuf.WriteSize();
      if run == 0 {
        assert View().wbuf + [] == View().wbuf;
        return;
      }
      var ok := pipe.Poll();
      if !ok {
        assert View().wbuf + [] == View().wbuf;
        return;
      }
      tried := true;
      var whole;
      reply, whole := ReadRun();
    }

    /** proxyfs_real_file_close, and the mark of a close that is not an exit. */
    method CloseFrom(from: nat, exiting: bool) returns (replies: seq<Msg>)
      requires Valid()
      modifies this`peer, this`closed, base
      ensures Valid() && (closed <==> old(closed) || !exiting)
      ensures if old(peer) == Some(from) then View() == old(View()).(peer := None, unconf := 0, closed := closed) && replies == [CloseResp]
              else View() == old(View()).(closed := closed) && replies == []
    {
      hide Ring.Contents, Ring.Valid, Writes;
      replies := [];
      if peer == Some(from) {
        replies := [CloseResp];
        peer := None;
        base.unconfirmed := 0;
      }
      if !exiting {
        closed := true;
      }
    }

    /** proxyfs_task_handle_msg for a file in the list: data and acknowledgements. */
    method HandleData(from: nat, m: Msg, ghost ioctlResult: seq<byte>)
      requires Valid() && !removed && (m.Write? || m.WriteResp?)
      requires m.WriteResp? ==> m.count <= base.unconfirmed
      modifies base, base.writeBuf, base.readBuf, base.readBuf.data
      ensures Valid() && View() == HandleReal(old(View()), from, m, ioctlResult).file
    {
      hide Ring.Contents, Ring.Valid, Writes, Fill;
      if m.Write? {
        var _ := base.WriteFromPeer(m.data);
      } else if m.count > 0 {
        base.SubmitReadToPeer(m.count);
      }
    }

    /** proxyfs_server_handle_msg for a file in the list: everything else. */
    method HandleRequest(from: nat, m: Msg, ioctlResult: seq<byte>) returns (replies: seq<Msg>)
      requires Valid() && !removed && !m.Write? && !m.WriteResp?
      modifies this`peer, this`readRequested, this`closed, base
      ensures Valid()
      ensures View() == HandleReal(old(View()), from, m, ioctlResult).file
      ensures replies == HandleReal(old(View()), from, m, ioctlResult).replies
    {
      hide Ring.Contents, Ring.Valid, Writes, Fill;
      replies := [];
      match m
      case Open =>
        peer := Some(from);
        replies := [OpenOk];
      case Close(exiting) =>
        replies := CloseFrom(from, exiting);
      case Fsync =>
        if peer == Some(from) {
          replies := [FsyncResp];
        }
      case Ioctl(_) =>
        replies := [IoctlResp(ioctlResult)];
      case ReadRequest =>
        readRequested := true;
        replies := [ReadRequestResp];
      case _ =>
    }

    /** Any message for a file in the list. */
    method HandleMsg(from: nat, m: Msg, ioctlResult: seq<byte>) returns (replies: seq<Msg>)
      requires Valid() && !removed
      requires m.WriteResp? ==> m.count <= base.unconfirmed
      modifies this`peer, this`readRequested, this`closed, base, base.writeBuf, base.readBuf, base.readBuf.data
      ensures Valid()
      ensures View() == HandleReal(old(View()), from, m, ioctlResult).file
      ensures replies == HandleReal(old(View()), from, m, ioctlResult).replies
      ensures closed <==> old(closed) || m == Close(false)
      ensures readRequested <==> old(readRequested) || m.ReadRequest?
      ensures peer == if m.Open? then Some(from) else if m.Close? && old(peer) == Some(from) then None else old(peer)
    {
      hide Ring.Contents, Ring.Valid, Writes, HandleReal;
      replies := [];
      AnyPeer(View(), from, m, ioctlResult);
      if m.Write? || m.WriteResp? {
        HandleData(from, m, ioctlResult);
      } else {
        replies := HandleRequest(from, m, ioctlResult);
      }
    }

    /**
     * The read half of a pass: when the first read returns nothing or an error, the
     * peer is told once that the file has ended.
     */
    method ReadInput() returns (msgs: seq<Msg>, ghost input: Input, ghost replies: seq<Reply>)
      requires Valid() && !removed
      modifies this`eof, pipe, base.writeBuf, base.writeBuf.data
      ensures Valid() && InputOk(old(View()), input)
      ensures View() == ReadHalf(old(View()), input).file && msgs == ReadHalf(old(View()), input).replies
      ensures pipe.got == old(pipe.got) + replies && AllGiven(replies) == if input.Bytes? then input.data else []
      ensures input.EndOfFile? <==> replies != [] && Given(replies[0]) == []
      ensures input.NoInput? <==> replies == []
      ensures replies != [] <==> peer.Some? && !old(eof) && readRequested && Room(old(View()).wbuf) > 0 && old(pipe.polls != [] && pipe.polls[0])
      ensures replies != [] && old(pipe.gives) != [] ==> replies[0].Failed? == old(pipe.gives)[0].Failed?
    {
      hide Ring.Contents, Ring.Valid, Writes, AllGiven;
      msgs, input, replies := [], NoInput, [];
      NoReads();
      if peer.Some? && !eof {
        var result;
        ghost var data;
        ghost var asked;
        result, data, replies, asked := ReadPass();
        input := if result > 0 then Bytes(data) else if result == 0 then EndOfFile else NoInput;
        assert result <= 0 ==> View().wbuf + [] == View().wbuf;
        if result == 0 {
          msgs := [Write([])];
          eof := true;
        }
      }
    }

    /**
     * A read error is reported to the peer as the end of the file: exactly when the
     * first read of a pass that reads fails or returns nothing, the mark is sent.
     */
    method ErrorEndsFile() returns (msgs: seq<Msg>)
      requires Valid() && !removed && peer.Some? && !eof && readRequested && Room(View().wbuf) > 0
      requires pipe.polls != [] && pipe.polls[0] && pipe.gives != [] && pipe.gives[0].Failed?
      modifies this`eof, pipe, base.writeBuf, base.writeBuf.data
      ensures Valid() && msgs == [Write([])] && eof && View() == old(View()).(eof := true)
    {
      hide Ring.Contents, Ring.Valid, Writes, AllGiven;
      ghost var input, replies;
      msgs, input, replies := ReadInput();
    }

    /** One pass of proxyfs_server_read_and_write_real_files over this file. */
    method ServePass() returns (msgs: seq<Msg>, ghost turns: seq<Turn>, ghost input: Input, ghost replies: seq<Reply>)
      requires Valid() && !removed
      modifies this, pipe, base.readBuf, base.writeBuf, base.writeBuf.data
      ensures Valid() && TurnsOk(old(Parse()), turns)
      ensures var h := WriteHalf(old(View()), turns);
              && InputOk(Reap(h.file), input)
              && View() == ReadHalf(Reap(h.file), input).file
              && msgs == h.replies + ReadHalf(Reap(h.file), input).replies
      ensures removed <==> closed && Parse().rbuf == []
      ensures pipe.got == old(pipe.got) + replies && AllGiven(replies) == if input.Bytes? then input.data else []
      ensures input.EndOfFile? <==> replies != [] && Given(replies[0]) == []
    {
      hide Ring.Contents, Ring.Valid, Writes, DoAll, TurnsOk, AllGiven;
      var total;
      total, turns := WritePass();
      input, replies := NoInput, [];
      NoReads();
      msgs := if total > 0 && peer.Some? then [WriteResp(total)] else [];
      var pending := base.readBuf.ReadSize();
      if closed && pending == 0 {
        removed := true;
        return;
      }
      var more;
      more, input, replies := ReadInput();
      msgs := msgs + more;
    }

    /** proxyfs_task_send_buffers for this file. */
    method SendBuffers() returns (msgs: seq<Msg>)
      requires Valid() && !removed
      modifies base, base.writeBuf
      ensures Valid()
      ensures View() == Flush(old(View())).file && msgs == Flush(old(View())).replies
    {
      hide Ring.Contents, Ring.Valid, Writes, Chunks;
      msgs := [];
      if peer.Some? {
        msgs := base.SendBuffers();
      }
    }
  }

  /**
   * The reads of one pass into free bytes of a buffer that start at wr in its block: the first asks for
   * what is free up to the end of the block, the second, made exactly when the first got
   * all of that, more is free and the poll agrees, for the rest.
   */
  ghost predicate Reads(free: nat, wr: nat, polls: seq<bool>, replies: seq<Reply>, asked: seq<nat>) {
    var run := if free < 8192 - wr then free else 8192 - wr;
    && |asked| == |replies| <= 2
    && (replies != [] ==> asked[0] == run)
    && (|replies| == 2 <==> replies != [] && |Given(replies[0])| == run < free && |polls| > 1 && polls[1])
    && (|replies| == 2 ==> asked[1] == free - run)
  }

  /** Why a pass stops: the buffer is full, the pipe is not ready, or it gave less than was asked for. */
  ghost predicate Ended(room: nat, refused: bool, replies: seq<Reply>, asked: seq<nat>) {
    room == 0 || refused || (0 < |replies| == |asked| && |Given(replies[|replies| - 1])| < asked[|asked| - 1])
  }

  lemma ReadOnce(free: nat, wr: nat, polls: seq<bool>, first: Reply, room: nat, refused: bool)
    requires wr <= BUF_SIZE && |Given(first)| <= Min(free, BUF_SIZE - wr)
    requires |Given(first)| == Min(free, BUF_SIZE - wr) ==> (room == 0 || refused) && (free == Min(free, BUF_SIZE - wr) || polls == [] || !polls[0])
    ensures Reads(free, wr, [true] + polls, [first], [Min(free, BUF_SIZE - wr)]) && Ended(room, refused, [first], [Min(free, BUF_SIZE - wr)])
  {
  }

  lemma ReadTwice(free: nat, wr: nat, polls: seq<bool>, first: Reply, second: Reply, room: nat, refused: bool)
    requires wr <= BUF_SIZE && |Given(first)| == Min(free, BUF_SIZE - wr) < free && polls != [] && polls[0]
    requires |Given(second)| <= free - |Given(first)| && room == free - |Given(first)| - |Given(second)|
    ensures var asked := [Min(free, BUF_SIZE - wr)] + [free - Min(free, BUF_SIZE - wr)];
            Reads(free, wr, [true] + polls, [first] + [second], asked) && Ended(room, refused, [first] + [second], asked)
  {
  }

  lemma NoReads()
    ensures AllGiven([]) == []
  {
  }

  lemma OneRead(rs: seq<Reply>, r: Reply)
    ensures AllGiven(rs + [r]) == AllGiven(rs) + Given(r)
    ensures AllGiven([r]) == Given(r)
  {
    assert (rs + [r])[..|rs|] == rs;
    assert [r][..0] == [] && AllGiven([]) == [];
  }

  lemma NoTurns(p: Parser)
    ensures TurnsOk(p, []) && DoAll(p, []) == p
  {
  }

  lemma {:induction false} OneMore(p: Parser, ts: seq<Turn>, t: Turn)
    requires TurnsOk(p, ts) && TurnOk(DoAll(p, ts), t)
    ensures TurnsOk(p, ts + [t]) && DoAll(p, ts + [t]) == Do(DoAll(p, ts), t)
    decreases ts
  {
    if ts == [] {
      assert ts + [t] == [t] && [t][1..] == [];
    } else {
      assert (ts + [t])[1..] == ts[1..] + [t];
      OneMore(Do(p, ts[0]), ts[1..], t);
    }
  }
}
