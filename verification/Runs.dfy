// The main theorems about the protocol: each holds in the last state of every
// run, hence in every state of every run.

module Runs {
  import opened Bytes
  import opened Streams
  import opened PipeRecords
  import opened Messages
  import opened Files
  import opened Protocol
  import opened Invariant
  import opened ClientSteps
  import opened ServerReceives
  import opened ServerPasses

  lemma StepKeeps(w: World, a: Action)
    requires Inv(w) && Enabled(w, a)
    ensures Inv(Step(w, a))
  {
    hide Inv;
    match a
    case ActOpen(peer) => OpenKeeps(w, peer);
    case ActWrite(buf) => WriteKeeps(w, buf);
    case ActRead(count) => ReadKeeps(w, count);
    case ActAck => AckKeeps(w);
    case ActCall(m) => CallKeeps(w, m);
    case ActClientSend(n) => ClientSendKeeps(w, n);
    case ActClientReceive => ClientReceiveKeeps(w);
    case ActServerReceive(res) => ServerReceiveKeeps(w, res);
    case ActServe(ts, input) => ServeKeeps(w, ts, input);
    case ActFlush(kept) => FlushKeeps(w, kept);
  }

  lemma {:induction false} ExecKeeps(w: World, run: seq<Action>)
    requires Inv(w) && Legal(w, run)
    ensures Inv(Exec(w, run))
    decreases run
  {
    hide Inv, Step, Enabled;
    if run != [] {
      StepKeeps(w, run[0]);
      ExecKeeps(Step(w, run[0]), run[1..]);
    }
  }

  /** A run that goes on from where another ended. */
  lemma {:induction false} Joined(w: World, run: seq<Action>, more: seq<Action>)
    requires Legal(w, run) && Legal(Exec(w, run), more)
    ensures Legal(w, run + more) && Exec(w, run + more) == Exec(Exec(w, run), more)
    decreases run
  {
    hide Step, Enabled;
    if run == [] {
      assert run + more == more;
    } else {
      assert (run + more)[1..] == run[1..] + more;
      Joined(Step(w, run[0]), run[1..], more);
    }
  }

  lemma EveryRun(run: seq<Action>)
    requires Legal(INIT, run)
    ensures Inv(Exec(INIT, run))
  {
    hide Inv;
    InitInv();
    ExecKeeps(INIT, run);
  }

  // ----- the streams --------------------------------------------------------------

  /**
   * Every byte a user ever wrote is, in order, consumed by the real file, in its
   * read buffer, in flight or still unsent; and the bytes consumed are those the
   * client has seen confirmed plus the acknowledgements in flight.
   */
  lemma UpStream(run: seq<Action>)
    requires Legal(INIT, run)
    ensures var w := Exec(INIT, run);
            && w.c.unconf <= |w.c.wbuf| <= |Encode(w.records)|
            && Encode(w.records) == w.s.parser.taken + (w.s.parser.rbuf + (Data(w.c2s) + w.c.wbuf[w.c.unconf..]))
            && |w.s.parser.taken| == (|Encode(w.records)| - |w.c.wbuf|) + Acks(w.s2c)
            && w.c.wbuf == Encode(w.records)[|Encode(w.records)| - |w.c.wbuf|..]
  {
    hide ParserOk, ControlOk, EofOk, ClosedOk, Exec, Legal;
    EveryRun(run);
    FlowCredit(Up(Exec(INIT, run)));
  }

  /** The same from the real pipe to the user, while a session is open. */
  lemma DownStream(run: seq<Action>)
    requires Legal(INIT, run) && Exec(INIT, run).s.peer.Some?
    ensures var w := Exec(INIT, run);
            && w.s.unconf <= |w.s.wbuf| <= |w.fromPipe|
            && w.fromPipe == w.delivered + (w.c.rbuf + (Data(w.s2c) + w.s.wbuf[w.s.unconf..]))
            && |w.delivered| == (|w.fromPipe| - |w.s.wbuf|) + Acks(w.c2s) + Pending(w.phase)
            && w.s.wbuf == w.fromPipe[|w.fromPipe| - |w.s.wbuf|..]
  {
    hide ParserOk, ControlOk, EofOk, ClosedOk, Exec, Legal;
    EveryRun(run);
    FlowCredit(Down(Exec(INIT, run)));
  }

  /**
   * Credit: data in flight always fits behind what the receiver holds, so the
   * unchecked circ_buf_write on MSG_WRITE never drops a byte, no acknowledgement
   * exceeds what is unconfirmed and no unexpected message is ever handled.
   */
  lemma CreditSafety(run: seq<Action>)
    requires Legal(INIT, run)
    ensures var w := Exec(INIT, run);
            && |w.s.parser.rbuf| + |Data(w.c2s)| <= w.c.unconf <= |w.c.wbuf| <= BUF_SIZE
            && |w.c.rbuf| + |Data(w.s2c)| <= BUF_SIZE
            && (w.s.peer.Some? ==> |w.c.rbuf| + |Data(w.s2c)| <= w.s.unconf)
            && w.s.unconf <= |w.s.wbuf| <= BUF_SIZE
            && !w.fault
  {
    hide ParserOk, ControlOk, EofOk, ClosedOk, Exec, Legal, FlowInv;
    EveryRun(run);
    FlowCredit(Up(Exec(INIT, run)));
    FlowCredit(Down(Exec(INIT, run)));
  }

  // ----- the pipe -----------------------------------------------------------------

  /** Everything given to the real pipe, in order. */
  ghost function Emitted(p: Parser): (s: seq<byte>) {
    FlatAll(p.outs) + Flat(p.cur)
  }

  ghost function FlatAll(outs: seq<seq<seq<byte>>>): (s: seq<byte>) {
    if outs == [] then [] else FlatAll(outs[..|outs| - 1]) + Flat(outs[|outs| - 1])
  }

  lemma {:induction false} DoneBytes(outs: seq<seq<seq<byte>>>, records: seq<seq<byte>>)
    requires |outs| == |records| && forall i :: 0 <= i < |outs| ==> Emits(outs[i], records[i])
    ensures FlatAll(outs) == Flat(records)
  {
    if outs != [] {
      var k := |outs| - 1;
      DoneBytes(outs[..k], records[..k]);
      assert records == records[..k] + [records[k]];
      FlatSnoc(records[..k], records[k]);
    }
  }

  lemma EmittedPrefix(p: Parser, records: seq<seq<byte>>)
    requires ParserOk(p, records)
    ensures Emitted(p) <= Flat(records)
  {
    var done := |p.outs|;
    DoneBytes(p.outs, records[..done]);
    assert records == records[..done] + records[done..];
    FlatAppend(records[..done], records[done..]);
    if p.counter > 0 {
      assert Flat(p.cur) <= Flat(records[done..]) by {
        assert records[done..][0] == records[done];
      }
      PrefixJoin(Flat(records[..done]), Flat(p.cur), Flat(records[done..]));
    }
  }

  lemma PrefixJoin(a: seq<byte>, b: seq<byte>, c: seq<byte>)
    requires b <= c
    ensures a + b <= a + c
  {
    assert c == b + c[|b|..];
    assert a + c == (a + b) + c[|b|..];
  }

  /**
   * The bytes given to the real pipe are a prefix of the users' payloads, with no
   * header byte among them, and each finished record that fits a pipe atom went
   * out in exactly one vfs_write.
   */
  lemma PipeEndToEnd(run: seq<Action>)
    requires Legal(INIT, run)
    ensures var w := Exec(INIT, run);
            var p := w.s.parser;
            && Emitted(p) <= Flat(w.records)
            && |p.outs| <= |w.records|
            && (forall i :: 0 <= i < |p.outs| ==> Flat(p.outs[i]) == w.records[i])
            && (forall i :: 0 <= i < |p.outs| && 0 < |w.records[i]| <= PIPE_BUF ==> p.outs[i] == [w.records[i]])
            && (p.counter > 0 && p.atomic ==> p.cur == [])
  {
    hide FlowInv, ControlOk, EofOk, ClosedOk, Exec, Legal;
    EveryRun(run);
    EmittedPrefix(Exec(INIT, run).s.parser, Exec(INIT, run).records);
  }

  // ----- barriers -----------------------------------------------------------------

  /** With an empty write buffer at the client nothing of the stream is left anywhere. */
  lemma AllConsumed(w: World)
    requires Inv(w) && w.c.wbuf == []
    ensures var p := w.s.parser;
            && p.taken == Encode(w.records) && p.rbuf == [] && p.counter == 0
            && |p.outs| == |w.records| && Emitted(p) == Flat(w.records)
  {
    hide ControlOk, EofOk, ClosedOk;
    var p := w.s.parser;
    FlowCredit(Up(w));
    var rest := Data(w.c2s) + w.c.wbuf[w.c.unconf..];
    assert rest == [] && p.rbuf == [];
    assert ParserInv(p, w.records, rest);
    NothingLeft(p, w.records);
  }

  lemma NothingLeft(p: Parser, records: seq<seq<byte>>)
    requires ParserInv(p, records, []) && p.rbuf == []
    ensures p.counter == 0 && |p.outs| == |records| && Emitted(p) == Flat(records)
    ensures p.taken == Encode(records)
  {
    assert p.rbuf + [] == [];
    if p.counter > 0 {
      NextPayload(p, records, []);
    } else {
      NextHeader(p, records, []);
      assert records[..|p.outs|] == records;
      DoneBytes(p.outs, records);
      assert Emitted(p) == FlatAll(p.outs);
    }
  }

  lemma {:induction false} ControlIn(q: seq<Msg>, m: Msg)
    requires m in q && IsControl(m)
    ensures m in Control(q)
  {
    Pop(q);
    if q[0] != m {
      assert m in q[1..];
      ControlIn(q[1..], m);
    }
  }

  /** A barrier request under way means that its caller found the write buffer empty. */
  lemma BarrierQueued(w: World, m: Msg)
    requires ControlOk(w) && m in w.c2s && (m.Close? || m.Fsync? || m.Ioctl?)
    ensures w.c.wbuf == [] && w.phase == Waiting(m)
  {
    ControlIn(w.c2s, m);
    if w.phase.Waiting? && w.phase.call.Close? && Asked(w, w.phase.call) {
      var k := |w.c2s| - 1;
      if m in w.c2s[..k] {
        ControlIn(w.c2s[..k], m);
      }
    }
  }

  /**
   * From the moment close, fsync or ioctl queues its request until the server
   * handles it, every byte the user wrote has been given to the real pipe.
   */
  lemma Barrier(run: seq<Action>, m: Msg)
    requires Legal(INIT, run) && (m.Close? || m.Fsync? || m.Ioctl?)
    requires var w := Exec(INIT, run); m in w.c2s || Enabled(w, ActCall(m))
    ensures var w := Exec(INIT, run); var p := w.s.parser;
            && p.taken == Encode(w.records) && p.rbuf == [] && p.counter == 0
            && |p.outs| == |w.records| && Emitted(p) == Flat(w.records)
  {
    hide FlowInv, ParserOk, ControlOk, EofOk, ClosedOk, Exec, Legal, Emitted, Encode;
    var w := Exec(INIT, run);
    EveryRun(run);
    if m in w.c2s {
      BarrierQueued(w, m);
    }
    AllConsumed(w);
  }

  // ----- migration ----------------------------------------------------------------

  /**
   * Across any number of sessions the users together read a prefix of what came
   * out of the pipe, and between sessions the server holds exactly the rest.
   */
  lemma ExactlyOnce(run: seq<Action>)
    requires Legal(INIT, run)
    ensures var w := Exec(INIT, run);
            && w.delivered <= w.fromPipe
            && (w.s.peer.None? ==> w.s.unconf == 0 && w.fromPipe == w.delivered + w.s.wbuf)
  {
    hide ParserOk, ControlOk, EofOk, ClosedOk, Exec, Legal;
    var w := Exec(INIT, run);
    EveryRun(run);
    FlowCredit(Down(w));
    if w.s.peer.None? {
      assert w.s.wbuf[0..] == w.s.wbuf;
      assert [] + ([] + w.s.wbuf) == w.s.wbuf;
    }
  }

  ghost predicate Grows(w: World, v: World) {
    w.delivered <= v.delivered && w.fromPipe <= v.fromPipe && w.records <= v.records && w.sessions <= v.sessions
  }

  lemma StepGrows(w: World, a: Action)
    requires Enabled(w, a)
    ensures Grows(w, Step(w, a))
  {
  }

  lemma {:induction false} ExecGrows(w: World, run: seq<Action>)
    requires Legal(w, run)
    ensures Grows(w, Exec(w, run))
    decreases run
  {
    hide Step, Enabled;
    if run != [] {
      StepGrows(w, run[0]);
      ExecGrows(Step(w, run[0]), run[1..]);
    }
  }

  /**
   * A later session starts where the earlier users stopped: what users read after
   * any point of a run continues, without gap or overlap, what was read before it.
   */
  lemma SessionsContinue(before: seq<Action>, after: seq<Action>)
    requires Legal(INIT, before) && Legal(Exec(INIT, before), after)
    ensures var w, v := Exec(INIT, before), Exec(Exec(INIT, before), after);
            && |w.delivered| <= |v.delivered| <= |v.fromPipe|
            && v.delivered == w.delivered + v.fromPipe[|w.delivered|..|v.delivered|]
  {
    hide Inv, Step, Enabled, Legal, Exec;
    var w := Exec(INIT, before);
    var v := Exec(w, after);
    EveryRun(before);
    ExecKeeps(w, after);
    ExecGrows(w, after);
    Delivered(v);
    var n := |w.delivered|;
    assert v.delivered[..n] == w.delivered;
    assert v.delivered == v.fromPipe[..|v.delivered|];
    assert v.delivered == v.delivered[..n] + v.delivered[n..];
    assert v.delivered[n..] == v.fromPipe[n..|v.delivered|];
  }

  lemma Delivered(v: World)
    requires Inv(v)
    ensures v.delivered <= v.fromPipe
  {
    hide FlowInv, ParserOk, ControlOk, EofOk, ClosedOk;
    FlowCredit(Down(v));
  }

  /**
   * When the server accepts an open, from whatever peer, nothing of an earlier
   * session is in flight and the bytes it is about to send are exactly those that
   * no user has read.
   */
  lemma FreshSession(run: seq<Action>, res: seq<byte>)
    requires Legal(INIT, run)
    requires var w := Exec(INIT, run);
             w.c2s != [] && w.c2s[0].Open? && !w.s.removed
    ensures var w := Exec(INIT, run); var v := ServerReceive(w, res);
            && v.s.peer == Some(w.peer) && v.s2c == [OpenOk] && v.c2s == [] && v.c == FRESH
            && v.s.unconf == 0 && v.fromPipe == v.delivered + v.s.wbuf
            && Data(Flush(v.s).replies) == v.fromPipe[|v.delivered|..]
  {
    hide FlowInv, ParserOk, EofOk, ClosedOk, Exec, Legal;
    var w := Exec(INIT, run);
    EveryRun(run);
    Requested(w);
    ExactlyOnce(run);
    ReopenResends(w.s, w.peer, res);
  }

  /**
   * An open resends everything the server still keeps if and only if nothing
   * counts as sent: the guarantee rests on the close that came before, since the
   * open itself does not reset write_buf_unconfirmed.
   */
  lemma ReopenResends(f: Real, peer: nat, res: seq<byte>)
    requires f.unconf <= |f.wbuf| && !f.removed
    ensures Data(Flush(HandleReal(f, peer, Open, res).file).replies) == f.wbuf <==> f.unconf == 0
  {
    ChunksData(f.wbuf[f.unconf..]);
    if f.unconf == 0 {
      assert f.wbuf[0..] == f.wbuf;
    }
  }

  // ----- end of file ----------------------------------------------------------------

  /** In the first session the client sees the end-of-file mark after all the data. */
  lemma EofAfterData(run: seq<Action>)
    requires Legal(INIT, run)
    requires var w := Exec(INIT, run); w.sessions == 1 && w.s.peer.Some?
    ensures var w := Exec(INIT, run);
            && (w.c.eof ==> w.delivered + w.c.rbuf == w.fromPipe)
            && EofLast(w.s2c)
            && (Write([]) in w.s2c ==> w.fromPipe == w.delivered + (w.c.rbuf + Data(w.s2c)))
  {
    hide FlowInv, ParserOk, ControlOk, ClosedOk, Exec, Legal;
    var w := Exec(INIT, run);
    EveryRun(run);
    DownStream(run);
    if w.s.eof {
      assert w.s.wbuf[w.s.unconf..] == [];
      assert Data(w.s2c) + [] == Data(w.s2c);
    }
    if w.c.eof {
      assert w.c.rbuf + [] == w.c.rbuf;
    }
  }

  lemma {:induction false} EofThenData(q: seq<Msg>, r: seq<Msg>)
    requires Write([]) in q && Data(r) != []
    ensures !EofLast(q + r)
  {
    assert (q + r)[1..] == q[1..] + r;
    if q[0] == Write([]) {
      Append(q[1..], r);
    } else {
      EofThenData(q[1..], r);
    }
  }

  /**
   * When a pass finds the end of the pipe, the mark it queues follows all data if
   * and only if everything read so far had been queued when the pass began.
   */
  lemma EofInOrder(w: World, kept: nat)
    requires Inv(w) && InputOk(w.s, EndOfFile) && Write([]) !in w.s2c && EofLast(w.s2c)
    ensures EofLast(FlushAll(ServeRead(w, EndOfFile), kept).s2c) <==> w.s.unconf == |w.s.wbuf|
  {
    hide FlowInv, ParserOk, ControlOk, EofOk, ClosedOk, Data, Acks, Control, EofLast;
    FlowCredit(Down(w));
    var q := w.s2c + [Write([])];
    var unsent := w.s.wbuf[w.s.unconf..];
    ChunksData(unsent);
    if w.s.unconf == |w.s.wbuf| {
      assert unsent == [];
      assert FlushAll(ServeRead(w, EndOfFile), kept).s2c == q;
      EofLastPush(w.s2c, Write([]));
    } else {
      assert Write([]) in q;
      EofThenData(q, Chunks(unsent));
    }
  }

  /** The end of the pipe has been met, and its mark is neither known to the client nor under way. */
  ghost predicate MarkGone(w: World) {
    w.s.eof && Write([]) !in w.s2c && !w.c.eof
  }

  lemma StepMarkGone(w: World, a: Action)
    requires Enabled(w, a) && MarkGone(w)
    ensures MarkGone(Step(w, a))
  {
    hide Step, Enabled;
    match a
    case ActFlush(kept) => FlushMarkGone(w, kept);
    case ActServe(ts, input) => ServeMarkGone(w, ts, input);
    case ActClientReceive => ReceiveMarkGone(w);
    case _ => OtherMarkGone(w, a);
  }

  lemma FlushMarkGone(w: World, kept: nat)
    requires Enabled(w, ActFlush(kept)) && MarkGone(w)
    ensures MarkGone(Step(w, ActFlush(kept)))
  {
    hide Chunks;
    if w.s.unconf <= |w.s.wbuf| {
      ChunksData(w.s.wbuf[w.s.unconf..]);
    }
  }

  lemma ServeMarkGone(w: World, ts: seq<Turn>, input: Input)
    requires Enabled(w, ActServe(ts, input)) && MarkGone(w)
    ensures MarkGone(Step(w, ActServe(ts, input)))
  {
    hide TurnsOk, DoAll;
  }

  lemma ReceiveMarkGone(w: World)
    requires Enabled(w, ActClientReceive) && MarkGone(w)
    ensures MarkGone(Step(w, ActClientReceive))
  {
    assert w.s2c[0] != Write([]);
  }

  lemma OtherMarkGone(w: World, a: Action)
    requires Enabled(w, a) && MarkGone(w) && !a.ActFlush? && !a.ActServe? && !a.ActClientReceive?
    ensures MarkGone(Step(w, a))
  {
    hide Fill, Accept;
  }

  lemma {:induction false} ExecMarkGone(w: World, run: seq<Action>)
    requires Legal(w, run) && MarkGone(w)
    ensures MarkGone(Exec(w, run))
    decreases run
  {
    hide Step, Enabled, MarkGone;
    if run != [] {
      StepMarkGone(w, run[0]);
      ExecMarkGone(Step(w, run[0]), run[1..]);
    }
  }

  /**
   * The server never forgets that it met the end of the pipe and says so only once: no
   * user of a session that begins after that is ever told that the file has ended.
   */
  lemma NoSecondMark(before: seq<Action>, after: seq<Action>)
    requires Legal(INIT, before) && Exec(INIT, before).phase.Idle? && Exec(INIT, before).s.eof
    requires Legal(Exec(INIT, before), after)
    ensures var v := Exec(Exec(INIT, before), after); !v.c.eof && Write([]) !in v.s2c
  {
    hide FlowInv, ParserOk, EofOk, ClosedOk, Exec, Legal;
    EveryRun(before);
    ExecMarkGone(Exec(INIT, before), after);
  }
}
