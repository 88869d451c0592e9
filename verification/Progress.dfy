// The protocol never gets stuck: whatever a user wrote can always be driven to the
// real pipe, and whatever the server read from it to the user, by protocol steps alone.

module Progress {
  import opened Bytes
  import opened Streams
  import opened PipeRecords
  import opened Messages
  import opened Files
  import opened Protocol
  import opened Invariant
  import opened ClientSteps
  import opened ServerReceives
  import opened ServerPasses
  import opened Runs

  /** Steps of the client thread, the server loop and the network, with no user and no pipe input. */
  predicate IsProtocol(a: Action) {
    a.ActClientSend? || a.ActClientReceive? || a.ActServerReceive? || a.ActFlush? ||
    (a.ActServe? && a.input.NoInput?)
  }

  /** Work left in the two queues and four buffers. */
  ghost function Work(w: World): (n: int) {
    7 * (|w.c.wbuf| - w.c.unconf) + 4 * |Data(w.c2s)| + 2 * |w.s.parser.rbuf|
    + 2 * |w.c2s| + |w.s2c| + 2 * (|w.s.wbuf| - w.s.unconf)
  }

  /** Turns of the server loop until messages it holds back are sent. */
  function Turns(w: World): (n: nat) {
    if w.pc.Flushing? then 1 else if w.held > 0 then 2 else 0
  }

  ghost function Measure(w: World): (n: int) {
    3 * Work(w) + Turns(w)
  }

  lemma MeasureNat(w: World)
    requires Inv(w)
    ensures Measure(w) >= 0
  {
    hide FlowInv, ParserOk, ControlOk, EofOk, ClosedOk;
    FlowCredit(Up(w));
    FlowCredit(Down(w));
  }

  lemma SendProgress(w: World)
    requires Inv(w) && w.c.unconf < |w.c.wbuf|
    ensures Enabled(w, ActClientSend(1)) && Measure(ClientSend(w, 1)) < Measure(w)
  {
    hide FlowInv, ParserOk, EofOk, ClosedOk;
    Push(w.c2s, Write(w.c.wbuf[w.c.unconf..w.c.unconf + 1]));
  }

  lemma ReceiveProgress(w: World)
    requires Inv(w) && w.c.wbuf != [] && |w.s2c| > w.held
    ensures Enabled(w, ActClientReceive) && Measure(ClientReceive(w)) < Measure(w)
  {
    hide FlowInv, ParserOk, EofOk, ClosedOk, Up, Down, ControlOk, Answered;
    Expected(w);
    if w.s2c[0].CloseResp? {
      CloseAnswered(w);
    }
    AnsweredProgress(w);
  }

  lemma AnsweredProgress(w: World)
    requires w.s2c != [] && !w.s2c[0].CloseResp?
    ensures Measure(ClientReceive(w)) < Measure(w)
  {
    hide Data, Fill, Answers;
    var v := ClientReceive(w);
    assert v.s == w.s && v.c2s == w.c2s && v.held == w.held && v.pc == w.pc;
    assert |v.c.wbuf| - v.c.unconf == |w.c.wbuf| - w.c.unconf;
  }

  lemma ServerProgress(w: World)
    requires Inv(w) && w.c.wbuf != [] && w.pc.Receiving? && w.c2s != []
    ensures Enabled(w, ActServerReceive([])) && Measure(ServerReceive(w, [])) < Measure(w)
  {
    hide FlowInv, ParserOk, EofOk, ClosedOk, ControlOk, Measure, Up;
    SessionOpen(w);
    Requested(w);
    FlowCredit(Up(w));
    HandledProgress(w);
  }

  lemma HandledProgress(w: World)
    requires w.c2s != [] && !w.c2s[0].Open? && !w.c2s[0].Close? && Live(w) && w.pc.Receiving?
    ensures Measure(ServerReceive(w, [])) < Measure(w)
  {
    hide Data;
    Pop(w.c2s);
  }

  lemma SessionOpen(w: World)
    requires ControlOk(w) && w.c.wbuf != []
    ensures Live(w) && Connected(w) && !(w.phase.Waiting? && IsBarrier(w.phase.call))
    ensures w.c2s != [] ==> !w.c2s[0].Open? && !w.c2s[0].Close?
  {
    if w.c2s != [] {
      Requested(w);
    }
  }

  lemma {:induction false} ChunksCount(unsent: seq<byte>)
    ensures |Chunks(unsent)| <= |unsent|
    decreases |unsent|
  {
    if |unsent| > MAX_DATA {
      ChunksCount(unsent[MAX_DATA..]);
    }
  }

  lemma FlushProgress(w: World)
    requires Inv(w) && w.c.wbuf != [] && w.pc.Flushing?
    ensures Enabled(w, ActFlush(0)) && Measure(FlushAll(w, 0)) < Measure(w)
  {
    hide FlowInv, ParserOk, EofOk, ClosedOk, ControlOk, Chunks;
    FlowCredit(Down(w));
    ChunksCount(w.s.wbuf[w.s.unconf..]);
  }

  /** A server that has received everything can finish the record it is working on. */
  lemma TurnReady(p: Parser, records: seq<seq<byte>>) returns (t: Turn)
    requires ParserInv(p, records, []) && p.rbuf != []
    ensures TurnOk(p, t)
  {
    assert p.rbuf + [] == p.rbuf;
    if p.counter == 0 {
      NextHeader(p, records, []);
      t := TakeHeader;
    } else {
      NextPayload(p, records, []);
      t := if p.atomic then EmitWhole else EmitPart(p.counter);
    }
  }

  lemma ServeProgress(w: World, t: Turn)
    requires Inv(w) && w.c.wbuf != [] && w.pc.Receiving? && TurnOk(w.s.parser, t)
    ensures Enabled(w, ActServe([t], NoInput)) && Measure(Serve(w, [t], NoInput)) < Measure(w)
  {
    hide FlowInv, ParserOk, EofOk, ControlOk;
    SessionOpen(w);
    DoMoves(w.s.parser, t);
    assert [t][1..] == [];
    assert DoAll(w.s.parser, [t]) == Do(w.s.parser, t);
    assert !w.s.closed;
    var u := ServeWrite(w.(pc := Flushing), [t]);
    ReadNothing(u);
  }

  lemma IdleProgress(w: World)
    requires Inv(w) && w.c.wbuf != [] && w.pc.Receiving? && w.held > 0
    ensures Enabled(w, ActServe([], NoInput)) && Measure(Serve(w, [], NoInput)) < Measure(w)
  {
    hide FlowInv, ParserOk, EofOk, ControlOk;
    SessionOpen(w);
    var u := ServeWrite(w.(pc := Flushing), []);
    assert w.s2c + [] == w.s2c;
    ReadNothing(u);
  }

  /** While something a user wrote is unconfirmed, some protocol step brings it closer. */
  lemma ProgressStep(w: World) returns (a: Action)
    requires Inv(w) && w.c.wbuf != []
    ensures IsProtocol(a) && Enabled(w, a) && Measure(Step(w, a)) < Measure(w)
  {
    hide ParserOk, EofOk, ClosedOk, ControlOk, Measure, Step;
    FlowCredit(Up(w));
    if w.c.unconf < |w.c.wbuf| {
      a := SendFirst(w);
    } else if |w.s2c| > w.held {
      a := ReceiveFirst(w);
    } else {
      a := ServerTurn(w);
    }
  }

  lemma SendFirst(w: World) returns (a: Action)
    requires Inv(w) && w.c.unconf < |w.c.wbuf|
    ensures IsProtocol(a) && Enabled(w, a) && Measure(Step(w, a)) < Measure(w)
  {
    hide Inv, Measure, ClientSend;
    SendProgress(w);
    a := ActClientSend(1);
  }

  lemma ReceiveFirst(w: World) returns (a: Action)
    requires Inv(w) && w.c.wbuf != [] && |w.s2c| > w.held
    ensures IsProtocol(a) && Enabled(w, a) && Measure(Step(w, a)) < Measure(w)
  {
    hide Inv, Measure, ClientReceive;
    ReceiveProgress(w);
    a := ActClientReceive;
  }

  lemma ServerTurn(w: World) returns (a: Action)
    requires Inv(w) && w.c.wbuf != [] && w.c.unconf == |w.c.wbuf| && |w.s2c| <= w.held
    ensures IsProtocol(a) && Enabled(w, a) && Measure(Step(w, a)) < Measure(w)
  {
    hide Inv, Measure, FlushAll, ServerReceive, Serve, ServeOk, TurnsOk;
    if w.pc.Flushing? {
      FlushProgress(w);
      a := ActFlush(0);
    } else if w.c2s != [] {
      ServerProgress(w);
      a := ActServerReceive([]);
    } else if w.s.parser.rbuf != [] {
      AllReceived(w);
      var t := TurnReady(w.s.parser, w.records);
      ServeProgress(w, t);
      a := ActServe([t], NoInput);
    } else {
      AcksHeld(w);
      IdleProgress(w);
      a := ActServe([], NoInput);
    }
  }

  lemma AllReceived(w: World)
    requires Inv(w) && w.c.unconf == |w.c.wbuf| && w.c2s == []
    ensures ParserInv(w.s.parser, w.records, [])
  {
    hide ControlOk, EofOk, ClosedOk, ParserOk;
    assert w.c.wbuf[w.c.unconf..] == [];
    assert Data(w.c2s) + [] == [];
  }

  lemma AcksHeld(w: World)
    requires Inv(w) && w.c.wbuf != [] && w.c.unconf == |w.c.wbuf| && w.c2s == [] && w.s.parser.rbuf == []
    requires |w.s2c| <= w.held
    ensures w.held > 0
  {
    hide FlowInv, ControlOk, EofOk, ClosedOk, ParserOk;
    assert Up(w).owed == Acks(w.s2c);
    FlowCredit(Up(w));
  }

  /**
   * From every state a run of protocol steps alone, finite and without the user,
   * empties the client's write buffer: every blocked write, close, fsync and ioctl
   * can go on as soon as the real pipe takes data.
   */
  lemma Drain(w: World) returns (run: seq<Action>)
    requires Inv(w)
    ensures Legal(w, run) && (forall a :: a in run ==> IsProtocol(a))
    ensures Exec(w, run).c.wbuf == []
    decreases if w.c.wbuf == [] then 0 else Measure(w) + 1
  {
    hide Inv, Measure, Step, Enabled;
    MeasureNat(w);
    if w.c.wbuf == [] {
      run := [];
    } else {
      var a := ProgressStep(w);
      StepKeeps(w, a);
      MeasureNat(Step(w, a));
      var rest := Drain(Step(w, a));
      run := [a] + rest;
      assert run[1..] == rest;
    }
  }

  /** Nothing of what passed between the real pipe and the user changes. */
  predicate Hands(w: World, v: World) {
    v.fromPipe == w.fromPipe && v.delivered == w.delivered && v.s.peer == w.s.peer
  }

  /** Everything the server has sent is received. */
  lemma HandOver(w: World) returns (run: seq<Action>)
    requires Inv(w) && w.s.peer.Some? && w.held == 0 && w.s.unconf == |w.s.wbuf|
    ensures Legal(w, run) && (forall a :: a in run ==> IsProtocol(a))
    ensures var v := Exec(w, run); Hands(w, v) && v.c.rbuf == v.fromPipe[|v.delivered|..]
    decreases |w.s2c|
  {
    hide Inv, ClientReceive;
    if w.s2c == [] {
      run := [];
      AllHanded(w);
    } else {
      var v := Step(w, ActClientReceive);
      StepKeeps(w, ActClientReceive);
      ReceiveHands(w);
      var rest := HandOver(v);
      run := [ActClientReceive] + rest;
      assert run[1..] == rest;
    }
  }

  lemma ReceiveHands(w: World)
    requires w.s2c != []
    ensures var v := ClientReceive(w); Hands(w, v) && v.s == w.s && v.held == w.held && |v.s2c| < |w.s2c|
  {
  }

  lemma AllHanded(w: World)
    requires Inv(w) && w.s.peer.Some? && w.s2c == [] && w.s.unconf == |w.s.wbuf|
    ensures w.c.rbuf == w.fromPipe[|w.delivered|..]
  {
    hide ControlOk, EofOk, ClosedOk, ParserOk;
    var f := Down(w);
    assert f.wire == [] && f.wbuf[f.unconf..] == [];
    assert f.rbuf + (f.wire + f.wbuf[f.unconf..]) == f.rbuf;
  }

  /** A turn of the server loop in which nothing is read or written ends in front of the sending. */
  lemma IdleTurn(w: World)
    requires Inv(w) && w.s.peer.Some? && w.pc.Receiving?
    ensures Enabled(w, ActServe([], NoInput))
    ensures var v := Serve(w, [], NoInput); Hands(w, v) && v.pc.Flushing?
  {
    hide FlowInv, ParserOk, EofOk, ControlOk, ClosedOk;
    SessionLive(w);
  }

  lemma SendAll(w: World) returns (run: seq<Action>)
    requires Inv(w) && w.s.peer.Some? && w.pc.Flushing?
    ensures Legal(w, run) && (forall a :: a in run ==> IsProtocol(a))
    ensures var v := Exec(w, run); Hands(w, v) && v.c.rbuf == v.fromPipe[|v.delivered|..]
  {
    StepKeeps(w, ActFlush(0));
    hide ControlOk, ParserOk, EofOk, ClosedOk;
    SessionLive(w);
    FlushFlows(w, 0);
    hide Inv, FlushAll;
    var rest := HandOver(FlushAll(w, 0));
    run := [ActFlush(0)] + rest;
    assert run[1..] == rest;
  }

  /**
   * While a session is open, protocol steps alone bring every byte the server has read
   * from the real pipe, and that no user has read yet, into the client's read buffer.
   */
  lemma DrainDown(w: World) returns (run: seq<Action>)
    requires Inv(w) && w.s.peer.Some?
    ensures Legal(w, run) && (forall a :: a in run ==> IsProtocol(a))
    ensures var v := Exec(w, run); Hands(w, v) && v.c.rbuf == v.fromPipe[|v.delivered|..]
  {
    hide Inv, Serve, ServeOk;
    if w.pc.Flushing? {
      run := SendAll(w);
    } else {
      IdleTurn(w);
      StepKeeps(w, ActServe([], NoInput));
      var rest := SendAll(Serve(w, [], NoInput));
      run := [ActServe([], NoInput)] + rest;
      assert run[1..] == rest;
    }
  }

  /** The server never waits for bytes that cannot come, and a record it waits for fits. */
  lemma RecordArrives(run: seq<Action>)
    requires Legal(INIT, run)
    requires var p := Exec(INIT, run).s.parser; p.counter > 0 && p.atomic && |p.rbuf| < p.counter
    ensures var w := Exec(INIT, run); var p := w.s.parser;
            && p.counter <= PIPE_BUF < BUF_SIZE
            && p.counter - |p.rbuf| <= |Data(w.c2s)| + (|w.c.wbuf| - w.c.unconf)
  {
    hide ControlOk, EofOk, ClosedOk, Exec, Legal;
    var w := Exec(INIT, run);
    EveryRun(run);
    FlowCredit(Up(w));
    NextPayload(w.s.parser, w.records, Data(w.c2s) + w.c.wbuf[w.c.unconf..]);
  }
}
