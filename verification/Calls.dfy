// What the calls of a user mean over whole runs: a close for good takes the file from
// the server and nothing else does, the server reads the pipe only on request, and
// every call returns with its own answer.

module Calls {
  import opened Bytes
  import opened Streams
  import opened PipeRecords
  import opened Messages
  import opened Files
  import opened Protocol
  import opened Invariant
  import opened ClientSteps
  import opened ServerReceives
  import opened ServerPasses
  import opened Runs

  const LEAVE: Action := ActCall(Close(false))
  const REQUEST: Action := ActCall(ReadRequest)

  /** left says that a user has closed the file for good. */
  ghost predicate CloseOk(w: World, left: bool) {
    && (w.phase == Waiting(Close(false)) && w.s.peer.None? ==> w.s.closed)
    && if left then w.phase == Waiting(Close(false)) || (w.s.removed && (w.phase.Idle? || w.phase.Opening?))
       else !w.s.closed && !w.s.removed && w.phase != Waiting(Close(false))
  }

  /** asked says that a user has requested to read. */
  ghost predicate RequestOk(w: World, asked: bool) {
    && (w.c.readRequested ==> asked && w.phase != Waiting(ReadRequest))
    && if asked then w.s.readRequested || (w.phase == Waiting(ReadRequest) && Control(w.c2s) != [])
       else !w.s.readRequested && w.phase != Waiting(ReadRequest) && w.fromPipe == [] && !w.s.eof
  }

  // ----- closing for good ---------------------------------------------------------------

  lemma UserClose(w: World, a: Action, left: bool)
    requires Inv(w) && Enabled(w, a) && CloseOk(w, left)
    requires !a.ActClientReceive? && !a.ActServerReceive? && !a.ActServe? && !a.ActFlush?
    ensures CloseOk(Step(w, a), left || a == LEAVE)
  {
    hide FlowInv, ParserOk, EofOk, ClosedOk, Accept, Up, Down;
  }

  lemma ReceiveClose(w: World, left: bool)
    requires |w.s2c| > w.held && Inv(w) && CloseOk(w, left)
    ensures CloseOk(ClientReceive(w), left)
  {
    hide FlowInv, ParserOk, EofOk, ControlOk, Up, Down, Fill;
    Expected(w);
    if w.s2c[0].CloseResp? {
      CloseAnswered(w);
    }
    if w.s2c[0].OpenOk? {
      Opened(w);
    }
  }

  lemma Opened(w: World)
    requires ControlOk(w) && w.s2c != [] && w.s2c[0].OpenOk?
    ensures !w.s.removed
  {
    Expected(w);
  }

  lemma ServeClose(w: World, ts: seq<Turn>, input: Input, left: bool)
    requires ServeOk(w.s, ts, input) && CloseOk(w, left)
    ensures CloseOk(Serve(w, ts, input), left)
  {
    hide DoAll, TurnsOk;
  }

  lemma HandleClose(w: World, res: seq<byte>, left: bool)
    requires w.c2s != [] && Inv(w) && CloseOk(w, left)
    ensures CloseOk(ServerReceive(w, res), left)
  {
    hide FlowInv, ParserOk, EofOk, ControlOk, ClosedOk, Up, Down, Fill;
    Requested(w);
  }

  lemma StepClose(w: World, a: Action, left: bool)
    requires Inv(w) && Enabled(w, a) && CloseOk(w, left)
    ensures CloseOk(Step(w, a), left || a == LEAVE)
  {
    hide Inv, CloseOk, ClientReceive, ServerReceive, Serve, ServeOk;
    match a
    case ActClientReceive => ReceiveClose(w, left);
    case ActServerReceive(res) => HandleClose(w, res, left);
    case ActServe(ts, input) => ServeClose(w, ts, input, left);
    case ActFlush(kept) => FlushClose(w, kept, left);
    case _ => UserClose(w, a, left);
  }

  lemma FlushClose(w: World, kept: nat, left: bool)
    requires CloseOk(w, left)
    ensures CloseOk(FlushAll(w, kept), left)
  {
    hide Chunks;
  }

  lemma {:induction false} ExecClose(w: World, run: seq<Action>, left: bool)
    requires Inv(w) && Legal(w, run) && CloseOk(w, left)
    ensures CloseOk(Exec(w, run), left || LEAVE in run)
    decreases run
  {
    hide Inv, Step, Enabled, CloseOk;
    if run != [] {
      StepClose(w, run[0], left);
      StepKeeps(w, run[0]);
      ExecClose(Step(w, run[0]), run[1..], left || run[0] == LEAVE);
      assert LEAVE in run <==> run[0] == LEAVE || LEAVE in run[1..];
    }
  }

  lemma FromStart(run: seq<Action>)
    requires Legal(INIT, run)
    ensures CloseOk(Exec(INIT, run), LEAVE in run)
  {
    hide Inv, Step, Enabled;
    InitInv();
    ExecClose(INIT, run, false);
  }

  /**
   * The server gives a file up if and only if a user closed it for good: always by the
   * time the user's close returns, and never for users that merely exit, however many
   * sessions there were.
   */
  lemma RemovedExactly(run: seq<Action>)
    requires Legal(INIT, run)
    ensures var w := Exec(INIT, run);
            && (w.phase.Idle? ==> (w.s.removed <==> LEAVE in run))
            && (w.s.removed || w.s.closed ==> LEAVE in run)
  {
    FromStart(run);
  }

  /**
   * The close that a user waits for returns only when the file is off the server's list,
   * and by then the real pipe has got every byte that was ever written.
   */
  lemma CloseReturns(run: seq<Action>)
    requires Legal(INIT, run)
    requires var w := Exec(INIT, run); w.phase == Waiting(Close(false)) && Enabled(w, ActClientReceive) && w.s2c[0].CloseResp?
    ensures var w := Exec(INIT, run);
            w.s.removed && Emitted(w.s.parser) == Flat(w.records) && ClientReceive(w).phase.Idle?
  {
    hide Legal, Exec, CloseOk, FlowInv, ParserOk, EofOk, ControlOk, Emitted;
    var w := Exec(INIT, run);
    EveryRun(run);
    FromStart(run);
    CloseAnswered(w);
    AllConsumed(w);
    GoneByThen(w, LEAVE in run);
  }

  lemma GoneByThen(w: World, left: bool)
    requires Inv(w) && CloseOk(w, left) && w.phase == Waiting(Close(false)) && Enabled(w, ActClientReceive) && w.s2c == [CloseResp]
    requires w.s.peer.None?
    ensures w.s.removed && ClientReceive(w).phase.Idle?
  {
    hide FlowInv, ParserOk, EofOk, ControlOk;
  }

  /** A file given up stays so: every later open fails, and nothing is read or written any more. */
  lemma RemovedForever(before: seq<Action>, after: seq<Action>)
    requires Legal(INIT, before) && Legal(Exec(INIT, before), after)
    requires var w := Exec(INIT, before); w.phase.Idle? && w.s.removed
    ensures var w, v := Exec(INIT, before), Exec(Exec(INIT, before), after);
            && v.s == w.s && Grown(w, v) && (v.phase.Idle? || v.phase.Opening?)
            && (v.s2c == [] || v.s2c == [OpenFailed]) && (v.c2s == [] || v.c2s == [Open])
  {
    hide Inv, Step, Enabled, Legal, Exec;
    var w := Exec(INIT, before);
    EveryRun(before);
    IdleQueues(w);
    ExecGone(w, after);
  }

  predicate Grown(w: World, v: World) {
    v.sessions == w.sessions && v.fromPipe == w.fromPipe && v.delivered == w.delivered && v.records == w.records
  }

  predicate Gone(w: World) {
    && w.s.removed && (w.phase.Idle? || w.phase.Opening?)
    && (w.s2c == [] || w.s2c == [OpenFailed]) && (w.c2s == [] || w.c2s == [Open])
  }

  lemma IdleQueues(w: World)
    requires Inv(w) && w.phase.Idle? && w.s.removed
    ensures Gone(w)
  {
    hide FlowInv, ParserOk, EofOk, ClosedOk;
  }

  lemma StepGone(w: World, a: Action)
    requires Inv(w) && Enabled(w, a) && Gone(w)
    ensures var v := Step(w, a); Gone(v) && v.s == w.s && Grown(w, v)
  {
    hide FlowInv, ParserOk, EofOk, ClosedOk, Fill, Accept, Up, Down;
  }

  lemma {:induction false} ExecGone(w: World, run: seq<Action>)
    requires Inv(w) && Legal(w, run) && Gone(w)
    ensures var v := Exec(w, run); Gone(v) && v.s == w.s && Grown(w, v)
    decreases run
  {
    hide Inv, Step, Enabled, Gone;
    if run != [] {
      StepGone(w, run[0]);
      StepKeeps(w, run[0]);
      ExecGone(Step(w, run[0]), run[1..]);
    }
  }

  // ----- requests to read ------------------------------------------------------------------

  lemma UserRequest(w: World, a: Action, asked: bool)
    requires Inv(w) && Enabled(w, a) && RequestOk(w, asked)
    requires !a.ActClientReceive? && !a.ActServerReceive? && !a.ActServe? && !a.ActFlush?
    ensures RequestOk(Step(w, a), asked || a == REQUEST)
  {
    hide FlowInv, ParserOk, EofOk, ClosedOk, Accept, Up, Down, Control;
    match a
    case ActCall(m) => Push(w.c2s, m);
    case ActAck => Push(w.c2s, WriteResp(w.phase.n));
    case ActClientSend(n) => Push(w.c2s, Write(w.c.wbuf[w.c.unconf..w.c.unconf + n]));
    case _ =>
  }

  lemma ReceiveRequest(w: World, asked: bool)
    requires w.s2c != [] && Inv(w) && RequestOk(w, asked)
    ensures RequestOk(ClientReceive(w), asked)
  {
    hide FlowInv, ParserOk, EofOk, ControlOk, ClosedOk, Up, Down, Fill, Control;
    Expected(w);
  }

  lemma HandleRequest(w: World, res: seq<byte>, asked: bool)
    requires w.c2s != [] && Inv(w) && RequestOk(w, asked)
    ensures RequestOk(ServerReceive(w, res), asked)
  {
    hide FlowInv, ParserOk, EofOk, ControlOk, ClosedOk, Up, Down, Fill, Control;
    Requested(w);
    Pop(w.c2s);
  }

  lemma ServeRequest(w: World, ts: seq<Turn>, input: Input, asked: bool)
    requires ServeOk(w.s, ts, input) && RequestOk(w, asked)
    ensures RequestOk(Serve(w, ts, input), asked)
  {
    hide DoAll, TurnsOk, Control;
  }

  lemma FlushRequest(w: World, kept: nat, asked: bool)
    requires RequestOk(w, asked)
    ensures RequestOk(FlushAll(w, kept), asked)
  {
    hide Chunks, Control;
  }

  lemma StepRequest(w: World, a: Action, asked: bool)
    requires Inv(w) && Enabled(w, a) && RequestOk(w, asked)
    ensures RequestOk(Step(w, a), asked || a == REQUEST)
  {
    hide Inv, RequestOk, ClientReceive, ServerReceive, Serve, ServeOk;
    match a
    case ActClientReceive => ReceiveRequest(w, asked);
    case ActServerReceive(res) => HandleRequest(w, res, asked);
    case ActServe(ts, input) => ServeRequest(w, ts, input, asked);
    case ActFlush(kept) => FlushRequest(w, kept, asked);
    case _ => UserRequest(w, a, asked);
  }

  lemma {:induction false} ExecRequest(w: World, run: seq<Action>, asked: bool)
    requires Inv(w) && Legal(w, run) && RequestOk(w, asked)
    ensures RequestOk(Exec(w, run), asked || REQUEST in run)
    decreases run
  {
    hide Inv, Step, Enabled, RequestOk;
    if run != [] {
      StepRequest(w, run[0], asked);
      StepKeeps(w, run[0]);
      ExecRequest(Step(w, run[0]), run[1..], asked || run[0] == REQUEST);
      assert REQUEST in run <==> run[0] == REQUEST || REQUEST in run[1..];
    }
  }

  /**
   * The server reads from the pipe, and meets its end, only after some user asked; once
   * the request of any user is answered it reads for all that follow.
   */
  lemma ReadsOnRequest(run: seq<Action>)
    requires Legal(INIT, run)
    ensures var w := Exec(INIT, run);
            && (w.s.readRequested || w.fromPipe != [] || w.s.eof ==> REQUEST in run)
            && (REQUEST in run && w.phase != Waiting(ReadRequest) ==> w.s.readRequested)
            && (w.c.readRequested ==> w.s.readRequested)
  {
    hide Inv, Step, Enabled;
    InitInv();
    ExecRequest(INIT, run, false);
  }

  // ----- requests and answers -----------------------------------------------------------------

  /** What handling the next message must make of w: the answer, and no more than it asks for. */
  ghost predicate ServedAs(w: World, v: World, res: seq<byte>)
    requires w.c2s != []
  {
    match w.c2s[0]
    case Open =>
      if w.s.removed then v.s2c == [OpenFailed] && v.s == w.s
      else v.s2c == [OpenOk] && v.s == w.s.(peer := Some(w.peer))
    case Write(data) => v.s2c == w.s2c && v.s == w.s.(parser := w.s.parser.(rbuf := w.s.parser.rbuf + data))
    case WriteResp(n) =>
      v.s2c == w.s2c && n <= w.s.unconf <= |w.s.wbuf| && v.s == w.s.(wbuf := w.s.wbuf[n..], unconf := w.s.unconf - n)
    case Ioctl(_) => v.s2c == w.s2c + [IoctlResp(res)] && v.s == w.s
    case Fsync => v.s2c == w.s2c + [FsyncResp] && v.s == w.s
    case ReadRequest => v.s2c == w.s2c + [ReadRequestResp] && v.s == w.s.(readRequested := true)
    case Close(exiting) => v.s2c == w.s2c + [CloseResp] && v.s == w.s.(peer := None, unconf := 0, closed := !exiting)
    case _ => false
  }

  /** In every state of every run the server meets only messages it knows, and serves them so. */
  lemma Served(run: seq<Action>, res: seq<byte>)
    requires Legal(INIT, run) && Exec(INIT, run).c2s != []
    ensures ServedAs(Exec(INIT, run), ServerReceive(Exec(INIT, run), res), res)
  {
    hide Legal, Exec, Inv, ServerReceive, ServedAs;
    EveryRun(run);
    var w := Exec(INIT, run);
    if w.c2s[0].Write? || w.c2s[0].WriteResp? {
      DataServed(w, res);
    } else {
      CallServed(w, res);
    }
  }

  lemma DataServed(w: World, res: seq<byte>)
    requires Inv(w) && w.c2s != [] && (w.c2s[0].Write? || w.c2s[0].WriteResp?)
    ensures ServedAs(w, ServerReceive(w, res), res)
  {
    hide FlowInv, ParserOk, EofOk, ClosedOk, ControlOk, Control;
    Requested(w);
    Pop(w.c2s);
    FlowCredit(Up(w));
    FlowCredit(Down(w));
  }

  lemma CallServed(w: World, res: seq<byte>)
    requires Inv(w) && w.c2s != [] && IsControl(w.c2s[0])
    ensures ServedAs(w, ServerReceive(w, res), res)
  {
    hide FlowInv, ParserOk, EofOk, Control;
    Requested(w);
  }

  /** A user's call returns with its own answer and not before it. */
  lemma CallReturns(run: seq<Action>)
    requires Legal(INIT, run)
    requires var w := Exec(INIT, run); w.phase.Waiting? && Enabled(w, ActClientReceive)
    ensures var w := Exec(INIT, run); var v := ClientReceive(w);
            if v.phase == w.phase then w.s2c[0].Write? || w.s2c[0].WriteResp?
            else match w.phase.call
                 case Close(_) => w.s2c == [CloseResp] && v.phase.Idle? && v.c == FRESH
                 case Fsync => w.s2c[0].FsyncResp? && v.phase.Ready? && v.c == w.c
                 case Ioctl(_) => w.s2c[0].IoctlResp? && v.phase.Ready? && v.c == w.c
                 case ReadRequest => w.s2c[0].ReadRequestResp? && v.phase.Ready? && v.c == w.c.(readRequested := true)
                 case _ => false
  {
    hide Legal, Exec, ParserOk, EofOk, FlowInv, ControlOk;
    var w := Exec(INIT, run);
    EveryRun(run);
    Expected(w);
    if w.s2c[0].CloseResp? {
      CloseAnswered(w);
    }
  }
}
