// What every reachable state of the protocol satisfies.

module Invariant {
  import opened Bytes
  import opened Streams
  import opened PipeRecords
  import opened Messages
  import opened Files
  import opened Protocol

  /** User data on its way to the real pipe. */
  ghost function Up(w: World): (f: Flow) {
    Flow(Encode(w.records), w.s.parser.taken, w.s.parser.rbuf, Data(w.c2s), w.c.wbuf, w.c.unconf, Acks(w.s2c))
  }

  function Pending(phase: Phase): (n: nat) {
    if phase.AckPending? then phase.n else 0
  }

  /**
   * Pipe data on its way to the user. Without a session the flow has no
   * receiver: what a closing client still holds is not part of it.
   */
  ghost function Down(w: World): (f: Flow) {
    if w.s.peer.Some? then
      Flow(w.fromPipe, w.delivered, w.c.rbuf, Data(w.s2c), w.s.wbuf, w.s.unconf, Acks(w.c2s) + Pending(w.phase))
    else
      Flow(w.fromPipe, w.delivered, [], [], w.s.wbuf, w.s.unconf, 0)
  }

  /** m is the last message of q and the only control message in it. */
  ghost predicate Ends(q: seq<Msg>, m: Msg) {
    |q| > 0 && q[|q| - 1] == m && Control(q[..|q| - 1]) == []
  }

  ghost predicate Live(w: World) {
    w.s.peer == Some(w.peer) && !w.s.removed
  }

  ghost predicate OpeningOk(w: World) {
    && w.c == FRESH
    && ( || (w.c2s == [Open] && w.s2c == [] && w.s.peer.None?)
         || (w.c2s == [] && w.s2c == [OpenFailed] && w.s.peer.None?)
         || (w.c2s == [] && Live(w) && |w.s2c| > 0 && w.s2c[0] == OpenOk && Control(w.s2c[1..]) == []))
  }

  ghost predicate Asked(w: World, m: Msg) {
    && Control(w.s2c) == [] && Live(w)
    && if m.Close? then Ends(w.c2s, m) else Control(w.c2s) == [m]
  }

  ghost predicate Answered(w: World, m: Msg) {
    && Control(w.c2s) == []
    && if m.Close? then w.c2s == [] && w.s.peer.None? && Ends(w.s2c, CloseResp)
       else Live(w) && |Control(w.s2c)| == 1 && Answers(Control(w.s2c)[0], m)
  }

  /** Which control messages are under way in each phase of a session. */
  ghost predicate ControlOk(w: World) {
    match w.phase
    case Idle => w.c == FRESH && w.c2s == [] && w.s2c == [] && w.s.peer.None?
    case Opening => OpeningOk(w)
    case Ready => Live(w) && Control(w.c2s) == [] && Control(w.s2c) == []
    case AckPending(_) => Live(w) && Control(w.c2s) == [] && Control(w.s2c) == []
    case Waiting(m) =>
      IsCall(m) && (IsBarrier(m) ==> w.c.wbuf == []) && (Asked(w, m) || Answered(w, m))
  }

  /** No data follows an end-of-file mark. */
  predicate EofLast(q: seq<Msg>) {
    q == [] || (if q[0] == Write([]) then Data(q[1..]) == [] else EofLast(q[1..]))
  }

  /** End of file in the first session. */
  ghost predicate EofOk(w: World) {
    && (w.sessions == 0 ==> w.s.peer.None? && w.s.wbuf == [] && !w.s.eof)
    && (w.sessions == 1 && w.s.peer.Some? ==>
        && (w.pc.Receiving? || w.s.eof ==> w.s.unconf == |w.s.wbuf|)
        && EofLast(w.s2c)
        && (Write([]) in w.s2c || w.c.eof ==> w.s.eof)
        && (w.c.eof ==> Data(w.s2c) == []))
  }

  /** A file closed for good is out of the list before its closer hears about it. */
  ghost predicate ClosedOk(w: World) {
    w.s.closed && !w.s.removed ==>
      && w.pc.Receiving? && 0 < w.held <= |w.s2c|
      && w.phase.Waiting? && w.phase.call.Close? && Answered(w, w.phase.call)
  }

  ghost predicate Inv(w: World) {
    && !w.fault
    && FlowInv(Up(w))
    && FlowInv(Down(w))
    && ParserOk(w.s.parser, w.records)
    && ControlOk(w)
    && |w.c.rbuf| + |Data(w.s2c)| <= BUF_SIZE
    && EofOk(w)
    && w.held <= |w.s2c|
    && ClosedOk(w)
  }

  lemma InitInv()
    ensures Inv(INIT)
  {
    assert Up(INIT).wbuf[0..] == [];
  }

  lemma OpenKeeps(w: World, peer: nat)
    requires Inv(w) && Enabled(w, ActOpen(peer))
    ensures Inv(OpenStep(w, peer))
  {
    OpenFlows(w, peer);
  }

  lemma OpenFlows(w: World, peer: nat)
    requires w.phase.Idle? && ControlOk(w)
    ensures var v := OpenStep(w, peer);
            Up(v) == Up(w) && Down(v) == Down(w) && v.c2s == [Open]
  {
    Push(w.c2s, Open);
  }

  lemma WriteKeeps(w: World, buf: seq<byte>)
    requires Inv(w) && Enabled(w, ActWrite(buf))
    ensures Inv(WriteStep(w, buf))
  {
    hide FlowInv, ParserOk, Encode, Record, Data, Acks, Control;
    match Accept(Room(w.c.wbuf), buf)
    case Refused(_) =>
    case Payload(bytes) =>
      var v := WriteStep(w, buf);
      EncodeSnoc(w.records, bytes);
      FlowPut(Up(w), Record(bytes));
      assert Up(v) == Up(w).(hist := Up(w).hist + Record(bytes), wbuf := w.c.wbuf + Record(bytes));
      assert Down(v) == Down(w);
      MoreRecords(w.s.parser, w.records, bytes);
  }

  lemma ReadKeeps(w: World, count: nat)
    requires Inv(w) && Enabled(w, ActRead(count))
    ensures Inv(ReadStep(w, count))
  {
    hide FlowInv, ParserOk;
    var v := ReadStep(w, count);
    FlowTake(Down(w), Min(count, |w.c.rbuf|));
    assert Up(v) == Up(w);
  }

  lemma AckKeeps(w: World)
    requires Inv(w) && Enabled(w, ActAck)
    ensures Inv(AckStep(w))
  {
    hide FlowInv, ParserOk, Data, Acks, Control, Encode;
    var v := AckStep(w);
    Push(w.c2s, WriteResp(w.phase.n));
    assert Up(v) == Up(w);
    assert Down(v) == Down(w);
  }

  lemma CallKeeps(w: World, m: Msg)
    requires Inv(w) && Enabled(w, ActCall(m))
    ensures Inv(CallStep(w, m))
  {
    CallFlows(w, m);
    CallControl(w, m);
  }

  lemma CallFlows(w: World, m: Msg)
    requires w.phase.Ready? && IsCall(m)
    ensures Up(CallStep(w, m)) == Up(w) && Down(CallStep(w, m)) == Down(w)
  {
    Push(w.c2s, m);
  }

  lemma CallControl(w: World, m: Msg)
    requires ControlOk(w) && Enabled(w, ActCall(m))
    ensures ControlOk(CallStep(w, m))
  {
    var v := CallStep(w, m);
    Push(w.c2s, m);
    assert v.c2s[..|v.c2s| - 1] == w.c2s;
    assert Asked(v, m);
  }

  lemma ClientSendKeeps(w: World, n: nat)
    requires Inv(w) && Enabled(w, ActClientSend(n))
    ensures Inv(ClientSend(w, n))
  {
    ClientSendFlows(w, n);
    ClientSendControl(w, n);
  }

  lemma ClientSendFlows(w: World, n: nat)
    requires FlowInv(Up(w)) && Enabled(w, ActClientSend(n))
    ensures FlowInv(Up(ClientSend(w, n))) && Down(ClientSend(w, n)) == Down(w)
  {
    hide FlowInv, Data, Acks, Control;
    var sent := w.c.wbuf[w.c.unconf..w.c.unconf + n];
    Push(w.c2s, Write(sent));
    FlowSend(Up(w), n);
    assert Up(ClientSend(w, n)) == Up(w).(wire := Up(w).wire + sent, unconf := w.c.unconf + n);
  }

  lemma ClientSendControl(w: World, n: nat)
    requires ControlOk(w) && Enabled(w, ActClientSend(n))
    ensures ControlOk(ClientSend(w, n))
  {
    Push(w.c2s, Write(w.c.wbuf[w.c.unconf..w.c.unconf + n]));
  }
}
