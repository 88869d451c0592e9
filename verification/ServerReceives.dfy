// The server keeps the invariant when it handles a message.

module ServerReceives {
  import opened Bytes
  import opened Streams
  import opened PipeRecords
  import opened Messages
  import opened Files
  import opened Protocol
  import opened Invariant
  import opened ClientSteps

  /** Whatever the server receives is something the session calls for. */
  lemma Requested(w: World)
    requires ControlOk(w) && w.c2s != []
    ensures var m := w.c2s[0];
            && (!IsControl(m) ==> Live(w))
            && (m.Open? ==> OpeningOk(w) && w.phase.Opening? && w.c2s == [Open] && w.s2c == [])
            && (IsControl(m) && !m.Open? ==>
                w.phase == Waiting(m) && Asked(w, m) && (m.Close? ==> w.c2s == [m]))
  {
    Pop(w.c2s);
    if w.phase.Waiting? && w.phase.call.Close? && Asked(w, w.phase.call) {
      EndsPop(w.c2s, w.phase.call);
    }
  }

  /** Taking data or an acknowledgement off the queue changes no control state. */
  lemma DataControl(w: World, v: World)
    requires ControlOk(w) && w.c2s != [] && !IsControl(w.c2s[0])
    requires v == w.(c2s := w.c2s[1..], s := v.s)
    requires v.s.peer == w.s.peer && v.s.removed == w.s.removed
    ensures ControlOk(v)
  {
    Pop(w.c2s);
    Requested(w);
    if w.phase.Waiting? && w.phase.call.Close? && Asked(w, w.phase.call) {
      EndsPop(w.c2s, w.phase.call);
    }
  }

  lemma DataFlows(w: World, res: seq<byte>)
    requires FlowInv(Up(w)) && Live(w) && w.c2s != [] && w.c2s[0].Write?
    ensures var v := ServerReceive(w, res);
            && FlowInv(Up(v)) && Down(v) == Down(w) && v == w.(c2s := w.c2s[1..], s := v.s)
            && v.s == w.s.(parser := w.s.parser.(rbuf := v.s.parser.rbuf))
  {
    hide FlowInv;
    var v := ServerReceive(w, res);
    var data := w.c2s[0].data;
    Pop(w.c2s);
    FlowCredit(Up(w));
    FlowReceive(Up(w), |data|);
    assert Data(w.c2s)[..|data|] == data && Data(w.c2s)[|data|..] == Data(v.c2s);
    assert v.s.parser.rbuf == w.s.parser.rbuf + data;
    assert w.s2c + [] == w.s2c;
  }

  lemma DataParser(p: Parser, rbuf: seq<byte>, records: seq<seq<byte>>)
    requires ParserOk(p, records)
    ensures ParserOk(p.(rbuf := rbuf), records)
  {
  }

  lemma ReceiveData(w: World, res: seq<byte>)
    requires Enabled(w, ActServerReceive(res)) && w.c2s[0].Write? && Inv(w)
    ensures Inv(ServerReceive(w, res))
  {
    hide FlowInv, ParserOk, ControlOk, Up, Down, ServerReceive;
    Requested(w);
    DataFlows(w, res);
    DataControl(w, ServerReceive(w, res));
    DataParser(w.s.parser, ServerReceive(w, res).s.parser.rbuf, w.records);
  }

  lemma AckFlows(w: World, res: seq<byte>)
    requires FlowInv(Down(w)) && Live(w) && w.c2s != [] && w.c2s[0].WriteResp?
    ensures var v := ServerReceive(w, res);
            && Up(v) == Up(w) && FlowInv(Down(v)) && v == w.(c2s := w.c2s[1..], s := v.s)
            && v.s == w.s.(wbuf := v.s.wbuf, unconf := v.s.unconf)
            && |v.s.wbuf| - v.s.unconf == |w.s.wbuf| - w.s.unconf
  {
    hide FlowInv, Data, Acks, Control;
    var v := ServerReceive(w, res);
    var n := w.c2s[0].count;
    Pop(w.c2s);
    FlowAck(Down(w), n);
    assert w.s2c + [] == w.s2c;
    assert w.s.wbuf[0..] == w.s.wbuf;
    assert Down(v) == Down(w).(wbuf := w.s.wbuf[n..], unconf := w.s.unconf - n, owed := Down(w).owed - n);
  }

  lemma ReceiveAck(w: World, res: seq<byte>)
    requires Enabled(w, ActServerReceive(res)) && w.c2s[0].WriteResp? && Inv(w)
    ensures Inv(ServerReceive(w, res))
  {
    hide FlowInv, ParserOk, ControlOk, Up, Down, ServerReceive;
    Requested(w);
    AckFlows(w, res);
    DataControl(w, ServerReceive(w, res));
  }

  lemma OpenRemoved(w: World, res: seq<byte>)
    requires Enabled(w, ActServerReceive(res)) && w.c2s[0].Open? && w.s.removed && Inv(w)
    ensures Inv(ServerReceive(w, res))
  {
    hide FlowInv, ParserOk;
    Requested(w);
    var v := ServerReceive(w, res);
    assert v.s2c == [OpenFailed] && v.c2s == [];
    OpenQueues(OpenFailed);
    assert Up(v) == Up(w) && Down(v) == Down(w);
  }

  lemma OpenQueues(m: Msg)
    requires m.OpenOk? || m.OpenFailed?
    ensures Data([m]) == [] && Acks([m]) == 0 && Data([Open]) == [] && Acks([Open]) == 0
    ensures EofLast([m]) && Data([]) == [] && Acks([]) == 0
  {
    Pop([m]);
    Pop([Open]);
    assert [m][1..] == [] && [Open][1..] == [];
  }

  lemma OpenLive(w: World, res: seq<byte>)
    requires Enabled(w, ActServerReceive(res)) && w.c2s[0].Open? && !w.s.removed && Inv(w)
    ensures Inv(ServerReceive(w, res))
  {
    hide FlowInv, ParserOk, Data, Acks, EofLast;
    Requested(w);
    var v := ServerReceive(w, res);
    assert v.s2c == [OpenOk] && v.c2s == [];
    assert v.s2c[1..] == [];
    OpenQueues(OpenOk);
    FlowCredit(Down(w));
    assert Up(v) == Up(w) && Down(v) == Down(w);
  }

  lemma CloseFlows(w: World, res: seq<byte>)
    requires FlowInv(Down(w)) && Live(w) && w.c2s != [] && w.c2s[0].Close? && w.c2s == [w.c2s[0]]
    requires Pending(w.phase) == 0
    ensures var v := ServerReceive(w, res);
            && Up(v) == Up(w) && FlowInv(Down(v)) && Data(v.s2c) == Data(w.s2c)
            && v.s2c == w.s2c + [CloseResp] && v.c2s == [] && !(w.fault != v.fault)
            && v.s.peer.None? && v.s.parser == w.s.parser
  {
    hide FlowInv;
    var v := ServerReceive(w, res);
    Pop(w.c2s);
    Push(w.s2c, CloseResp);
    FlowReset(Down(w));
    assert Down(v) == Flow(w.fromPipe, w.delivered, [], [], w.s.wbuf, 0, 0);
  }

  lemma ReceiveClose(w: World, res: seq<byte>)
    requires Enabled(w, ActServerReceive(res)) && w.c2s[0].Close? && Inv(w)
    ensures Inv(ServerReceive(w, res))
  {
    hide FlowInv, ParserOk, Up, Down, ServerReceive;
    Requested(w);
    CloseFlows(w, res);
    CloseControl(w, res);
  }

  lemma CloseControl(w: World, res: seq<byte>)
    requires w.c2s != [] && w.c2s[0].Close? && w.phase == Waiting(w.c2s[0]) && Asked(w, w.c2s[0])
    requires w.c2s == [w.c2s[0]] && w.c.wbuf == [] && EofOk(w) && ClosedOk(w)
    requires w.pc.Receiving? && w.held <= |w.s2c|
    ensures var v := ServerReceive(w, res);
            ControlOk(v) && EofOk(v) && ClosedOk(v) && v.held <= |v.s2c| && v == w.(s := v.s, s2c := v.s2c, c2s := v.c2s, held := v.held)
  {
    var v := ServerReceive(w, res);
    assert v.s2c[..|v.s2c| - 1] == w.s2c;
    assert v.c2s == [];
    assert Answered(v, w.c2s[0]);
  }

  /** fsync, ioctl and read requests: one answer, nothing else moves. */
  lemma CallFlows(w: World, res: seq<byte>)
    requires Live(w) && w.c2s != [] && IsCall(w.c2s[0]) && !w.c2s[0].Close?
    ensures var v := ServerReceive(w, res);
            && Up(v) == Up(w) && Down(v) == Down(w) && Data(v.s2c) == Data(w.s2c)
            && v.s == w.s.(readRequested := v.s.readRequested) && |v.s2c| == |w.s2c| + 1
            && v.s2c[..|w.s2c|] == w.s2c && Answers(v.s2c[|w.s2c|], w.c2s[0])
            && v == w.(s := v.s, s2c := v.s2c, c2s := w.c2s[1..], held := w.held + 1)
  {
    hide Data, Acks, Control;
    var v := ServerReceive(w, res);
    Pop(w.c2s);
    Push(w.s2c, v.s2c[|w.s2c|]);
    assert v.s2c == w.s2c + [v.s2c[|w.s2c|]];
  }

  lemma {:induction false} EofLastPush(q: seq<Msg>, m: Msg)
    requires EofLast(q) && (m.Write? && m.data != [] ==> Write([]) !in q)
    ensures EofLast(q + [m])
  {
    if q == [] {
      Pop([m]);
    } else {
      assert (q + [m])[1..] == q[1..] + [m];
      if q[0] == Write([]) {
        Push(q[1..], m);
      } else {
        EofLastPush(q[1..], m);
      }
    }
  }

  lemma CallControl(w: World, v: World)
    requires w.c2s != [] && IsCall(w.c2s[0]) && !w.c2s[0].Close? && w.phase == Waiting(w.c2s[0])
    requires Asked(w, w.c2s[0]) && ControlOk(w)
    requires |v.s2c| == |w.s2c| + 1 && v.s2c[..|w.s2c|] == w.s2c && Answers(v.s2c[|w.s2c|], w.c2s[0])
    requires v == w.(s := v.s, s2c := v.s2c, c2s := w.c2s[1..], held := w.held + 1)
    requires v.s == w.s.(readRequested := v.s.readRequested)
    ensures ControlOk(v)
  {
    var r := v.s2c[|w.s2c|];
    assert v.s2c == w.s2c + [r];
    Push(w.s2c, r);
    Pop(w.c2s);
    assert Answered(v, w.c2s[0]);
  }

  lemma CallEof(w: World, v: World)
    requires EofOk(w) && ClosedOk(w) && Live(w)
    requires |v.s2c| == |w.s2c| + 1 && v.s2c[..|w.s2c|] == w.s2c && IsControl(v.s2c[|w.s2c|])
    requires v == w.(s := v.s, s2c := v.s2c, c2s := v.c2s, held := w.held + 1)
    requires v.s == w.s.(readRequested := v.s.readRequested)
    ensures EofOk(v) && ClosedOk(v)
  {
    var r := v.s2c[|w.s2c|];
    assert v.s2c == w.s2c + [r];
    Push(w.s2c, r);
    if w.sessions == 1 {
      EofLastPush(w.s2c, r);
    }
  }

  lemma ReceiveCall(w: World, res: seq<byte>)
    requires Enabled(w, ActServerReceive(res)) && IsControl(w.c2s[0]) && !w.c2s[0].Open? && !w.c2s[0].Close?
    requires Inv(w)
    ensures Inv(ServerReceive(w, res))
  {
    hide FlowInv, ParserOk, EofOk, ClosedOk, Up, Down, ServerReceive;
    var v := ServerReceive(w, res);
    Requested(w);
    CallFlows(w, res);
    CallControl(w, v);
    CallEof(w, v);
  }

  lemma ServerReceiveKeeps(w: World, res: seq<byte>)
    requires Enabled(w, ActServerReceive(res)) && Inv(w)
    ensures Inv(ServerReceive(w, res))
  {
    hide Inv;
    match w.c2s[0]
    case Write(_) => ReceiveData(w, res);
    case WriteResp(_) => ReceiveAck(w, res);
    case Open => if w.s.removed { OpenRemoved(w, res); } else { OpenLive(w, res); }
    case Close(_) => ReceiveClose(w, res);
    case _ => ReceiveCall(w, res);
  }
}
