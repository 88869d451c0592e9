// The client thread keeps the invariant when it handles a message.

module ClientSteps {
  import opened Bytes
  import opened Streams
  import opened PipeRecords
  import opened Messages
  import opened Files
  import opened Protocol
  import opened Invariant

  /** Taking the first message off a queue. */
  lemma Pop(q: seq<Msg>)
    requires q != []
    ensures Data(q) == (if q[0].Write? then q[0].data else []) + Data(q[1..])
    ensures Acks(q) == (if q[0].WriteResp? then q[0].count else 0) + Acks(q[1..])
    ensures Control(q) == (if IsControl(q[0]) then [q[0]] else []) + Control(q[1..])
    ensures IsControl(q[0]) ==> Control(q) != [] && Control(q)[0] == q[0]
  {
  }

  lemma EndsPop(q: seq<Msg>, m: Msg)
    requires Ends(q, m) && IsControl(m)
    ensures IsControl(q[0]) ==> q == [m]
    ensures !IsControl(q[0]) ==> Ends(q[1..], m)
  {
    if |q| > 1 {
      Pop(q[..|q| - 1]);
      assert q[..|q| - 1][1..] == q[1..][..|q| - 2];
    }
  }

  lemma {:induction false} NoDataEofLast(q: seq<Msg>)
    requires Data(q) == []
    ensures EofLast(q)
  {
    if q != [] {
      NoDataEofLast(q[1..]);
    }
  }

  /** Whatever the client receives is something its phase expects. */
  lemma Expected(w: World)
    requires ControlOk(w) && w.s2c != []
    ensures var m := w.s2c[0];
            && (!IsControl(m) ==> Connected(w))
            && (m.OpenOk? || m.OpenFailed? ==> w.phase.Opening?)
            && (IsControl(m) && !m.OpenOk? && !m.OpenFailed? ==>
                w.phase.Waiting? && Answered(w, w.phase.call) && Answers(m, w.phase.call))
  {
    Pop(w.s2c);
    if w.phase.Waiting? && w.phase.call.Close? && Answered(w, w.phase.call) {
      EndsPop(w.s2c, CloseResp);
    }
  }

  lemma DataControl(w: World)
    requires ControlOk(w) && w.s2c != [] && !IsControl(w.s2c[0])
    ensures ControlOk(w.(s2c := w.s2c[1..]))
  {
    Pop(w.s2c);
    Expected(w);
    if w.phase.Waiting? && w.phase.call.Close? && Answered(w, w.phase.call) {
      EndsPop(w.s2c, CloseResp);
    }
  }

  lemma ReceiveDataFlows(w: World)
    requires FlowInv(Up(w)) && FlowInv(Down(w)) && Connected(w)
    requires |w.c.rbuf| + |Data(w.s2c)| <= BUF_SIZE
    requires w.s2c != [] && w.s2c[0].Write?
    ensures var v := ClientReceive(w);
            && Up(v) == Up(w) && FlowInv(Down(v))
            && |v.c.rbuf| + |Data(v.s2c)| <= BUF_SIZE && v.fault == w.fault
  {
    hide FlowInv;
    var v := ClientReceive(w);
    var data := w.s2c[0].data;
    Pop(w.s2c);
    FlowCredit(Down(w));
    if w.s.peer.Some? {
      FlowReceive(Down(w), |data|);
      assert Data(w.s2c)[..|data|] == data && Data(w.s2c)[|data|..] == Data(v.s2c);
      assert v.c.rbuf == w.c.rbuf + data;
    }
  }

  lemma ReceiveDataEof(w: World)
    requires EofOk(w) && Connected(w) && w.s2c != [] && w.s2c[0].Write?
    ensures EofOk(ClientReceive(w))
  {
    Pop(w.s2c);
    if Data(w.s2c[1..]) == [] {
      NoDataEofLast(w.s2c[1..]);
    }
  }

  lemma ReceiveData(w: World)
    requires Inv(w) && Enabled(w, ActClientReceive) && w.s2c[0].Write?
    ensures Inv(ClientReceive(w))
  {
    hide FlowInv, ControlOk, EofOk, ClosedOk, ParserOk, Up, Down;
    ReceiveClosed(w);
    Expected(w);
    DataControl(w);
    ReceiveDataFlows(w);
    ReceiveDataEof(w);
    ReceiveDataPhase(w);
  }

  lemma ReceiveDataPhase(w: World)
    requires w.s2c != [] && w.s2c[0].Write?
    requires ControlOk(w.(s2c := w.s2c[1..])) && Connected(w)
    ensures ControlOk(ClientReceive(w))
  {
  }

  lemma ReceiveAckFlows(w: World)
    requires FlowInv(Up(w)) && FlowInv(Down(w)) && Connected(w)
    requires w.s2c != [] && w.s2c[0].WriteResp?
    ensures var v := ClientReceive(w);
            && FlowInv(Up(v)) && Down(v) == Down(w) && Data(v.s2c) == Data(w.s2c) && v.fault == w.fault
  {
    hide FlowInv, Data, Acks, Control;
    var v := ClientReceive(w);
    Pop(w.s2c);
    assert Up(w).owed == Acks(w.s2c);
    FlowAck(Up(w), w.s2c[0].count);
    assert Up(v) == Up(w).(wbuf := v.c.wbuf, unconf := v.c.unconf, owed := Acks(v.s2c));
  }

  lemma ReceiveAck(w: World)
    requires Inv(w) && Enabled(w, ActClientReceive) && w.s2c[0].WriteResp?
    ensures Inv(ClientReceive(w))
  {
    hide FlowInv, ControlOk, EofOk, ClosedOk, ParserOk, Up, Down;
    ReceiveClosed(w);
    Expected(w);
    ReceiveAckFlows(w);
    DataControl(w);
    ReceiveAckControl(w);
  }

  lemma ReceiveAckControl(w: World)
    requires w.s2c != [] && w.s2c[0].WriteResp?
    requires ControlOk(w.(s2c := w.s2c[1..])) && EofOk(w) && Connected(w)
    ensures ControlOk(ClientReceive(w)) && EofOk(ClientReceive(w))
  {
    hide Ends, Data, Control;
    Pop(w.s2c);
    var v := ClientReceive(w);
    assert v == w.(s2c := w.s2c[1..], c := v.c, fault := v.fault);
    assert v.c.eof == w.c.eof && |v.c.wbuf| <= |w.c.wbuf|;
  }

  lemma CloseAnswered(w: World)
    requires ControlOk(w) && w.s2c != [] && w.s2c[0].CloseResp?
    ensures w.c.wbuf == [] && w.s.peer.None? && w.c2s == [] && w.s2c == [CloseResp]
  {
    Expected(w);
    EndsPop(w.s2c, CloseResp);
  }

  /** Control messages leave both streams alone. */
  lemma ReceiveControlFlows(w: World)
    requires FlowInv(Up(w)) && ControlOk(w) && w.s2c != [] && IsControl(w.s2c[0])
    ensures var v := ClientReceive(w);
            && Up(v) == Up(w) && Down(v) == Down(w)
            && Data(v.s2c) == Data(w.s2c) && |v.c.rbuf| <= |w.c.rbuf| && v.fault == w.fault
  {
    hide FlowInv, ControlOk, Answered, Data, Acks, Control, Encode, Up, Down, ClientReceive;
    if w.s2c[0].CloseResp? {
      ReceiveCloseFlows(w);
    } else {
      ReceiveAnswerFlows(w);
    }
  }

  lemma ReceiveCloseFlows(w: World)
    requires FlowInv(Up(w)) && ControlOk(w) && w.s2c != [] && w.s2c[0].CloseResp?
    ensures var v := ClientReceive(w);
            && Up(v) == Up(w) && Down(v) == Down(w)
            && Data(v.s2c) == Data(w.s2c) && |v.c.rbuf| <= |w.c.rbuf| && v.fault == w.fault
  {
    hide FlowInv, ControlOk, Answered, Data, Acks, Control, Encode;
    Expected(w);
    CloseAnswered(w);
    Pop(w.s2c);
    FlowCredit(Up(w));
  }

  lemma ReceiveAnswerFlows(w: World)
    requires ControlOk(w) && w.s2c != [] && IsControl(w.s2c[0]) && !w.s2c[0].CloseResp?
    ensures var v := ClientReceive(w);
            && Up(v) == Up(w) && Down(v) == Down(w)
            && Data(v.s2c) == Data(w.s2c) && v.c.rbuf == w.c.rbuf && v.fault == w.fault
  {
    hide ControlOk, Answered, Data, Acks, Control, Encode;
    Expected(w);
    Pop(w.s2c);
  }

  lemma ReceiveControlPhase(w: World)
    requires ControlOk(w) && w.s2c != [] && IsControl(w.s2c[0])
    ensures ControlOk(ClientReceive(w))
  {
    hide ClientReceive, ControlOk, Control, Answered;
    Expected(w);
    if w.s2c[0].CloseResp? {
      CloseDone(w);
    } else if w.phase.Waiting? {
      CallDone(w);
    } else {
      OpenDone(w);
    }
  }

  lemma OpenDone(w: World)
    requires ControlOk(w) && w.phase.Opening? && w.s2c != [] && (w.s2c[0].OpenOk? || w.s2c[0].OpenFailed?)
    ensures ControlOk(ClientReceive(w))
  {
    assert Control([]) == [];
    hide Control;
  }

  lemma CloseDone(w: World)
    requires ControlOk(w) && w.s2c != [] && w.s2c[0].CloseResp?
    ensures ControlOk(ClientReceive(w))
  {
    hide Control, Answered;
    Expected(w);
    CloseAnswered(w);
  }

  lemma CallDone(w: World)
    requires ControlOk(w) && w.phase.Waiting? && w.s2c != [] && IsControl(w.s2c[0]) && !w.s2c[0].CloseResp?
    ensures ControlOk(ClientReceive(w))
  {
    CallAnswered(w);
    hide ControlOk, Answered, Control;
    assert ClientReceive(w).phase.Ready?;
    Settled(w, ClientReceive(w));
  }

  lemma Settled(w: World, v: World)
    requires Live(w) && Control(w.c2s) == [] && w.s2c != [] && Control(w.s2c[1..]) == []
    requires v.phase.Ready? && v.c2s == w.c2s && v.s2c == w.s2c[1..] && v.s == w.s && v.peer == w.peer
    ensures ControlOk(v)
  {
    hide Control;
  }

  /** The answer to a call other than close leaves the session as it was before the call. */
  lemma CallAnswered(w: World)
    requires ControlOk(w) && w.phase.Waiting? && w.s2c != [] && IsControl(w.s2c[0]) && !w.s2c[0].CloseResp?
    ensures Answers(w.s2c[0], w.phase.call)
    ensures Live(w) && Control(w.c2s) == [] && Control(w.s2c[1..]) == []
  {
    Expected(w);
    Pop(w.s2c);
  }

  lemma ReceiveControlEof(w: World)
    requires EofOk(w) && ControlOk(w) && w.s2c != [] && IsControl(w.s2c[0])
    ensures EofOk(ClientReceive(w))
  {
    hide ControlOk, Answered, Control;
    Expected(w);
    Pop(w.s2c);
    if w.s2c[0].CloseResp? {
      CloseAnswered(w);
    }
  }

  lemma ReceiveClosed(w: World)
    requires ControlOk(w) && ClosedOk(w) && Enabled(w, ActClientReceive)
    ensures ClosedOk(ClientReceive(w))
  {
    if w.s.closed && !w.s.removed {
      EndsPop(w.s2c, CloseResp);
      Expected(w);
    }
  }

  lemma ClientReceiveKeeps(w: World)
    requires Inv(w) && Enabled(w, ActClientReceive)
    ensures Inv(ClientReceive(w))
  {
    hide FlowInv, ControlOk, EofOk, ClosedOk, ParserOk, Up, Down;
    ReceiveClosed(w);
    if w.s2c[0].Write? {
      ReceiveData(w);
    } else if w.s2c[0].WriteResp? {
      ReceiveAck(w);
    } else {
      ReceiveControlFlows(w);
      ReceiveControlPhase(w);
      ReceiveControlEof(w);
    }
  }
}
