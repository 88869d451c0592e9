// The server keeps the invariant when it serves its files and sends its buffers.

module ServerPasses {
  import opened Bytes
  import opened Streams
  import opened PipeRecords
  import opened Messages
  import opened Files
  import opened Protocol
  import opened Invariant
  import opened ClientSteps
  import opened ServerReceives

  /** Without a session nothing is left for the real pipe. */
  lemma NoSession(w: World)
    requires FlowInv(Up(w)) && ControlOk(w) && w.s.peer.None?
    ensures w.c.wbuf == [] && w.s.parser.rbuf == []
  {
    hide FlowInv;
    FlowCredit(Up(w));
  }

  lemma SessionLive(w: World)
    requires ControlOk(w) && w.s.peer.Some?
    ensures Live(w) && !w.phase.Idle?
  {
  }

  lemma {:induction false} Append(q: seq<Msg>, r: seq<Msg>)
    ensures Data(q + r) == Data(q) + Data(r)
    ensures Acks(q + r) == Acks(q) + Acks(r)
    ensures Control(q + r) == Control(q) + Control(r)
  {
    if r == [] {
      assert q + r == q;
    } else {
      var m := r[|r| - 1];
      var s := r[..|r| - 1];
      assert r == s + [m];
      assert q + r == (q + s) + [m];
      Append(q, s);
      Push(q + s, m);
      Push(s, m);
    }
  }

  lemma NoControl(m: Msg)
    requires !IsControl(m)
    ensures Control([m]) == []
  {
    Pop([m]);
    assert [m][1..] == [];
  }

  /** More data or acknowledgements from a live server change no control state. */
  lemma AppendControl(w: World, v: World, ms: seq<Msg>)
    requires ControlOk(w) && w.s.peer.Some? && Control(ms) == []
    requires v == w.(s := v.s, s2c := w.s2c + ms, held := v.held, pc := v.pc, fault := v.fault, fromPipe := v.fromPipe)
    requires v.s.peer == w.s.peer && v.s.removed == w.s.removed
    ensures ControlOk(v)
  {
    hide Data, Acks, Control;
    Append(w.s2c, ms);
    if w.phase.Opening? {
      assert v.s2c[1..] == w.s2c[1..] + ms;
      Append(w.s2c[1..], ms);
    }
  }

  lemma SameControl(w: World, v: World)
    requires ControlOk(w)
    requires v == w.(s := v.s, held := v.held, pc := v.pc, fault := v.fault, fromPipe := v.fromPipe)
    requires v.s.peer == w.s.peer && (v.s.removed == w.s.removed || w.s.peer.None?)
    ensures ControlOk(v)
  {
  }

  // ----- the write half ---------------------------------------------------------

  lemma ParserRuns(w: World, ts: seq<Turn>)
    requires FlowInv(Up(w)) && ParserOk(w.s.parser, w.records) && TurnsOk(w.s.parser, ts)
    ensures ParserOk(DoAll(w.s.parser, ts), w.records)
  {
    DoAllKeeps(w.s.parser, ts, w.records, Data(w.c2s) + w.c.wbuf[w.c.unconf..]);
  }

  lemma WriteFlows(w: World, ts: seq<Turn>)
    requires FlowInv(Up(w)) && TurnsOk(w.s.parser, ts) && (w.s.peer.None? ==> w.s.parser.rbuf == [])
    ensures var u := ServeWrite(w, ts);
            FlowInv(Up(u)) && Down(u) == Down(w) && Data(u.s2c) == Data(w.s2c) && u.fault == w.fault
  {
    hide FlowInv, Data, Acks, Control, DoAll;
    var u := ServeWrite(w, ts);
    var n := |w.s.parser.rbuf| - |u.s.parser.rbuf|;
    DoAllMoves(w.s.parser, ts);
    FlowTake(Up(w), n);
    if n > 0 {
      Push(w.s2c, WriteResp(n));
    } else {
      assert u.s2c == w.s2c;
    }
    assert Up(u) == Up(w).(taken := u.s.parser.taken, rbuf := u.s.parser.rbuf, owed := Up(w).owed + n);
  }

  /** What the write half changes: the parser, the removed flag and one acknowledgement. */
  lemma WriteShape(w: World, ts: seq<Turn>) returns (n: nat)
    requires TurnsOk(w.s.parser, ts) && (w.s.peer.None? ==> w.s.parser.rbuf == []) && !w.s.removed
    ensures var u := ServeWrite(w, ts);
            && u == w.(s := u.s, s2c := u.s2c, held := u.held, fault := u.fault)
            && u.s == w.s.(parser := DoAll(w.s.parser, ts), removed := u.s.removed)
            && (u.s.removed ==> w.s.closed)
            && (w.s.peer.None? && w.s.closed ==> u.s.removed)
            && (n > 0 ==> w.s.peer.Some? && u.s2c == w.s2c + [WriteResp(n)] && u.held == w.held + 1)
            && (n == 0 ==> u.s2c == w.s2c && u.held == w.held)
  {
    hide DoAll, TurnsOk;
    var u := ServeWrite(w, ts);
    DoAllMoves(w.s.parser, ts);
    n := |w.s.parser.rbuf| - |u.s.parser.rbuf|;
    if n == 0 {
      assert u.s2c == w.s2c;
    }
  }

  lemma WriteControl(w: World, u: World, n: nat)
    requires ControlOk(w) && (w.s.closed ==> w.s.peer.None?) && w.held <= |w.s2c| && !w.s.removed
    requires u == w.(s := u.s, s2c := u.s2c, held := u.held, fault := u.fault)
    requires u.s == w.s.(parser := u.s.parser, removed := u.s.removed) && (u.s.removed ==> w.s.closed)
    requires n > 0 ==> w.s.peer.Some? && u.s2c == w.s2c + [WriteResp(n)] && u.held == w.held + 1
    requires n == 0 ==> u.s2c == w.s2c && u.held == w.held
    ensures ControlOk(u) && u.held <= |u.s2c|
  {
    hide ControlOk;
    if n > 0 {
      NoControl(WriteResp(n));
      AppendControl(w, u, [WriteResp(n)]);
    } else {
      SameControl(w, u);
    }
  }

  lemma AckEof(w: World, v: World, n: nat)
    requires EofOk(w) && w.pc.Receiving?
    requires v == w.(s := v.s, s2c := v.s2c, held := v.held, fault := v.fault, pc := Flushing)
    requires v.s == w.s.(parser := v.s.parser, removed := v.s.removed)
    requires v.s2c == w.s2c || v.s2c == w.s2c + [WriteResp(n)]
    ensures EofOk(v) && (v.sessions == 1 && v.s.peer.Some? ==> v.s.unconf == |v.s.wbuf|)
  {
    if v.s2c != w.s2c {
      Push(w.s2c, WriteResp(n));
      if EofLast(w.s2c) {
        EofLastPush(w.s2c, WriteResp(n));
      }
    }
  }

  /** The state between the two halves, as good as any other but for the closed flag. */
  lemma WriteHalfKeeps(w: World, ts: seq<Turn>)
    requires Inv(w) && w.pc.Receiving? && !w.s.removed && TurnsOk(w.s.parser, ts)
    ensures var u := ServeWrite(w.(pc := Flushing), ts);
            && Inv(u) && (u.sessions == 1 && u.s.peer.Some? ==> u.s.unconf == |u.s.wbuf|)
            && u.pc.Flushing?
  {
    hide FlowInv, ParserOk, ControlOk, EofOk, Up, Down, ServeWrite, TurnsOk, DoAll;
    var w' := w.(pc := Flushing);
    var u := ServeWrite(w', ts);
    SameWorld(w);
    if w.s.peer.None? {
      NoSession(w);
    }
    WriteFlows(w', ts);
    var n := WriteShape(w', ts);
    WriteControl(w', u, n);
    AckEof(w, u, n);
    ParserRuns(w, ts);
  }

  lemma SameWorld(w: World)
    requires ControlOk(w)
    ensures var v := w.(pc := Flushing);
            Up(v) == Up(w) && Down(v) == Down(w) && ControlOk(v)
  {
  }

  // ----- the read half ----------------------------------------------------------

  lemma ReadBytes(w: World, input: Input)
    requires Inv(w) && InputOk(w.s, input) && input.Bytes? && w.pc.Flushing?
    ensures Inv(ServeRead(w, input))
  {
    hide FlowInv, ParserOk, ControlOk;
    var v := ServeRead(w, input);
    assert v.s2c == w.s2c;
    SameControl(w, v);
    SessionLive(w);
    FlowPut(Down(w), input.data);
    assert Up(v) == Up(w);
    assert Down(v) == Down(w).(hist := w.fromPipe + input.data, wbuf := w.s.wbuf + input.data);
  }

  lemma ReadEnd(w: World)
    requires Inv(w) && InputOk(w.s, EndOfFile) && w.pc.Flushing?
    requires w.sessions == 1 ==> w.s.unconf == |w.s.wbuf|
    ensures Inv(ServeRead(w, EndOfFile))
  {
    hide FlowInv, ParserOk, ControlOk, EofLast, Data, Acks, Control;
    var v := ServeRead(w, EndOfFile);
    NoControl(Write([]));
    AppendControl(w, v, [Write([])]);
    SessionLive(w);
    Push(w.s2c, Write([]));
    if w.sessions == 1 {
      EofLastPush(w.s2c, Write([]));
    }
    assert Up(v) == Up(w) && Down(v) == Down(w);
  }

  lemma ReadNothing(w: World)
    ensures ServeRead(w, NoInput) == w
  {
    assert w.s2c + [] == w.s2c;
  }

  lemma RemovedKeeps(w: World)
    requires Inv(w) && w.s.removed
    ensures Inv(w.(pc := Flushing))
  {
    hide FlowInv, ParserOk, Up, Down;
    SameWorld(w);
  }

  lemma ServeKeeps(w: World, ts: seq<Turn>, input: Input)
    requires Enabled(w, ActServe(ts, input)) && Inv(w)
    ensures Inv(Step(w, ActServe(ts, input)))
  {
    hide Inv, TurnsOk;
    if w.s.removed {
      RemovedKeeps(w);
    } else {
      WriteHalfKeeps(w, ts);
      var u := ServeWrite(w.(pc := Flushing), ts);
      match input
      case NoInput => ReadNothing(u);
      case Bytes(_) => ReadBytes(u, input);
      case EndOfFile => ReadEnd(u);
    }
  }

  // ----- sending the buffers ------------------------------------------------------

  /** The messages made of the unsent bytes carry exactly those bytes. */
  lemma {:induction false} ChunksData(unsent: seq<byte>)
    ensures Data(Chunks(unsent)) == unsent
    ensures Acks(Chunks(unsent)) == 0 && Control(Chunks(unsent)) == []
    ensures Write([]) !in Chunks(unsent)
    ensures forall m :: m in Chunks(unsent) ==> m.Write? && 0 < |m.data| <= MAX_DATA
    ensures forall i :: 0 <= i < |Chunks(unsent)| - 1 ==> |Chunks(unsent)[i].data| == 4064
    decreases |unsent|
  {
    if 0 < |unsent| <= MAX_DATA {
      Pop([Write(unsent)]);
    } else if |unsent| > MAX_DATA {
      var rest := Chunks(unsent[MAX_DATA..]);
      ChunksData(unsent[MAX_DATA..]);
      Pop(Chunks(unsent));
      assert Chunks(unsent)[1..] == rest;
      assert forall i :: 1 <= i < |Chunks(unsent)| ==> Chunks(unsent)[i] == rest[i - 1];
      assert unsent == unsent[..MAX_DATA] + unsent[MAX_DATA..];
    }
  }

  lemma {:induction false} EofLastAppend(q: seq<Msg>, r: seq<Msg>)
    requires EofLast(q) && Write([]) !in q && Write([]) !in r
    ensures EofLast(q + r) && Write([]) !in q + r
  {
    if r == [] {
      assert q + r == q;
    } else {
      assert q + r == (q + r[..|r| - 1]) + [r[|r| - 1]];
      EofLastAppend(q, r[..|r| - 1]);
      EofLastPush(q + r[..|r| - 1], r[|r| - 1]);
    }
  }

  lemma FlushFlows(w: World, kept: nat)
    requires FlowInv(Down(w)) && Live(w)
    ensures var v := FlushAll(w, kept);
            && Up(v) == Up(w) && FlowInv(Down(v)) && v.fault == w.fault
            && |Data(v.s2c)| == |Data(w.s2c)| + |w.s.wbuf| - w.s.unconf && w.s.unconf <= |w.s.wbuf|
            && v.s == w.s.(unconf := |w.s.wbuf|) && v.s2c == w.s2c + Chunks(w.s.wbuf[w.s.unconf..])
            && v == w.(s := v.s, s2c := v.s2c, held := kept, pc := Receiving)
  {
    hide FlowInv, Data, Acks, Control, Chunks;
    var v := FlushAll(w, kept);
    FlowCredit(Down(w));
    var unsent := w.s.wbuf[w.s.unconf..];
    ChunksData(unsent);
    Append(w.s2c, Chunks(unsent));
    FlowSend(Down(w), |unsent|);
    assert w.s.wbuf[w.s.unconf..w.s.unconf + |unsent|] == unsent;
    assert Down(v) == Down(w).(wire := Down(w).wire + unsent, unconf := |w.s.wbuf|);
  }

  lemma FlushEof(w: World, v: World)
    requires EofOk(w) && Live(w) && w.s.unconf <= |w.s.wbuf|
    requires v == w.(s := w.s.(unconf := |w.s.wbuf|), s2c := w.s2c + Chunks(w.s.wbuf[w.s.unconf..]), held := v.held, pc := Receiving)
    ensures EofOk(v)
  {
    var unsent := w.s.wbuf[w.s.unconf..];
    ChunksData(unsent);
    if w.sessions == 1 {
      if w.s.eof {
        assert unsent == [];
        assert v.s2c == w.s2c;
      } else {
        EofLastAppend(w.s2c, Chunks(unsent));
      }
    }
  }

  lemma FlushLive(w: World, kept: nat)
    requires Inv(w) && Enabled(w, ActFlush(kept)) && Live(w)
    ensures Inv(FlushAll(w, kept))
  {
    hide FlowInv, ParserOk, ControlOk, EofOk, Up, FlushAll, Chunks;
    var v := FlushAll(w, kept);
    FlushFlows(w, kept);
    ChunksData(w.s.wbuf[w.s.unconf..]);
    AppendControl(w, v, Chunks(w.s.wbuf[w.s.unconf..]));
    FlushEof(w, v);
    FlowCredit(Down(v));
    FlushHeld(w, kept);
  }

  lemma FlushHeld(w: World, kept: nat)
    requires Enabled(w, ActFlush(kept)) && w.held <= |w.s2c|
    ensures kept <= |FlushAll(w, kept).s2c|
  {
  }

  lemma FlushIdle(w: World, kept: nat)
    requires Inv(w) && Enabled(w, ActFlush(kept)) && w.s.peer.None?
    ensures Inv(FlushAll(w, kept))
  {
    hide FlowInv, ParserOk;
    var v := FlushAll(w, kept);
    assert v == w.(held := kept, pc := Receiving) by {
      assert w.s2c + [] == w.s2c;
    }
    assert Up(v) == Up(w) && Down(v) == Down(w);
  }

  lemma FlushKeeps(w: World, kept: nat)
    requires Inv(w) && Enabled(w, ActFlush(kept))
    ensures Inv(FlushAll(w, kept))
  {
    if w.s.peer.Some? {
      SessionLive(w);
      FlushLive(w, kept);
    } else {
      FlushIdle(w, kept);
    }
  }
}
