// After a reopen the end-of-file mark can overtake data.
//
// A user that exits may leave bytes unread. When the next open and the end of the
// pipe reach the server in one turn of its loop, the mark is queued before
// proxyfs_task_send_buffers queues those bytes again.

module EarlyEof {
  import opened Bytes
  import opened PipeRecords
  import opened Messages
  import opened Files
  import opened Protocol
  import opened Invariant
  import opened ClientSteps
  import opened ServerPasses
  import opened Runs
  import opened Streams

  lemma {:induction false} Then(w: World, run: seq<Action>, a: Action)
    requires Legal(w, run) && Enabled(Exec(w, run), a)
    ensures Legal(w, run + [a]) && Exec(w, run + [a]) == Step(Exec(w, run), a)
    decreases run
  {
    hide Step, Enabled;
    if run == [] {
      assert [] + [a] == [a] && [a][1..] == [];
    } else {
      assert (run + [a])[1..] == run[1..] + [a];
      Then(Step(w, run[0]), run[1..], a);
    }
  }

  // ----- every state between sessions that leaves bytes behind ---------------------

  /** Between sessions, with the pipe at its end and bytes that nobody has read. */
  ghost predicate Leftover(w: World) {
    && w.phase.Idle? && w.pc.Receiving? && !w.s.removed
    && w.s.readRequested && !w.s.eof && w.s.wbuf != [] && Room(w.s.wbuf) > 0
  }

  /** The second open of such a state, up to the moment the client sees the mark. */
  function Reopen(peer: nat): (run: seq<Action>) {
    [ActOpen(peer), ActServerReceive([]), ActServe([], EndOfFile), ActFlush(0), ActClientReceive, ActClientReceive]
  }

  lemma ReopenServed(w: World, peer: nat) returns (v: World)
    requires Inv(w) && Leftover(w)
    ensures Legal(w, Reopen(peer)[..4]) && v == Exec(w, Reopen(peer)[..4])
    ensures v.s2c == [OpenOk, Write([])] + Chunks(w.s.wbuf) && v.held == 0 && v.phase.Opening? && v.c == FRESH
    ensures v.fromPipe == w.fromPipe && v.delivered == w.delivered
  {
    hide FlowInv, ParserOk, EofOk, Chunks, Legal, Exec;
    FlowCredit(Down(w));
    FlowCredit(Up(w));
    var a := Reopen(peer);
    var w1 := w.(phase := Opening, peer := peer, c2s := [Open]);
    assert Step(w, a[0]) == w1;
    var w2 := w1.(c2s := [], s := w.s.(peer := Some(peer)), s2c := [OpenOk], held := w.held + 1, sessions := w.sessions + 1);
    assert Step(w1, a[1]) == w2;
    var w3 := EofServed(w2);
    v := FlushAll(w3, 0);
    assert w.s.wbuf[0..] == w.s.wbuf;
    Four(w, w1, w2, w3, a);
  }

  lemma EofServed(w: World) returns (v: World)
    requires w.pc.Receiving? && InputOk(w.s, EndOfFile) && !w.s.closed && w.s2c == [OpenOk]
    ensures Enabled(w, ActServe([], EndOfFile)) && v == Step(w, ActServe([], EndOfFile))
    ensures v == w.(pc := Flushing, s := w.s.(eof := true), s2c := [OpenOk, Write([])], held := w.held + 1)
  {
    v := Step(w, ActServe([], EndOfFile));
    assert [OpenOk] + [] + [Write([])] == [OpenOk, Write([])];
  }

  lemma Four(w: World, w1: World, w2: World, w3: World, a: seq<Action>)
    requires |a| >= 4
    requires Enabled(w, a[0]) && Step(w, a[0]) == w1 && Enabled(w1, a[1]) && Step(w1, a[1]) == w2
    requires Enabled(w2, a[2]) && Step(w2, a[2]) == w3 && Enabled(w3, a[3])
    ensures Legal(w, a[..4]) && Exec(w, a[..4]) == Step(w3, a[3])
  {
    hide Step, Enabled;
    Then(w, [], a[0]);
    Then(w, [] + [a[0]], a[1]);
    Then(w, [] + [a[0]] + [a[1]], a[2]);
    Then(w, [] + [a[0]] + [a[1]] + [a[2]], a[3]);
    assert a[..4] == [] + [a[0]] + [a[1]] + [a[2]] + [a[3]];
  }

  /** In every such state the next user can be told the file ended before its bytes arrive. */
  lemma ReopenLosesOrder(w: World, peer: nat)
    requires Inv(w) && Leftover(w)
    ensures Legal(w, Reopen(peer))
    ensures var v := Exec(w, Reopen(peer));
            v.c.eof && v.c.rbuf == [] && v.delivered == w.delivered && v.fromPipe == v.delivered + w.s.wbuf
  {
    hide Inv, Leftover, Step, Enabled, Legal, Exec, Chunks;
    var a := Reopen(peer);
    var v := ReopenServed(w, peer);
    MarkSeen(v, Chunks(w.s.wbuf));
    Then(w, a[..4], a[4]);
    Then(w, a[..4] + [a[4]], a[5]);
    assert a == a[..4] + [a[4]] + [a[5]];
    Kept(w);
  }

  lemma MarkSeen(v: World, rest: seq<Msg>)
    requires v.s2c == [OpenOk, Write([])] + rest && v.held == 0 && v.phase.Opening? && v.c == FRESH
    ensures Enabled(v, ActClientReceive)
    ensures var v1 := Step(v, ActClientReceive);
            && Enabled(v1, ActClientReceive)
            && Step(v1, ActClientReceive) == v.(s2c := rest, phase := Ready, c := FRESH.(eof := true))
  {
    assert v.s2c[1..] == [Write([])] + rest;
    assert v.s2c[1..][1..] == rest;
  }

  lemma Kept(w: World)
    requires Inv(w) && Leftover(w)
    ensures w.fromPipe == w.delivered + w.s.wbuf
  {
    hide ParserOk, EofOk, ClosedOk;
    assert w.s.wbuf[w.s.unconf..] == w.s.wbuf;
    assert [] + ([] + w.s.wbuf) == w.s.wbuf;
  }

  // ----- such states are reachable ---------------------------------------------------

  const A: seq<byte> := [65]
  const OPENED := NEW_REAL.(peer := Some(1))
  const SENDING := OPENED.(wbuf := A, readRequested := true)
  const LEFT := SENDING.(peer := None)

  const W_OPENED := World(OPENED, FRESH, Ready, 1, [], [], 0, Receiving, false, [], [], [], 1)
  const W_SENT := World(SENDING.(unconf := 1), FRESH.(readRequested := true), Ready, 1, [],
                        [Write(A)], 0, Receiving, false, [], A, [], 1)
  const W_LEFT := World(LEFT, FRESH, Idle, 1, [], [], 0, Receiving, false, [], A, [], 1)

  /** A user opens the file, is sent one byte and exits without reading it. */
  const USER_LEAVES: seq<Action> := [
    ActOpen(1), ActServerReceive([]), ActServe([], NoInput), ActFlush(0), ActClientReceive,
    ActCall(ReadRequest), ActServerReceive([]), ActServe([], Bytes(A)), ActFlush(0), ActClientReceive,
    ActCall(Close(true)), ActServerReceive([]), ActServe([], NoInput), ActFlush(0), ActClientReceive, ActClientReceive]

  lemma Opens()
    ensures Legal(INIT, USER_LEAVES[..5]) && Exec(INIT, USER_LEAVES[..5]) == W_OPENED
  {
    hide Legal, Exec;
    var a := USER_LEAVES;
    var w1 := INIT.(phase := Opening, peer := 1, c2s := [Open]);
    assert Step(INIT, a[0]) == w1;
    var w2 := w1.(s := OPENED, c2s := [], s2c := [OpenOk], held := 1, sessions := 1);
    assert Step(w1, a[1]) == w2;
    assert Step(w2, a[2]) == w2.(pc := Flushing);
    assert Step(w2.(pc := Flushing), a[3]) == w2.(held := 0);
    Four(INIT, w1, w2, w2.(pc := Flushing), a);
    Then(INIT, a[..4], a[4]);
    assert a[..5] == a[..4] + [a[4]];
  }

  const W_READ := World(SENDING, FRESH, Waiting(ReadRequest), 1, [], [ReadRequestResp], 1, Flushing, false, [], A, [], 1)

  lemma ByteRead()
    ensures Enabled(W_ASKED, ActServe([], Bytes(A))) && Step(W_ASKED, ActServe([], Bytes(A))) == W_READ
  {
    assert [] + A == A;
  }

  lemma ByteFlushed()
    ensures Enabled(W_READ, ActFlush(0)) && Step(W_READ, ActFlush(0)) == W_FLUSHED
  {
    assert A[0..] == A;
    assert Chunks(A) == [Write(A)];
  }

  const W_ASKED := W_READ.(pc := Receiving, s := OPENED.(readRequested := true), fromPipe := [])
  const W_CALL := W_OPENED.(c2s := [ReadRequest], phase := Waiting(ReadRequest))
  const W_FLUSHED := W_READ.(pc := Receiving, s := SENDING.(unconf := 1), held := 0, s2c := [ReadRequestResp, Write(A)])

  lemma Asks()
    ensures Enabled(W_OPENED, ActCall(ReadRequest)) && Step(W_OPENED, ActCall(ReadRequest)) == W_CALL
    ensures Enabled(W_CALL, ActServerReceive([])) && Step(W_CALL, ActServerReceive([])) == W_ASKED
  {
  }

  lemma AnswerReceived()
    ensures Enabled(W_FLUSHED, ActClientReceive) && Step(W_FLUSHED, ActClientReceive) == W_SENT
  {
    assert W_FLUSHED.s2c[1..] == [Write(A)];
  }

  lemma Sends()
    ensures Legal(W_OPENED, USER_LEAVES[5..10]) && Exec(W_OPENED, USER_LEAVES[5..10]) == W_SENT
  {
    hide Legal, Exec, Step, Enabled;
    var a := USER_LEAVES[5..10];
    Asks();
    ByteRead();
    ByteFlushed();
    Four(W_OPENED, W_CALL, W_ASKED, W_READ, a);
    AnswerReceived();
    Then(W_OPENED, a[..4], a[4]);
    assert a == a[..4] + [a[4]];
  }

  const W_CLOSED := World(LEFT, FRESH.(readRequested := true), Waiting(Close(true)), 1, [], [Write(A), CloseResp], 0,
                          Receiving, false, [], A, [], 1)

  lemma CloseReceived()
    ensures Enabled(W_CLOSED, ActClientReceive)
    ensures var w := Step(W_CLOSED, ActClientReceive);
            Enabled(w, ActClientReceive) && Step(w, ActClientReceive) == W_LEFT
  {
    assert W_CLOSED.s2c[1..] == [CloseResp];
    assert [CloseResp][1..] == [];
  }

  lemma Leaves()
    ensures Legal(W_SENT, USER_LEAVES[10..]) && Exec(W_SENT, USER_LEAVES[10..]) == W_LEFT
  {
    hide Legal, Exec;
    var a := USER_LEAVES[10..];
    CloseServed(a);
    CloseReceived();
    Then(W_SENT, a[..4], a[4]);
    Then(W_SENT, a[..4] + [a[4]], a[5]);
    assert a == a[..4] + [a[4]] + [a[5]];
  }

  lemma CloseServed(a: seq<Action>)
    requires a == USER_LEAVES[10..]
    ensures Legal(W_SENT, a[..4]) && Exec(W_SENT, a[..4]) == W_CLOSED
  {
    hide Legal, Exec;
    var w1 := W_SENT.(c2s := [Close(true)], phase := Waiting(Close(true)));
    assert Step(W_SENT, a[0]) == w1;
    var w2 := W_CLOSED.(held := 1);
    assert Step(w1, a[1]) == w2;
    assert Step(w2, a[2]) == w2.(pc := Flushing);
    assert Step(w2.(pc := Flushing), a[3]) == W_CLOSED;
    Four(W_SENT, w1, w2, w2.(pc := Flushing), a);
  }

  /** The order of data and end of file is lost in a run of the protocol. */
  lemma EofOvertakesData()
    ensures var run := USER_LEAVES + Reopen(2);
            && Legal(INIT, run)
            && var w := Exec(INIT, run); w.c.eof && w.c.rbuf == [] && w.delivered == [] && w.fromPipe == A
  {
    hide Step, Enabled, Legal, Exec, Inv;
    var a := USER_LEAVES;
    Opens();
    Sends();
    Joined(INIT, a[..5], a[5..10]);
    Leaves();
    Joined(INIT, a[..5] + a[5..10], a[10..]);
    assert a == a[..5] + a[5..10] + a[10..];
    EveryRun(a);
    ReopenLosesOrder(W_LEFT, 2);
    Joined(INIT, a, Reopen(2));
  }

  // ----- sessions that are never told ---------------------------------------------------

  const W_MET := W_ASKED.(pc := Flushing, s := OPENED.(readRequested := true, eof := true),
                          s2c := [ReadRequestResp, Write([])], held := 2)
  const W_TOLD := W_MET.(pc := Receiving, held := 0)
  const W_KNOWS := W_TOLD.(s2c := [], phase := Ready, c := FRESH.(readRequested := true, eof := true))
  const W_GONE := W_KNOWS.(s := W_MET.s.(peer := None), phase := Idle, c := FRESH)

  /** A user reads to the end of the pipe and leaves. */
  const USER_ENDS: seq<Action> := USER_LEAVES[..5] + [
    ActCall(ReadRequest), ActServerReceive([]), ActServe([], EndOfFile), ActFlush(0), ActClientReceive, ActClientReceive] + [
    ActCall(Close(true)), ActServerReceive([]), ActServe([], NoInput), ActFlush(0), ActClientReceive]

  lemma EndMet()
    ensures Enabled(W_ASKED, ActServe([], EndOfFile)) && Step(W_ASKED, ActServe([], EndOfFile)) == W_MET
    ensures Enabled(W_MET, ActFlush(0)) && Step(W_MET, ActFlush(0)) == W_TOLD
  {
    assert [ReadRequestResp] + [] + [Write([])] == [ReadRequestResp, Write([])];
    assert Chunks([]) == [];
  }

  lemma EndTold()
    ensures Enabled(W_TOLD, ActClientReceive)
    ensures var w := Step(W_TOLD, ActClientReceive); Enabled(w, ActClientReceive) && Step(w, ActClientReceive) == W_KNOWS
  {
    assert W_TOLD.s2c[1..] == [Write([])];
    assert [Write([])][1..] == [];
  }

  lemma Reads(a: seq<Action>)
    requires a == [ActCall(ReadRequest), ActServerReceive([]), ActServe([], EndOfFile), ActFlush(0), ActClientReceive, ActClientReceive]
    ensures Legal(W_OPENED, a) && Exec(W_OPENED, a) == W_KNOWS
  {
    hide Legal, Exec, Step, Enabled;
    Asks();
    EndMet();
    Four(W_OPENED, W_CALL, W_ASKED, W_MET, a);
    EndTold();
    Then(W_OPENED, a[..4], a[4]);
    Then(W_OPENED, a[..4] + [a[4]], a[5]);
    assert a == a[..4] + [a[4]] + [a[5]];
  }

  lemma Ends(a: seq<Action>)
    requires a == [ActCall(Close(true)), ActServerReceive([]), ActServe([], NoInput), ActFlush(0), ActClientReceive]
    ensures Legal(W_KNOWS, a) && Exec(W_KNOWS, a) == W_GONE
  {
    hide Legal, Exec;
    var w1 := W_KNOWS.(c2s := [Close(true)], phase := Waiting(Close(true)));
    assert Step(W_KNOWS, a[0]) == w1;
    var w2 := w1.(c2s := [], s := W_GONE.s, s2c := [CloseResp], held := 1);
    assert Step(w1, a[1]) == w2;
    assert Step(w2, a[2]) == w2.(pc := Flushing);
    assert Step(w2.(pc := Flushing), a[3]) == w2.(held := 0);
    Four(W_KNOWS, w1, w2, w2.(pc := Flushing), a);
    assert [CloseResp][1..] == [];
    Then(W_KNOWS, a[..4], a[4]);
    assert a == a[..4] + [a[4]];
  }

  /** Such sessions occur: after this run no continuation ever tells a user that the pipe has ended. */
  lemma NeverToldAgain(after: seq<Action>)
    requires Legal(W_GONE, after)
    ensures Legal(INIT, USER_ENDS) && Exec(INIT, USER_ENDS) == W_GONE && W_GONE.s.eof
    ensures !Exec(W_GONE, after).c.eof && Write([]) !in Exec(W_GONE, after).s2c
  {
    hide Legal, Exec;
    var a, b := USER_ENDS[5..11], USER_ENDS[11..];
    Opens();
    Reads(a);
    Ends(b);
    Joined(INIT, USER_LEAVES[..5], a);
    Joined(INIT, USER_LEAVES[..5] + a, b);
    assert USER_ENDS == USER_LEAVES[..5] + a + b;
    NoSecondMark(USER_ENDS, after);
  }
}
