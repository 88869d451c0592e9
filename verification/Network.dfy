// The protocol over byte channels. Here the two queues of messages are what the source
// has: bytes queued at one end, bytes on a socket and a receive buffer at the other, with
// messages encoded, cut anywhere and put together again. Every run over bytes is a run
// of the protocol over messages.

module Network {
  import opened Bytes
  import opened PipeRecords
  import opened Messages
  import opened Files
  import opened Protocol
  import opened Invariant
  import opened ServerPasses
  import opened Runs
  import opened Framing
  import opened WireFormat
  import opened Transport

  /** One direction: received of the next message, on the wire, and not sent yet. */
  datatype Chan = Chan(buf: seq<byte>, wire: seq<byte>, tail: seq<byte>)

  /** The state of both nodes, without message queues, and the two channels. */
  datatype Net = Net(core: World, up: Chan, down: Chan)

  const NET_INIT := Net(INIT, Chan([], [], []), Chan([], [], []))

  datatype NetAction =
    | Local(a: Action)              // a step of one node that may queue messages but moves no bytes
    | Handle(up: bool, res: seq<byte>) // proxyfs_task_handle_msg and proxyfs_peer_clear_msg
    | FlushTo(left: nat)            // the end of the server loop; left bytes stay unsent
    | Send(k: nat)                  // proxyfs_peer_real_send of the client
    | Arrive(up: bool, k: nat)      // one kkc_sock_recv of proxyfs_peer_real_recv

  predicate IsLocal(a: Action) {
    !a.ActClientReceive? && !a.ActServerReceive? && !a.ActFlush?
  }

  function Bare(w: World): (v: World) {
    w.(c2s := [], s2c := [], held := 0)
  }

  function Queued(ch: Chan, ms: seq<Msg>, ident: nat): (d: Chan) {
    ch.(tail := ch.tail + EncodeAll(RawAll(ms, ident)))
  }

  function Put(ch: Chan, k: nat): (d: Chan)
    requires k <= |ch.tail|
  {
    Chan(ch.buf, ch.wire + ch.tail[..k], ch.tail[k..])
  }

  function Take(ch: Chan, k: nat): (d: Chan)
    requires k <= |ch.wire|
  {
    Chan(ch.buf + ch.wire[..k], ch.wire[k..], ch.tail)
  }

  /** real_recv asks for the rest of the header, and after it for the rest of the message. */
  predicate Wanted(buf: seq<byte>, k: nat) {
    if |buf| < HDR then |buf| + k <= HDR else |buf| + k <= SizeOf(buf)
  }

  predicate NetEnabled(n: Net, x: NetAction, ident: nat) {
    match x
    case Local(a) => IsLocal(a) && Enabled(n.core, a)
    case Handle(up, res) => if up then n.core.pc.Receiving? && WholeBuffer(n.up.buf) && |res| <= MAX_DATA else WholeBuffer(n.down.buf)
    case FlushTo(left) => n.core.pc.Flushing? && left <= |Queued(n.down, Flush(n.core.s).replies, ident).tail|
    case Send(k) => k <= |n.up.tail|
    case Arrive(up, k) => var ch := if up then n.up else n.down; 0 < k <= |ch.wire| && Wanted(ch.buf, k)
  }

  /** After a step of the nodes: what they queued goes to the channels. */
  function Spread(v: World, up: Chan, down: Chan, ident: nat): (n: Net) {
    Net(Bare(v), Queued(up, v.c2s, ident), Queued(down, v.s2c, ident))
  }

  function NetStep(n: Net, x: NetAction, ident: nat): (v: Net)
    requires NetEnabled(n, x, ident)
  {
    match x
    case Local(a) => Spread(Step(n.core, a), n.up, n.down, ident)
    case Handle(up, res) => if up then ServerHandles(n, res, ident) else ClientHandles(n, ident)
    case FlushTo(left) =>
      var d := Queued(n.down, Flush(n.core.s).replies, ident);
      n.(core := Bare(FlushAll(n.core, 0)), down := Put(d, |d.tail| - left))
    case Send(k) => n.(up := Put(n.up, k))
    case Arrive(up, k) => if up then n.(up := Take(n.up, k)) else n.(down := Take(n.down, k))
  }

  function ServerHandles(n: Net, res: seq<byte>, ident: nat): (v: Net)
    requires WholeBuffer(n.up.buf)
  {
    var m := FromRaw(Framing.Parse(n.up.buf));
    if m.None? then n.(core := n.core.(fault := true), up := n.up.(buf := []))
    else Spread(ServerReceive(n.core.(c2s := [m.value]), res), n.up.(buf := []), n.down, ident)
  }

  function ClientHandles(n: Net, ident: nat): (v: Net)
    requires WholeBuffer(n.down.buf)
  {
    var m := FromRaw(Framing.Parse(n.down.buf));
    if m.None? then n.(core := n.core.(fault := true), down := n.down.(buf := []))
    else Spread(ClientReceive(n.core.(s2c := [m.value])), n.up, n.down.(buf := []), ident)
  }

  predicate NetLegal(n: Net, run: seq<NetAction>, ident: nat)
    decreases run
  {
    run == [] || (NetEnabled(n, run[0], ident) && NetLegal(NetStep(n, run[0], ident), run[1..], ident))
  }

  function NetExec(n: Net, run: seq<NetAction>, ident: nat): (v: Net)
    requires NetLegal(n, run, ident)
    decreases run
  {
    if run == [] then n else NetExec(NetStep(n, run[0], ident), run[1..], ident)
  }

  // ----- the messages behind the bytes -------------------------------------------------

  /** The channel holds exactly these messages. */
  ghost predicate Carries(ch: Chan, ms: seq<Msg>, ident: nat) {
    Assembling(ch.buf, ch.wire, ch.tail, RawAll(ms, ident))
  }

  /** How many of the last messages are not completely among the bytes sent, with left bytes unsent. */
  ghost function Unfinished(ms: seq<Raw>, left: nat): (n: nat)
    ensures n <= |ms|
  {
    if ms == [] || left == 0 then 0
    else
      var e := |Framing.Encode(ms[|ms| - 1])|;
      1 + Unfinished(ms[..|ms| - 1], if left < e then 0 else left - e)
  }

  /** The bytes n stand for the state w of the protocol over messages. */
  ghost predicate StandsFor(n: Net, w: World, ident: nat) {
    && n.core == Bare(w)
    && Carries(n.up, w.c2s, ident) && Carries(n.down, w.s2c, ident)
    && w.held == Unfinished(RawAll(w.s2c, ident), |n.down.tail|)
  }

  lemma RawAppend(a: seq<Msg>, b: seq<Msg>, ident: nat)
    ensures RawAll(a + b, ident) == RawAll(a, ident) + RawAll(b, ident)
  {
  }

  lemma RawRest(ms: seq<Msg>, ident: nat)
    requires ms != []
    ensures RawAll(ms[1..], ident) == RawAll(ms, ident)[1..]
  {
  }

  lemma QueuedCarries(ch: Chan, ms: seq<Msg>, more: seq<Msg>, ident: nat)
    requires Carries(ch, ms, ident) && AllFit(more) && ident < 0x1_0000_0000
    ensures Carries(Queued(ch, more, ident), ms + more, ident)
  {
    hide Framing.EncodeAll, ToRaw, Sendable, Framing.Encode;
    var before, after := RawAll(ms, ident), RawAll(more, ident);
    RawAppend(ms, more, ident);
    EncodeAllAppend(before, after);
    Assoc(ch.wire, ch.tail, EncodeAll(after));
    Assoc(ch.buf, ch.wire + ch.tail, EncodeAll(after));
    forall m | m in after
      ensures Sendable(m)
    {
      var i :| 0 <= i < |more| && after[i] == m;
      assert more[i] in more;
      WireRoundTrip(more[i], ident);
    }
  }

  lemma PutCarries(ch: Chan, ms: seq<Msg>, k: nat, ident: nat)
    requires Carries(ch, ms, ident) && k <= |ch.tail|
    ensures Carries(Put(ch, k), ms, ident)
  {
    hide Framing.EncodeAll, RawAll, Sendable, Framing.Encode;
    assert ch.tail == ch.tail[..k] + ch.tail[k..];
    Assoc(ch.wire, ch.tail[..k], ch.tail[k..]);
  }

  lemma TakeCarries(ch: Chan, ms: seq<Msg>, k: nat, ident: nat)
    requires Carries(ch, ms, ident) && 0 < k <= |ch.wire| && Wanted(ch.buf, k)
    ensures Carries(Take(ch, k), ms, ident)
  {
    hide Framing.EncodeAll, RawAll, Sendable, Framing.Encode, SizeOf, Assembling;
    var pending := RawAll(ms, ident);
    WireIsPending(ch.buf, ch.wire, ch.tail, pending);
    BufIsPrefix(ch.buf, ch.wire, ch.tail, pending);
    FitsBuffer(pending[0]);
    ReceiveBytes(ch.buf, ch.wire, ch.tail, pending, k);
  }

  /** A whole buffer is the first of the messages, and clearing it leaves the others. */
  lemma FoundFirst(ch: Chan, ms: seq<Msg>, ident: nat)
    requires Carries(ch, ms, ident) && WholeBuffer(ch.buf) && AllFit(ms) && ident < 0x1_0000_0000
    ensures ms != [] && FromRaw(Framing.Parse(ch.buf)) == Some(ms[0])
    ensures Carries(ch.(buf := []), ms[1..], ident)
    ensures |ch.tail| <= |EncodeAll(RawAll(ms, ident)[1..])|
  {
    hide Framing.EncodeAll, ToRaw, FromRaw, Sendable, Framing.Encode, SizeOf, Framing.Parse;
    var pending := RawAll(ms, ident);
    WholeIsComplete(ch.buf, ch.wire, ch.tail, pending);
    NextMessage(ch.buf, ch.wire, ch.tail, pending);
    RawRest(ms, ident);
    WireRoundTrip(ms[0], ident);
    assert |[] + (ch.wire + ch.tail)| == |EncodeAll(pending[1..])|;
  }

  // ----- which messages are still held -------------------------------------------------

  lemma {:induction false} UnfinishedPush(ms: seq<Raw>, more: seq<Raw>, left: nat)
    ensures Unfinished(ms + more, left + |EncodeAll(more)|) == Unfinished(ms, left) + |more|
    decreases |more|
  {
    hide Framing.EncodeAll, Framing.Encode;
    if more == [] {
      NoBytesEncoded();
      assert ms + more == ms;
    } else {
      var m, init := more[|more| - 1], more[..|more| - 1];
      assert more == init + [m] && ms + more == (ms + init) + [m] && (ms + more)[..|ms + more| - 1] == ms + init;
      EncodeAllAppend(init, [m]);
      OneEncoded(m);
      UnfinishedPush(ms, init, left);
    }
  }

  lemma NoBytesEncoded()
    ensures EncodeAll([]) == []
  {
  }

  lemma OneEncoded(m: Raw)
    ensures EncodeAll([m]) == Framing.Encode(m) && |Framing.Encode(m)| >= HDR
  {
    assert [m][1..] == [];
  }

  lemma {:induction false} UnfinishedFewer(ms: seq<Raw>, left: nat, more: nat)
    requires left <= more
    ensures Unfinished(ms, left) <= Unfinished(ms, more)
    decreases |ms|
  {
    hide Framing.Encode;
    if ms != [] && left > 0 {
      var e := |Framing.Encode(ms[|ms| - 1])|;
      UnfinishedFewer(ms[..|ms| - 1], if left < e then 0 else left - e, if more < e then 0 else more - e);
    }
  }

  /** A message that has arrived completely is finished, and so its removal changes nothing. */
  lemma {:induction false} UnfinishedRest(ms: seq<Raw>, left: nat)
    requires ms != [] && left <= |EncodeAll(ms[1..])|
    ensures Unfinished(ms[1..], left) == Unfinished(ms, left) < |ms|
    decreases |ms|
  {
    hide Framing.EncodeAll, Framing.Encode;
    var k := |ms| - 1;
    if k == 0 {
      NoBytesEncoded();
      assert ms[1..] == [];
    } else if left > 0 {
      var m := ms[k];
      var e := |Framing.Encode(m)|;
      assert ms[1..] == ms[..k][1..] + [m] && ms[1..][..k - 1] == ms[..k][1..];
      EncodeAllAppend(ms[..k][1..], [m]);
      OneEncoded(m);
      UnfinishedRest(ms[..k], if left < e then 0 else left - e);
    }
  }

  // ----- steps of the nodes do not depend on what is queued -----------------------------

  /** v is v0 with the messages of w in front of those it queued. */
  ghost predicate Framed(w: World, v0: World, v: World) {
    && v == v0.(c2s := w.c2s + v0.c2s, s2c := w.s2c + v0.s2c, held := w.held + v0.held)
    && v0.held == |v0.s2c|
  }

  lemma LocalFrame(w: World, a: Action)
    requires IsLocal(a) && Enabled(Bare(w), a)
    ensures Enabled(w, a) && Framed(w, Step(Bare(w), a), Step(w, a))
  {
    hide TurnsOk, DoAll, Accept, Record, Reap;
    assert w.c2s + [] == w.c2s && w.s2c + [] == w.s2c;
    match a
    case ActServe(ts, input) => ServeFrame(w, ts, input);
    case _ =>
  }

  lemma ServeFrame(w: World, ts: seq<Turn>, input: Input)
    requires Enabled(Bare(w), ActServe(ts, input))
    ensures Enabled(w, ActServe(ts, input)) && Framed(w, Step(Bare(w), ActServe(ts, input)), Step(w, ActServe(ts, input)))
  {
    hide TurnsOk, DoAll;
    assert w.c2s + [] == w.c2s && w.s2c + [] == w.s2c;
    if !w.s.removed {
      var r1 := WriteHalf(w.s, ts).replies;
      var r2 := ReadHalf(Reap(WriteHalf(w.s, ts).file), input).replies;
      Assoc(w.s2c, r1, r2);
      assert [] + r1 == r1;
    }
  }

  lemma ServerFrame(w: World, res: seq<byte>)
    requires w.c2s != []
    ensures var v0, v := ServerReceive(Bare(w).(c2s := [w.c2s[0]]), res), ServerReceive(w, res);
            Framed(w.(c2s := w.c2s[1..]), v0, v)
  {
    assert [w.c2s[0]][1..] == [];
    assert w.c2s[1..] + [] == w.c2s[1..];
    var r := HandleReal(w.s, w.peer, w.c2s[0], res).replies;
    assert [] + r == r;
  }

  lemma ClientFrame(w: World)
    requires w.s2c != []
    ensures var v0, v := ClientReceive(Bare(w).(s2c := [w.s2c[0]])), ClientReceive(w);
            v == v0.(c2s := w.c2s, s2c := w.s2c[1..], held := w.held) && v0.c2s == [] && v0.s2c == []
  {
    hide ClientReceive;
    if w.s2c[0].Write? || w.s2c[0].WriteResp? {
      ClientFrameData(w);
    } else {
      ClientFrameControl(w);
    }
  }

  lemma ClientFrameData(w: World)
    requires w.s2c != [] && (w.s2c[0].Write? || w.s2c[0].WriteResp?)
    ensures var v0, v := ClientReceive(Bare(w).(s2c := [w.s2c[0]])), ClientReceive(w);
            v == v0.(c2s := w.c2s, s2c := w.s2c[1..], held := w.held) && v0.c2s == [] && v0.s2c == []
  {
    hide Fill, Answers, WriteFromPeer;
    assert [w.s2c[0]][1..] == [];
  }

  lemma ClientFrameControl(w: World)
    requires w.s2c != [] && !w.s2c[0].Write? && !w.s2c[0].WriteResp?
    ensures var v0, v := ClientReceive(Bare(w).(s2c := [w.s2c[0]])), ClientReceive(w);
            v == v0.(c2s := w.c2s, s2c := w.s2c[1..], held := w.held) && v0.c2s == [] && v0.s2c == []
  {
    hide Answers, Connected;
    var m := w.s2c[0];
    assert [m][1..] == [];
  }

  // ----- simulation -----------------------------------------------------------------------

  lemma SpreadStands(n: Net, w: World, v0: World, v: World, up: Chan, down: Chan, ident: nat)
    requires ident < 0x1_0000_0000 && Framed(w, v0, v) && AllFit(v0.c2s) && AllFit(v0.s2c)
    requires Carries(up, w.c2s, ident) && Carries(down, w.s2c, ident) && w.held == Unfinished(RawAll(w.s2c, ident), |down.tail|)
    ensures StandsFor(Spread(v0, up, down, ident), v, ident)
  {
    hide Carries, Framing.EncodeAll, Unfinished, RawAll, AllFit;
    QueuedCarries(up, w.c2s, v0.c2s, ident);
    QueuedCarries(down, w.s2c, v0.s2c, ident);
    RawAppend(w.s2c, v0.s2c, ident);
    UnfinishedPush(RawAll(w.s2c, ident), RawAll(v0.s2c, ident), |down.tail|);
  }

  lemma LocalStands(n: Net, w: World, a: Action, ident: nat)
    requires Inv(w) && Carried(w) && StandsFor(n, w, ident) && ident < 0x1_0000_0000 && NetEnabled(n, Local(a), ident)
    ensures Enabled(w, a) && StandsFor(NetStep(n, Local(a), ident), Step(w, a), ident)
  {
    hide Inv, Step, Enabled, Carries, Unfinished, Framed, Spread;
    LocalFrame(w, a);
    StepFits(w, a);
    FitsParts(w, Step(Bare(w), a), Step(w, a));
    SpreadStands(n, w, Step(Bare(w), a), Step(w, a), n.up, n.down, ident);
  }

  lemma FitsParts(w: World, v0: World, v: World)
    requires Framed(w, v0, v) && Carried(v)
    ensures AllFit(v0.c2s) && AllFit(v0.s2c)
  {
    hide Fits;
    forall m | m in v0.c2s
      ensures Fits(m)
    {
      assert m in v.c2s;
    }
    forall m | m in v0.s2c
      ensures Fits(m)
    {
      assert m in v.s2c;
    }
  }

  lemma ServerStands(n: Net, w: World, res: seq<byte>, ident: nat)
    requires Inv(w) && Carried(w) && StandsFor(n, w, ident) && ident < 0x1_0000_0000 && NetEnabled(n, Handle(true, res), ident)
    ensures Enabled(w, ActServerReceive(res)) && StandsFor(ServerHandles(n, res, ident), ServerReceive(w, res), ident)
  {
    hide Inv, Carries, Unfinished, Framed, Spread, ServerReceive, FromRaw, WholeBuffer, Framing.Parse, AllFit, RawAll, EncodeAll;
    FoundFirst(n.up, w.c2s, ident);
    ServerAnswers(n, w, res, ident);
  }

  lemma ServerAnswers(n: Net, w: World, res: seq<byte>, ident: nat)
    requires Carried(w) && ident < 0x1_0000_0000 && w.c2s != [] && w.pc.Receiving? && |res| <= MAX_DATA
    requires Carries(n.up.(buf := []), w.c2s[1..], ident) && Carries(n.down, w.s2c, ident)
    requires w.held == Unfinished(RawAll(w.s2c, ident), |n.down.tail|)
    ensures StandsFor(Spread(ServerReceive(Bare(w).(c2s := [w.c2s[0]]), res), n.up.(buf := []), n.down, ident), ServerReceive(w, res), ident)
  {
    hide Carries, Unfinished, Framed, Spread, ServerReceive, AllFit, RawAll, StandsFor, Carried, Flush;
    var v0, v := ServerReceive(Bare(w).(c2s := [w.c2s[0]]), res), ServerReceive(w, res);
    var rest := w.(c2s := w.c2s[1..]);
    ServerFrame(w, res);
    ReceiveFits(w, res);
    FitsParts(rest, v0, v);
    SpreadStands(n, rest, v0, v, n.up.(buf := []), n.down, ident);
  }

  lemma ClientStands(n: Net, w: World, ident: nat)
    requires Carried(w) && StandsFor(n, w, ident) && ident < 0x1_0000_0000 && WholeBuffer(n.down.buf)
    ensures Enabled(w, ActClientReceive) && StandsFor(ClientHandles(n, ident), ClientReceive(w), ident)
  {
    hide Carries, Unfinished, ClientReceive, FromRaw, WholeBuffer, Framing.Parse, RawAll, AllFit, EncodeAll;
    FoundFirst(n.down, w.s2c, ident);
    UnfinishedRest(RawAll(w.s2c, ident), |n.down.tail|);
    RawRest(w.s2c, ident);
    ClientFrame(w);
    NothingQueued(n.up, ident);
    NothingQueued(n.down.(buf := []), ident);
  }

  lemma NothingQueued(ch: Chan, ident: nat)
    ensures Queued(ch, [], ident) == ch
  {
    assert ch.tail + [] == ch.tail;
  }

  lemma FlushStands(n: Net, w: World, left: nat, ident: nat) returns (kept: nat)
    requires Carried(w) && StandsFor(n, w, ident) && ident < 0x1_0000_0000 && NetEnabled(n, FlushTo(left), ident)
    ensures Enabled(w, ActFlush(kept)) && StandsFor(NetStep(n, FlushTo(left), ident), FlushAll(w, kept), ident)
  {
    hide Carries, Unfinished, RawAll, Flush, AllFit, Framing.EncodeAll;
    var replies := Flush(w.s).replies;
    var d := Queued(n.down, replies, ident);
    FlushedFit(w);
    QueuedCarries(n.down, w.s2c, replies, ident);
    PutCarries(d, w.s2c + replies, |d.tail| - left, ident);
    RawAppend(w.s2c, replies, ident);
    UnfinishedPush(RawAll(w.s2c, ident), RawAll(replies, ident), |n.down.tail|);
    RawLength(replies, ident);
    kept := Unfinished(RawAll(w.s2c + replies, ident), left);
    UnfinishedFewer(RawAll(w.s2c + replies, ident), left, |d.tail|);
    assert [] + replies == replies;
  }

  lemma RawLength(ms: seq<Msg>, ident: nat)
    ensures |RawAll(ms, ident)| == |ms|
  {
  }

  lemma FlushedFit(w: World)
    ensures AllFit(Flush(w.s).replies)
  {
    hide Chunks;
    if w.s.unconf <= |w.s.wbuf| {
      ChunksData(w.s.wbuf[w.s.unconf..]);
    }
  }

  /** A step over bytes is a step of the protocol or, when only bytes move, none. */
  lemma NetStepSimulates(n: Net, w: World, x: NetAction, ident: nat) returns (run: seq<Action>)
    requires Inv(w) && Carried(w) && StandsFor(n, w, ident) && ident < 0x1_0000_0000 && NetEnabled(n, x, ident)
    ensures |run| <= 1 && Legal(w, run) && StandsFor(NetStep(n, x, ident), Exec(w, run), ident)
  {
    hide Inv, Carried, Carries, Unfinished, Step, Enabled, ServerHandles, ClientHandles, WholeBuffer, Spread;
    match x
    case Local(a) =>
      LocalStands(n, w, a, ident);
      OneStep(w, a);
      run := [a];
    case Handle(up, res) =>
      run := HandleSimulates(n, w, up, res, ident);
    case FlushTo(left) =>
      run := FlushSimulates(n, w, left, ident);
    case Send(k) =>
      PutCarries(n.up, w.c2s, k, ident);
      run := [];
    case Arrive(up, k) =>
      if up {
        TakeCarries(n.up, w.c2s, k, ident);
      } else {
        TakeCarries(n.down, w.s2c, k, ident);
      }
      run := [];
  }

  lemma HandleSimulates(n: Net, w: World, up: bool, res: seq<byte>, ident: nat) returns (run: seq<Action>)
    requires Inv(w) && Carried(w) && StandsFor(n, w, ident) && ident < 0x1_0000_0000 && NetEnabled(n, Handle(up, res), ident)
    ensures |run| <= 1 && Legal(w, run) && StandsFor(NetStep(n, Handle(up, res), ident), Exec(w, run), ident)
  {
    hide Inv, Carried, StandsFor, ServerHandles, ClientHandles, ServerReceive, ClientReceive;
    if up {
      ServerStands(n, w, res, ident);
      run := [ActServerReceive(res)];
    } else {
      ClientStands(n, w, ident);
      run := [ActClientReceive];
    }
    OneStep(w, run[0]);
  }

  lemma FlushSimulates(n: Net, w: World, left: nat, ident: nat) returns (run: seq<Action>)
    requires Carried(w) && StandsFor(n, w, ident) && ident < 0x1_0000_0000 && NetEnabled(n, FlushTo(left), ident)
    ensures |run| <= 1 && Legal(w, run) && StandsFor(NetStep(n, FlushTo(left), ident), Exec(w, run), ident)
  {
    hide Carried, StandsFor, FlushAll, NetStep, NetEnabled;
    var kept := FlushStands(n, w, left, ident);
    run := [ActFlush(kept)];
    OneStep(w, ActFlush(kept));
  }

  lemma OneStep(w: World, a: Action)
    requires Enabled(w, a)
    ensures Legal(w, [a]) && Exec(w, [a]) == Step(w, a)
  {
    hide Step, Enabled;
    assert [a][1..] == [];
  }

  lemma {:induction false} NetExecSimulates(n: Net, w: World, net: seq<NetAction>, ident: nat) returns (run: seq<Action>)
    requires Inv(w) && Carried(w) && StandsFor(n, w, ident) && ident < 0x1_0000_0000 && NetLegal(n, net, ident)
    ensures Legal(w, run) && StandsFor(NetExec(n, net, ident), Exec(w, run), ident)
    decreases net
  {
    hide Inv, Carried, StandsFor, NetStep, NetEnabled;
    run := [];
    if net != [] {
      var first := NetStepSimulates(n, w, net[0], ident);
      ExecKeeps(w, first);
      ExecFits(w, first);
      var rest := NetExecSimulates(NetStep(n, net[0], ident), Exec(w, first), net[1..], ident);
      Joined(w, first, rest);
      run := first + rest;
    }
  }

  /**
   * Whatever the nodes and the sockets do, whatever the pieces in which bytes are sent
   * and arrive: the state reached is that of a run of the protocol over messages, and
   * the bytes under way are exactly its messages. Hence all that holds in every run of
   * the protocol holds over bytes.
   */
  lemma EveryNetRun(net: seq<NetAction>, ident: nat) returns (run: seq<Action>)
    requires ident < 0x1_0000_0000 && NetLegal(NET_INIT, net, ident)
    ensures Legal(INIT, run)
    ensures var n, w := NetExec(NET_INIT, net, ident), Exec(INIT, run);
            n.core == Bare(w) && !n.core.fault && Carries(n.up, w.c2s, ident) && Carries(n.down, w.s2c, ident)
  {
    hide Inv, NetLegal, NetExec, Carries, Legal, Exec;
    InitInv();
    InitStands(ident);
    run := NetExecSimulates(NET_INIT, INIT, net, ident);
    CreditSafety(run);
  }

  /**
   * End to end over bytes: what the real pipe was given is a prefix of what users wrote,
   * record by record and atomic ones in one write, and what users read is a prefix of
   * what came out of the pipe.
   */
  lemma BytesEndToEnd(net: seq<NetAction>, ident: nat)
    requires ident < 0x1_0000_0000 && NetLegal(NET_INIT, net, ident)
    ensures var w := NetExec(NET_INIT, net, ident).core; var p := w.s.parser;
            && Emitted(p) <= Flat(w.records) && |p.outs| <= |w.records|
            && (forall i :: 0 <= i < |p.outs| ==> Flat(p.outs[i]) == w.records[i])
            && (forall i :: 0 <= i < |p.outs| && 0 < |w.records[i]| <= PIPE_BUF ==> p.outs[i] == [w.records[i]])
            && w.delivered <= w.fromPipe
  {
    hide NetLegal, NetExec, Carries, Legal, Exec, Emitted, Flat;
    var run := EveryNetRun(net, ident);
    PipeEndToEnd(run);
    ExactlyOnce(run);
  }

  lemma InitStands(ident: nat)
    ensures StandsFor(NET_INIT, INIT, ident)
  {
    assert [] + ([] + []) == EncodeAll(RawAll([], ident));
  }
}
