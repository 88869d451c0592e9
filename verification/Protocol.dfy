// A client node and the server node working on one proxied pipe: every
// interleaving of the user, the client thread, the server loop and the network.
//
// A node's sessions follow each other: a process opens the proxy file, uses it
// and closes it, and after that the same or another node may open it again.

module Protocol {
  import opened Bytes
  import opened Streams
  import opened PipeRecords
  import opened Messages
  import opened Files

  /** Where the user thread of the current client stands. */
  datatype Phase =
    | Idle                 // no session
    | Opening              // in proxyfs_client_open_proxy
    | Ready
    | AckPending(n: nat)   // read n bytes, acknowledgement not queued yet
    | Waiting(call: Msg)   // in proxyfs_client_do_syscall

  /** The server loop receives, then serves its files, then sends what it has buffered. */
  datatype ServerPc = Receiving | Flushing

  /**
   * c2s, s2c   messages queued by one end and not yet handled by the other; the
   *            last held messages of s2c still wait for proxyfs_task_send_peers
   * fault      the code met a message or an amount it does not account for
   * records    payload of every record that entered a client's write buffer
   * fromPipe   every byte the server read from the real pipe
   * delivered  every byte a user read
   * sessions   successful opens
   */
  datatype World = World(s: Real, c: Proxy, phase: Phase, peer: nat, c2s: seq<Msg>, s2c: seq<Msg>,
                         held: nat, pc: ServerPc, fault: bool,
                         records: seq<seq<byte>>, fromPipe: seq<byte>, delivered: seq<byte>, sessions: nat)

  const INIT := World(NEW_REAL, FRESH, Idle, 0, [], [], 0, Receiving, false, [], [], [], 0)

  datatype Action =
    | ActOpen(peer: nat)
    | ActWrite(buf: seq<byte>)
    | ActRead(count: nat)
    | ActAck
    | ActCall(call: Msg)
    | ActClientSend(n: nat)
    | ActClientReceive
    | ActServerReceive(ioctlResult: seq<byte>)
    | ActServe(turns: seq<Turn>, input: Input)
    | ActFlush(kept: nat)

  predicate Connected(w: World) {
    w.phase.Ready? || w.phase.AckPending? || w.phase.Waiting?
  }

  predicate Enabled(w: World, a: Action) {
    match a
    case ActOpen(_) => w.phase.Idle?
    case ActWrite(_) => w.phase.Ready?
    case ActRead(_) => w.phase.Ready? && w.c.readRequested
    case ActAck => w.phase.AckPending?
    case ActCall(m) =>
      && w.phase.Ready? && IsCall(m)
      && (IsBarrier(m) ==> w.c.wbuf == [])
      && (m.ReadRequest? ==> !w.c.readRequested)
      && (m.Ioctl? ==> |m.arg| <= MAX_DATA)
    case ActClientSend(n) =>
      Connected(w) && 0 < n <= MAX_DATA && w.c.unconf + n <= |w.c.wbuf|
    case ActClientReceive => |w.s2c| > w.held
    case ActServerReceive(res) => w.pc.Receiving? && w.c2s != [] && |res| <= MAX_DATA
    case ActServe(ts, input) => w.pc.Receiving? && ServeOk(w.s, ts, input)
    case ActFlush(kept) => w.pc.Flushing? && kept <= w.held + |Flush(w.s).replies|
  }

  predicate ServeOk(s: Real, ts: seq<Turn>, input: Input) {
    if s.removed then ts == [] && input.NoInput?
    else TurnsOk(s.parser, ts) && InputOk(Reap(WriteHalf(s, ts).file), input)
  }

  // ----- the steps --------------------------------------------------------------

  function OpenStep(w: World, peer: nat): (v: World) {
    w.(phase := Opening, c := FRESH, peer := peer, c2s := w.c2s + [Open])
  }

  function WriteStep(w: World, buf: seq<byte>): (v: World)
  {
    match Accept(Room(w.c.wbuf), buf)
    case Refused(_) => w
    case Payload(bytes) => w.(c := WriteUser(w.c, buf), records := w.records + [bytes])
  }

  function ReadStep(w: World, count: nat): (v: World) {
    var n := Min(count, |w.c.rbuf|);
    w.(c := w.c.(rbuf := w.c.rbuf[n..]), delivered := w.delivered + w.c.rbuf[..n], phase := AckPending(n))
  }

  function AckStep(w: World): (v: World)
    requires w.phase.AckPending?
  {
    w.(c2s := w.c2s + [WriteResp(w.phase.n)], phase := Ready)
  }

  function CallStep(w: World, m: Msg): (v: World) {
    w.(c2s := w.c2s + [m], phase := Waiting(m))
  }

  function ClientSend(w: World, n: nat): (v: World)
    requires w.c.unconf + n <= |w.c.wbuf|
  {
    w.(c2s := w.c2s + [Write(w.c.wbuf[w.c.unconf..w.c.unconf + n])],
       c := w.c.(unconf := w.c.unconf + n))
  }

  /** proxyfs_task_handle_msg and proxyfs_client_handle_msg. */
  function ClientReceive(w: World): (v: World)
    requires w.s2c != []
  {
    var m := w.s2c[0];
    var w := w.(s2c := w.s2c[1..]);
    match m
    case Write(data) =>
      if Connected(w) then w.(c := WriteFromPeer(w.c, data), fault := w.fault || |data| > Room(w.c.rbuf))
      else w.(fault := true)
    case WriteResp(n) =>
      if Connected(w) && n <= w.c.unconf <= |w.c.wbuf| then
        w.(c := w.c.(wbuf := w.c.wbuf[n..], unconf := w.c.unconf - n))
      else w.(fault := true)
    case OpenOk => if w.phase.Opening? then w.(phase := Ready) else w.(fault := true)
    case OpenFailed => if w.phase.Opening? then w.(phase := Idle) else w.(fault := true)
    case _ =>
      if !w.phase.Waiting? || !Answers(m, w.phase.call) then w.(fault := true)
      else if m.CloseResp? then w.(phase := Idle, c := FRESH)
      else if m.ReadRequestResp? then w.(phase := Ready, c := w.c.(readRequested := true))
      else w.(phase := Ready)
  }

  function ServerReceive(w: World, ioctlResult: seq<byte>): (v: World)
    requires w.c2s != []
  {
    var m := w.c2s[0];
    var h := HandleReal(w.s, w.peer, m, ioctlResult);
    w.(c2s := w.c2s[1..], s := h.file, s2c := w.s2c + h.replies, held := w.held + |h.replies|, fault := w.fault || h.fault,
       sessions := if h.replies == [OpenOk] then w.sessions + 1 else w.sessions)
  }

  /** One pass over the file in proxyfs_server_read_and_write_real_files. */
  function Serve(w: World, ts: seq<Turn>, input: Input): (v: World)
    requires ServeOk(w.s, ts, input)
  {
    var w := w.(pc := Flushing);
    if w.s.removed then w else ServeRead(ServeWrite(w, ts), input)
  }

  function ServeWrite(w: World, ts: seq<Turn>): (v: World)
    requires TurnsOk(w.s.parser, ts)
  {
    var h := WriteHalf(w.s, ts);
    w.(s := Reap(h.file), s2c := w.s2c + h.replies, held := w.held + |h.replies|, fault := w.fault || h.fault)
  }

  function ServeRead(w: World, input: Input): (v: World)
    requires InputOk(w.s, input)
  {
    var h := ReadHalf(w.s, input);
    w.(s := h.file, s2c := w.s2c + h.replies, held := w.held + |h.replies|,
       fromPipe := if input.Bytes? then w.fromPipe + input.data else w.fromPipe)
  }

  /** proxyfs_task_send_buffers, then proxyfs_task_send_peers, which may leave some messages. */
  function FlushAll(w: World, kept: nat): (v: World)
  {
    var h := Flush(w.s);
    w.(pc := Receiving, held := kept, s := h.file, s2c := w.s2c + h.replies, fault := w.fault || h.fault)
  }

  function Step(w: World, a: Action): (v: World)
    requires Enabled(w, a)
  {
    match a
    case ActOpen(peer) => OpenStep(w, peer)
    case ActWrite(buf) => WriteStep(w, buf)
    case ActRead(count) => ReadStep(w, count)
    case ActAck => AckStep(w)
    case ActCall(m) => CallStep(w, m)
    case ActClientSend(n) => ClientSend(w, n)
    case ActClientReceive => ClientReceive(w)
    case ActServerReceive(res) => ServerReceive(w, res)
    case ActServe(ts, input) => Serve(w, ts, input)
    case ActFlush(kept) => FlushAll(w, kept)
  }

  // ----- runs -------------------------------------------------------------------

  predicate Legal(w: World, run: seq<Action>)
    decreases run
  {
    run == [] || (Enabled(w, run[0]) && Legal(Step(w, run[0]), run[1..]))
  }

  function Exec(w: World, run: seq<Action>): (v: World)
    requires Legal(w, run)
    decreases run
  {
    if run == [] then w else Exec(Step(w, run[0]), run[1..])
  }
}
