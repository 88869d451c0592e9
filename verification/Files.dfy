// The two ends of a proxied pipe as values, and what each operation of the
// source does to them. The classes in RealFile.dfy and ProxyFile.dfy are the
// imperative form; their methods are proved against the functions given here.

module Files {
  import opened Bytes
  import opened Streams
  import opened PipeRecords
  import opened Messages

  /** MSG_MAX_SIZE - MSG_HDR_SIZE (src/proxyfs/proxyfs_msg.h:76-80). */
  const MAX_DATA: nat := 4064

  datatype Option<+T> = None | Some(value: T)

  /** The proxy file on the client node. */
  datatype Proxy = Proxy(wbuf: seq<byte>, unconf: nat, rbuf: seq<byte>, eof: bool, readRequested: bool)

  const FRESH := Proxy([], 0, [], false, false)

  /** The real file on the server node; a removed file is no longer in the server's list. */
  datatype Real = Real(wbuf: seq<byte>, unconf: nat, parser: Parser, peer: Option<nat>,
                       readRequested: bool, eof: bool, closed: bool, removed: bool)

  const NEW_PARSER := Parser([], 0, false, [], [], [])
  const NEW_REAL := Real([], 0, NEW_PARSER, None, false, false, false, false)

  /** circ_buf_free_space of a buffer with the given contents. */
  function Room(buf: seq<byte>): (n: nat) {
    if |buf| <= BUF_SIZE then BUF_SIZE - |buf| else 0
  }

  /** circ_buf_write on a read buffer: what does not fit is silently dropped. */
  function Fill(rbuf: seq<byte>, data: seq<byte>): (r: seq<byte>)
    ensures |data| <= Room(rbuf) ==> r == rbuf + data
    ensures |rbuf| <= BUF_SIZE ==> |r| <= BUF_SIZE
  {
    rbuf + data[..Min(|data|, Room(rbuf))]
  }

  /** The data messages that proxyfs_task_send_buffers makes of the unsent bytes. */
  function Chunks(unsent: seq<byte>): (ms: seq<Msg>) {
    if unsent == [] then []
    else if |unsent| <= MAX_DATA then [Write(unsent)]
    else [Write(unsent[..MAX_DATA])] + Chunks(unsent[MAX_DATA..])
  }

  /** Result of handling one message: new file, replies, and whether the code lost track. */
  datatype Handled<F> = Handled(file: F, replies: seq<Msg>, fault: bool)

  /** proxyfs_task_handle_msg and proxyfs_server_handle_msg for a message from peer. */
  function HandleReal(f: Real, peer: nat, m: Msg, ioctlResult: seq<byte>): (h: Handled<Real>)
  {
    match m
    case Write(data) =>
      if f.removed then Handled(f, [], true)
      else Handled(f.(parser := f.parser.(rbuf := Fill(f.parser.rbuf, data))), [],
                   |data| > Room(f.parser.rbuf))
    case WriteResp(n) =>
      if f.removed then Handled(f, [], true)
      else if n == 0 then Handled(f, [], false)
      else if n <= f.unconf <= |f.wbuf| then Handled(f.(wbuf := f.wbuf[n..], unconf := f.unconf - n), [], false)
      else Handled(f, [], true)
    case Open =>
      if f.removed then Handled(f, [OpenFailed], false)
      else Handled(f.(peer := Some(peer)), [OpenOk], false)
    case Close(exiting) =>
      if f.removed then Handled(f, [CloseResp], false)
      else if f.peer == Some(peer) then
        Handled(f.(peer := None, unconf := 0, closed := f.closed || !exiting), [CloseResp], false)
      else Handled(f.(closed := f.closed || !exiting), [], true)
    case Fsync =>
      if f.removed || f.peer == Some(peer) then Handled(f, [FsyncResp], false)
      else Handled(f, [], true)
    case Ioctl(_) =>
      if f.removed then Handled(f, [], true)
      else Handled(f, [IoctlResp(ioctlResult)], false)
    case ReadRequest =>
      if f.removed then Handled(f, [ReadRequestResp], false)
      else Handled(f.(readRequested := true), [ReadRequestResp], false)
    case _ => Handled(f, [], true)
  }

  /**
   * What any peer's message does to any file on the server's list, connected or not: only
   * the connected peer is answered by a close or fsync, while the mark that the file is
   * closed for good is set for any.
   */
  lemma AnyPeer(f: Real, peer: nat, m: Msg, res: seq<byte>)
    requires !f.removed
    ensures var h := HandleReal(f, peer, m, res);
            && !h.file.removed && h.file.eof == f.eof
            && (h.file.closed <==> f.closed || m == Close(false))
            && (h.file.readRequested <==> f.readRequested || m.ReadRequest?)
            && h.file.peer == (if m.Open? then Some(peer) else if m.Close? && f.peer == Some(peer) then None else f.peer)
            && (!m.WriteResp? ==> h.file.wbuf == f.wbuf) && (!m.Write? ==> h.file.parser == f.parser)
            && h.replies == match m
                            case Open => [OpenOk]
                            case Ioctl(_) => [IoctlResp(res)]
                            case ReadRequest => [ReadRequestResp]
                            case Close(_) => if f.peer == Some(peer) then [CloseResp] else []
                            case Fsync => if f.peer == Some(peer) then [FsyncResp] else []
                            case _ => []
  {
    hide Fill;
  }

  /** The write half of a server pass: records to the real pipe, then one acknowledgement. */
  function WriteHalf(f: Real, ts: seq<Turn>): (h: Handled<Real>)
    requires TurnsOk(f.parser, ts)
  {
    var p := DoAll(f.parser, ts);
    var n := |f.parser.rbuf| - |p.rbuf|;
    Handled(f.(parser := p),
            if n > 0 && f.peer.Some? then [WriteResp(n)] else [],
            n > 0 && f.peer.None?)
  }

  /** What the real pipe offers to the read half of a pass. */
  datatype Input = NoInput | Bytes(data: seq<byte>) | EndOfFile

  predicate InputOk(f: Real, input: Input) {
    input.NoInput? || (
      && !f.removed && f.peer.Some? && !f.eof && f.readRequested && Room(f.wbuf) > 0
      && (input.Bytes? ==> 0 < |input.data| <= Room(f.wbuf)))
  }

  function ReadHalf(f: Real, input: Input): (h: Handled<Real>)
    requires InputOk(f, input)
  {
    match input
    case NoInput => Handled(f, [], false)
    case Bytes(data) => Handled(f.(wbuf := f.wbuf + data), [], false)
    case EndOfFile => Handled(f.(eof := true), [Write([])], false)
  }

  /** A file that was closed for good leaves the list once its read buffer is empty. */
  function Reap(f: Real): (g: Real) {
    if f.closed && f.parser.rbuf == [] then f.(removed := true) else f
  }

  /** proxyfs_task_send_buffers for one real file. */
  function Flush(f: Real): (h: Handled<Real>)
  {
    if f.removed || f.peer.None? then Handled(f, [], false)
    else if f.unconf > |f.wbuf| then Handled(f, [], true)
    else Handled(f.(unconf := |f.wbuf|), Chunks(f.wbuf[f.unconf..]), false)
  }

  /** proxyfs_pipe_proxy_file_write_user: append one record or nothing. */
  function WriteUser(c: Proxy, buf: seq<byte>): (d: Proxy)
  {
    match Accept(Room(c.wbuf), buf)
    case Refused(_) => c
    case Payload(bytes) => c.(wbuf := c.wbuf + Record(bytes))
  }

  /** Data from the server: an empty message marks the end of the file. */
  function WriteFromPeer(c: Proxy, data: seq<byte>): (d: Proxy)
  {
    if data == [] then c.(eof := true) else c.(rbuf := Fill(c.rbuf, data))
  }
}
