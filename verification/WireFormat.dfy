// How the messages of the protocol look as message number and data
// (src/proxyfs/proxyfs_msg.h and the places that build and read them).

module WireFormat {
  import opened Bytes
  import opened Messages
  import opened Files
  import opened Framing

  const MSG_OPEN: nat := 1
  const MSG_WRITE: nat := 3
  const MSG_IOCTL: nat := 4
  const MSG_CLOSE: nat := 5
  const MSG_FSYNC: nat := 6
  const MSG_READ_REQUEST: nat := 7
  const MSG_OPEN_RESP_OK: nat := 101
  const MSG_OPEN_RESP_FAILED: nat := 102
  const MSG_WRITE_RESP: nat := 301
  const MSG_IOCTL_RESP: nat := 401
  const MSG_CLOSE_RESP: nat := 501
  const MSG_FSYNC_RESP: nat := 601
  const MSG_READ_REQUEST_RESP: nat := 701

  const PROXYFS_FILE_PIPE: nat := 3
  const PF_EXITING: nat := 4

  function ToRaw(m: Msg, ident: nat): (r: Raw) {
    match m
    case Open => Raw(MSG_OPEN, ident, [])
    case Write(data) => Raw(MSG_WRITE, ident, data)
    case Ioctl(arg) => Raw(MSG_IOCTL, ident, arg)
    case Close(exiting) => Raw(MSG_CLOSE, ident, Le(if exiting then PF_EXITING else 0, 4))
    case Fsync => Raw(MSG_FSYNC, ident, [])
    case ReadRequest => Raw(MSG_READ_REQUEST, ident, [])
    case OpenOk => Raw(MSG_OPEN_RESP_OK, ident, Le(PROXYFS_FILE_PIPE, 4))
    case OpenFailed => Raw(MSG_OPEN_RESP_FAILED, ident, [])
    case WriteResp(count) => Raw(MSG_WRITE_RESP, ident, Le(count, 4))
    case IoctlResp(result) => Raw(MSG_IOCTL_RESP, ident, result)
    case CloseResp => Raw(MSG_CLOSE_RESP, ident, [])
    case FsyncResp => Raw(MSG_FSYNC_RESP, ident, [])
    case ReadRequestResp => Raw(MSG_READ_REQUEST_RESP, ident, [])
  }

  /** The dispatch on msg_num; None for a number neither side knows. */
  function FromRaw(r: Raw): (m: Option<Msg>) {
    if r.num == MSG_OPEN then Some(Open)
    else if r.num == MSG_WRITE then Some(Write(r.data))
    else if r.num == MSG_IOCTL then Some(Ioctl(r.data))
    else if r.num == MSG_CLOSE then Some(Close(FromLe(r.data) != 0))
    else if r.num == MSG_FSYNC then Some(Fsync)
    else if r.num == MSG_READ_REQUEST then Some(ReadRequest)
    else if r.num == MSG_OPEN_RESP_OK then Some(OpenOk)
    else if r.num == MSG_OPEN_RESP_FAILED then Some(OpenFailed)
    else if r.num == MSG_WRITE_RESP then Some(WriteResp(FromLe(r.data)))
    else if r.num == MSG_IOCTL_RESP then Some(IoctlResp(r.data))
    else if r.num == MSG_CLOSE_RESP then Some(CloseResp)
    else if r.num == MSG_FSYNC_RESP then Some(FsyncResp)
    else if r.num == MSG_READ_REQUEST_RESP then Some(ReadRequestResp)
    else None
  }

  /** The numbers and arguments of src/proxyfs/proxyfs_msg.h. */
  lemma WireNumbers(m: Msg, ident: nat)
    ensures var r := ToRaw(m, ident);
            match m
            case Open => r.num == 1
            case Write(data) => r.num == 3 && r.data == data
            case Ioctl(arg) => r.num == 4 && r.data == arg
            case Close(exiting) => r.num == 5 && |r.data| == 4 && (r.data == [0, 0, 0, 0] <==> !exiting)
            case Fsync => r.num == 6
            case ReadRequest => r.num == 7
            case OpenOk => r.num == 101
            case OpenFailed => r.num == 102
            case WriteResp(count) => r.num == 301 && r.data == Le(count, 4)
            case IoctlResp(result) => r.num == 401 && r.data == result
            case CloseResp => r.num == 501
            case FsyncResp => r.num == 601
            case ReadRequestResp => r.num == 701
  {
    assert Le(0, 4) == [0] + Le(0, 3) && Le(0, 3) == [0] + Le(0, 2) && Le(0, 2) == [0] + Le(0, 1);
    assert Le(4, 4)[0] == 4;
  }

  /** Messages whose data fits and whose count fits the u_int32_t that carries it. */
  predicate Fits(m: Msg) {
    match m
    case Write(data) => |data| <= MAX_DATA
    case Ioctl(arg) => |arg| <= MAX_DATA
    case IoctlResp(result) => |result| <= MAX_DATA
    case WriteResp(count) => count < 0x1_0000_0000
    case _ => true
  }

  /** Every message survives the wire, whatever file it is for. */
  lemma WireRoundTrip(m: Msg, ident: nat)
    requires Fits(m) && ident < 0x1_0000_0000
    ensures Sendable(ToRaw(m, ident)) && FromRaw(ToRaw(m, ident)) == Some(m) && ToRaw(m, ident).ident == ident
  {
    Pow256Values();
    match m
    case Close(exiting) => LeRoundTrip(if exiting then PF_EXITING else 0, 4);
    case WriteResp(count) => LeRoundTrip(count, 4);
    case _ =>
  }

  function RawAll(ms: seq<Msg>, ident: nat): (rs: seq<Raw>)
    ensures |rs| == |ms|
    ensures forall i :: 0 <= i < |ms| ==> rs[i] == ToRaw(ms[i], ident)
  {
    seq(|ms|, i requires 0 <= i < |ms| => ToRaw(ms[i], ident))
  }

  /**
   * What a receiver makes of the raw messages it handled, when these are a prefix of
   * the raw messages sent: a prefix of the messages sent.
   */
  lemma HandledInOrder(sent: seq<Msg>, handled: seq<Raw>, ident: nat)
    requires ident < 0x1_0000_0000 && (forall i :: 0 <= i < |sent| ==> Fits(sent[i]))
    requires handled <= RawAll(sent, ident)
    ensures |handled| <= |sent|
    ensures forall i :: 0 <= i < |handled| ==> FromRaw(handled[i]) == Some(sent[i])
  {
    forall i | 0 <= i < |handled|
      ensures FromRaw(handled[i]) == Some(sent[i])
    {
      WireRoundTrip(sent[i], ident);
    }
  }
}
