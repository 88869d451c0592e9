// The messages of ProxyFS (src/proxyfs/proxyfs_msg.h) as they concern one file,
// and what a queue of them carries.

module Messages {
  import opened Bytes

  /** Payload of a message with empty data is the end-of-file mark when it is a Write. */
  datatype Msg =
    | Open
    | Write(data: seq<byte>)
    | Ioctl(arg: seq<byte>)
    | Close(exiting: bool)
    | Fsync
    | ReadRequest
    | OpenOk
    | OpenFailed
    | WriteResp(count: nat)
    | IoctlResp(result: seq<byte>)
    | CloseResp
    | FsyncResp
    | ReadRequestResp

  predicate IsControl(m: Msg) {
    !m.Write? && !m.WriteResp?
  }

  /** Requests on which proxyfs_client_do_syscall blocks its caller. */
  predicate IsCall(m: Msg) {
    m.Close? || m.Fsync? || m.Ioctl? || m.ReadRequest?
  }

  /** Calls that first wait for an empty write buffer. */
  predicate IsBarrier(m: Msg) {
    m.Close? || m.Fsync? || m.Ioctl?
  }

  predicate Answers(r: Msg, m: Msg) {
    match m
    case Close(_) => r.CloseResp?
    case Fsync => r.FsyncResp?
    case Ioctl(_) => r.IoctlResp?
    case ReadRequest => r.ReadRequestResp?
    case _ => false
  }

  /** File data carried by a queue, in order. */
  function Data(q: seq<Msg>): (s: seq<byte>) {
    if q == [] then []
    else (if q[0].Write? then q[0].data else []) + Data(q[1..])
  }

  /** Bytes acknowledged by a queue. */
  function Acks(q: seq<Msg>): (n: nat) {
    if q == [] then 0
    else (if q[0].WriteResp? then q[0].count else 0) + Acks(q[1..])
  }

  /** The control messages of a queue, in order. */
  function Control(q: seq<Msg>): (c: seq<Msg>) {
    if q == [] then []
    else (if IsControl(q[0]) then [q[0]] else []) + Control(q[1..])
  }

  lemma {:induction false} DataPush(q: seq<Msg>, m: Msg)
    ensures Data(q + [m]) == Data(q) + if m.Write? then m.data else []
  {
    if q == [] {
      assert q + [m] == [m];
    } else {
      assert (q + [m])[1..] == q[1..] + [m];
      DataPush(q[1..], m);
      Assoc(if q[0].Write? then q[0].data else [], Data(q[1..]), if m.Write? then m.data else []);
    }
  }

  lemma {:induction false} AcksPush(q: seq<Msg>, m: Msg)
    ensures Acks(q + [m]) == Acks(q) + if m.WriteResp? then m.count else 0
  {
    if q == [] {
      assert q + [m] == [m];
    } else {
      assert (q + [m])[1..] == q[1..] + [m];
      AcksPush(q[1..], m);
    }
  }

  lemma {:induction false} ControlPush(q: seq<Msg>, m: Msg)
    ensures Control(q + [m]) == Control(q) + if IsControl(m) then [m] else []
  {
    hide IsControl;
    if q == [] {
      assert q + [m] == [m];
    } else {
      assert (q + [m])[1..] == q[1..] + [m];
      ControlPush(q[1..], m);
      Assoc(if IsControl(q[0]) then [q[0]] else [], Control(q[1..]), if IsControl(m) then [m] else []);
    }
  }

  /** What one more message at the end of a queue adds to each view of it. */
  lemma Push(q: seq<Msg>, m: Msg)
    ensures Data(q + [m]) == Data(q) + if m.Write? then m.data else []
    ensures Acks(q + [m]) == Acks(q) + if m.WriteResp? then m.count else 0
    ensures Control(q + [m]) == Control(q) + if IsControl(m) then [m] else []
  {
    DataPush(q, m);
    AcksPush(q, m);
    ControlPush(q, m);
  }
}
