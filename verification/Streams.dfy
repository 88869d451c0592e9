// One direction of the byte stream between a proxy file and its real file.
//
// The sender keeps every byte in its write buffer until the receiver has
// acknowledged it; write_buf_unconfirmed says how many of the oldest bytes have
// been sent. The receiver queues arriving data in its read buffer.

module Streams {
  import opened Bytes

  /** WRITE_BUF_SIZE and READ_BUF_SIZE (src/proxyfs/proxyfs_file.h:35-36). */
  const BUF_SIZE: nat := 8192

  /**
   * hist     every byte ever put in the sender's write buffer
   * taken    every byte the receiver has consumed
   * rbuf     the receiver's read buffer
   * wire     data sent and not yet received
   * wbuf     the sender's write buffer, unconf of it sent
   * owed     bytes consumed whose acknowledgement has not arrived
   */
  datatype Flow = Flow(hist: seq<byte>, taken: seq<byte>, rbuf: seq<byte>, wire: seq<byte>,
                       wbuf: seq<byte>, unconf: nat, owed: nat)

  /** Nothing lost, duplicated or reordered; every unconfirmed byte is accounted for. */
  ghost predicate FlowInv(f: Flow) {
    && f.unconf <= |f.wbuf| <= BUF_SIZE
    && |f.rbuf| + |f.wire| + f.owed == f.unconf
    && f.hist == f.taken + (f.rbuf + (f.wire + f.wbuf[f.unconf..]))
    && Kept(f)
  }

  /** The write buffer holds exactly the youngest bytes of the history. */
  ghost predicate Kept(f: Flow) {
    |f.wbuf| <= |f.hist| && f.wbuf == f.hist[|f.hist| - |f.wbuf|..]
  }

  lemma FlowPut(f: Flow, b: seq<byte>)
    requires FlowInv(f) && |f.wbuf| + |b| <= BUF_SIZE
    ensures FlowInv(f.(hist := f.hist + b, wbuf := f.wbuf + b))
  {
    assert (f.wbuf + b)[f.unconf..] == f.wbuf[f.unconf..] + b;
    assert (f.hist + b)[|f.hist| - |f.wbuf|..] == f.hist[|f.hist| - |f.wbuf|..] + b;
    assert f.taken + (f.rbuf + (f.wire + (f.wbuf[f.unconf..] + b)))
        == f.taken + (f.rbuf + (f.wire + f.wbuf[f.unconf..])) + b;
  }

  lemma FlowSend(f: Flow, n: nat)
    requires FlowInv(f) && f.unconf + n <= |f.wbuf|
    ensures FlowInv(f.(wire := f.wire + f.wbuf[f.unconf..f.unconf + n], unconf := f.unconf + n))
  {
    var sent := f.wbuf[f.unconf..f.unconf + n];
    var rest := f.wbuf[f.unconf + n..];
    assert f.wbuf[f.unconf..] == sent + rest;
    assert f.wire + (sent + rest) == (f.wire + sent) + rest;
  }

  lemma FlowReceive(f: Flow, n: nat)
    requires FlowInv(f) && n <= |f.wire|
    ensures FlowInv(f.(rbuf := f.rbuf + f.wire[..n], wire := f.wire[n..]))
  {
    var rest := f.wbuf[f.unconf..];
    assert f.wire == f.wire[..n] + f.wire[n..];
    assert f.rbuf + (f.wire[..n] + f.wire[n..] + rest) == (f.rbuf + f.wire[..n]) + (f.wire[n..] + rest);
  }

  lemma FlowTake(f: Flow, n: nat)
    requires FlowInv(f) && n <= |f.rbuf|
    ensures FlowInv(f.(taken := f.taken + f.rbuf[..n], rbuf := f.rbuf[n..], owed := f.owed + n))
  {
    var rest := f.wire + f.wbuf[f.unconf..];
    assert f.rbuf == f.rbuf[..n] + f.rbuf[n..];
    assert f.taken + (f.rbuf[..n] + f.rbuf[n..] + rest) == (f.taken + f.rbuf[..n]) + (f.rbuf[n..] + rest);
  }

  lemma FlowAck(f: Flow, n: nat)
    requires FlowInv(f) && n <= f.owed
    ensures n <= f.unconf <= |f.wbuf|
    ensures FlowInv(f.(wbuf := f.wbuf[n..], unconf := f.unconf - n, owed := f.owed - n))
  {
    assert f.wbuf[n..][f.unconf - n..] == f.wbuf[f.unconf..];
    assert f.hist[|f.hist| - |f.wbuf|..][n..] == f.hist[|f.hist| - |f.wbuf[n..]|..];
  }

  /**
   * Between sessions: the flow has no receiver. Once no acknowledgement is owed,
   * forgetting what was sent leaves exactly the bytes nobody consumed.
   */
  lemma FlowReset(f: Flow)
    requires FlowInv(f) && f.owed == 0
    ensures f.hist == f.taken + f.wbuf
    ensures FlowInv(Flow(f.hist, f.taken, [], [], f.wbuf, 0, 0))
  {
    var k := |f.hist| - |f.wbuf|;
    assert k == |f.taken|;
    assert f.hist[..k] == f.taken;
    assert f.hist == f.hist[..k] + f.hist[k..];
    assert f.wbuf[0..] == f.wbuf;
    assert f.taken + ([] + ([] + f.wbuf)) == f.taken + f.wbuf;
  }

  /** The credit rule: whatever is in flight fits behind what the receiver already holds. */
  lemma FlowCredit(f: Flow)
    requires FlowInv(f)
    ensures |f.rbuf| + |f.wire| + f.owed == f.unconf <= |f.wbuf| <= BUF_SIZE
    ensures f.taken <= f.hist
    ensures |f.hist| == |f.taken| + |f.rbuf| + |f.wire| + (|f.wbuf| - f.unconf)
  {
  }
}
