// Messages as bytes on a socket: the header and data that proxyfs_msg_real_send
// writes and proxyfs_peer_real_recv puts together again, whatever the chunks.

module Framing {
  import opened Bytes
  import opened Messages
  import opened Files

  const MSG_MAGIC: nat := 0x1ee7babe
  /** sizeof(struct proxyfs_msg_header): four unsigned longs of eight bytes. */
  const HDR: nat := 32
  const MSG_MAX_SIZE: nat := 4096

  /** struct proxyfs_msg: message number, file identifier and data. */
  datatype Raw = Raw(num: nat, ident: nat, data: seq<byte>)

  predicate Sendable(m: Raw) {
    m.num < 0x1_0000_0000_0000_0000 && m.ident < 0x1_0000_0000_0000_0000 && |m.data| <= MSG_MAX_SIZE - HDR
  }

  function Header(m: Raw): (h: seq<byte>)
    ensures |h| == HDR
  {
    Le(MSG_MAGIC, 8) + Le(m.num, 8) + Le(m.ident, 8) + Le(|m.data|, 8)
  }

  function Encode(m: Raw): (s: seq<byte>)
    ensures |s| == HDR + |m.data|
  {
    Header(m) + m.data
  }

  function EncodeAll(ms: seq<Raw>): (s: seq<byte>) {
    if ms == [] then [] else Encode(ms[0]) + EncodeAll(ms[1..])
  }

  /** proxyfs_msg_get_size: zero when the magic is wrong. */
  function SizeOf(buf: seq<byte>): (n: nat)
    requires |buf| >= HDR
  {
    if FromLe(buf[..8]) != MSG_MAGIC then 0 else FromLe(buf[24..32]) + HDR
  }

  function Parse(buf: seq<byte>): (m: Raw)
    requires |buf| >= HDR
  {
    Raw(FromLe(buf[8..16]), FromLe(buf[16..24]), buf[HDR..])
  }

  /** The header says how long the message is, and a whole message parses to itself. */
  lemma HeaderFields(m: Raw)
    requires Sendable(m)
    ensures FromLe(Header(m)[..8]) == MSG_MAGIC && FromLe(Header(m)[24..32]) == |m.data|
    ensures FromLe(Header(m)[8..16]) == m.num && FromLe(Header(m)[16..24]) == m.ident
  {
    Pow256Values();
    LeRoundTrip(MSG_MAGIC, 8);
    LeRoundTrip(m.num, 8);
    LeRoundTrip(m.ident, 8);
    LeRoundTrip(|m.data|, 8);
    var h := Header(m);
    assert h[..8] == Le(MSG_MAGIC, 8) && h[8..16] == Le(m.num, 8);
    assert h[16..24] == Le(m.ident, 8) && h[24..32] == Le(|m.data|, 8);
  }

  lemma ParseEncode(m: Raw)
    requires Sendable(m)
    ensures SizeOf(Encode(m)) == |Encode(m)| && Parse(Encode(m)) == m
  {
    hide Header, Le, FromLe, SizeOf;
    HeaderFields(m);
    PrefixSize(Encode(m), m);
    var e := Encode(m);
    assert e[8..16] == Header(m)[8..16] && e[16..24] == Header(m)[16..24] && e[HDR..] == m.data;
  }

  /** Any prefix of a message that holds its header tells the message's size. */
  lemma PrefixSize(buf: seq<byte>, m: Raw)
    requires Sendable(m) && HDR <= |buf| && buf <= Encode(m)
    ensures SizeOf(buf) == |Encode(m)|
  {
    hide Header, Le, FromLe;
    HeaderFields(m);
    assert Encode(m)[..HDR] == Header(m);
    assert buf[..HDR] == Header(m);
    assert buf[..8] == buf[..HDR][..8] && buf[24..32] == buf[..HDR][24..32];
  }

  // ----- the receiving end -----------------------------------------------------------

  /**
   * buf has been received of the first of the pending messages; wire is on the way
   * and tail has not been sent.
   */
  ghost predicate Assembling(buf: seq<byte>, wire: seq<byte>, tail: seq<byte>, pending: seq<Raw>) {
    && (forall m :: m in pending ==> Sendable(m))
    && buf + (wire + tail) == EncodeAll(pending)
    && (pending == [] ==> buf == [])
    && (pending != [] ==> |buf| <= |Encode(pending[0])|)
  }

  ghost predicate Complete(buf: seq<byte>, pending: seq<Raw>) {
    pending != [] && |buf| == |Encode(pending[0])|
  }

  lemma BufIsPrefix(buf: seq<byte>, wire: seq<byte>, tail: seq<byte>, pending: seq<Raw>)
    requires Assembling(buf, wire, tail, pending) && pending != []
    ensures buf <= Encode(pending[0])
    ensures Complete(buf, pending) <==> buf == Encode(pending[0])
    ensures |buf| >= HDR ==> SizeOf(buf) == |Encode(pending[0])|
  {
    var e := Encode(pending[0]);
    assert (e + EncodeAll(pending[1..]))[..|buf|] == e[..|buf|];
    assert (buf + (wire + tail))[..|buf|] == buf;
    if |buf| >= HDR {
      PrefixSize(buf, pending[0]);
    }
  }

  /** Receiving n more bytes of the current message. */
  lemma ReceiveBytes(buf: seq<byte>, wire: seq<byte>, tail: seq<byte>, pending: seq<Raw>, n: nat)
    requires Assembling(buf, wire, tail, pending) && n <= |wire|
    requires pending != [] && |buf| + n <= |Encode(pending[0])|
    ensures Assembling(buf + wire[..n], wire[n..], tail, pending)
  {
    hide EncodeAll, Encode, Sendable;
    var a, b := wire[..n], wire[n..];
    assert wire == a + b;
    Assoc(a, b, tail);
    Assoc(buf, a, b + tail);
  }

  /** Handling a whole message makes room for the next one. */
  lemma NextMessage(buf: seq<byte>, wire: seq<byte>, tail: seq<byte>, pending: seq<Raw>)
    requires Assembling(buf, wire, tail, pending) && Complete(buf, pending)
    ensures Assembling([], wire, tail, pending[1..])
    ensures HDR <= |buf| <= MSG_MAX_SIZE && SizeOf(buf) == |buf| && Parse(buf) == pending[0]
  {
    BufIsPrefix(buf, wire, tail, pending);
    ParseEncode(pending[0]);
    assert (buf + (wire + tail))[|buf|..] == wire + tail;
    assert (Encode(pending[0]) + EncodeAll(pending[1..]))[|buf|..] == EncodeAll(pending[1..]);
    assert [] + (wire + tail) == wire + tail;
  }

  /** Bytes on the wire belong to some message that is still to come. */
  lemma WireIsPending(buf: seq<byte>, wire: seq<byte>, tail: seq<byte>, pending: seq<Raw>)
    requires Assembling(buf, wire, tail, pending) && wire != []
    ensures pending != []
  {
  }

  class Socket {
    var wire: seq<byte>
    /** Sizes of the pieces in which bytes arrive, and which sends would block. */
    var pieces: seq<nat>
    var blocks: seq<bool>

    /** Non-blocking receive: between one byte and all that is there, or -EAGAIN. */
    method Recv(max: nat) returns (n: int, data: seq<byte>)
      modifies this`wire, this`pieces
      ensures n < 0 ==> data == [] && wire == old(wire)
      ensures n >= 0 ==> 0 < n == |data| <= max && old(wire) == data + wire
      ensures old(pieces) == [] ==> pieces == [] && (max == 0 || n == max || wire == [])
    {
      var piece := |wire|;
      if pieces != [] {
        piece := pieces[0];
        pieces := pieces[1..];
      }
      var k := Min(piece, Min(max, |wire|));
      if k == 0 {
        return -11, [];
      }
      n, data, wire := k, wire[..k], wire[k..];
    }

    /** kkc_sock_send: all of the bytes or, when the socket would block, none. */
    method Send(data: seq<byte>) returns (n: int)
      modifies this`wire, this`blocks
      ensures if n < 0 then wire == old(wire) else n == |data| && wire == old(wire) + data
      ensures old(blocks) == [] ==> n >= 0 && blocks == []
    {
      if blocks != [] && blocks[0] {
        blocks := blocks[1..];
        return -11;
      }
      if blocks != [] {
        blocks := blocks[1..];
      }
      wire := wire + data;
      n := |data|;
    }
  }

  /** How a transfer stands after the calls so far: all done, failed, or not returned yet. */
  datatype Progress = Done(total: nat) | Error(code: int) | Running

  /** The bytes that calls with these results have moved, of n; a negative result is an error. */
  function Moved(n: nat, calls: seq<int>): (k: nat)
    ensures k <= n
    decreases calls
  {
    if n == 0 || calls == [] || calls[0] < 0 then 0
    else Min(calls[0], n) + Moved(n - Min(calls[0], n), calls[1..])
  }

  /** The index of the call that fails, or the number of calls if none does. */
  function FirstError(calls: seq<int>): (e: nat)
    ensures e <= |calls| && (e < |calls| ==> calls[e] < 0) && forall i :: 0 <= i < e ==> calls[i] >= 0
    decreases calls
  {
    if calls == [] || calls[0] < 0 then 0 else 1 + FirstError(calls[1..])
  }

  function Sum(calls: seq<int>): (n: int)
    decreases calls
  {
    if calls == [] then 0 else calls[0] + Sum(calls[1..])
  }

  /**
   * The loop of kkc_sock_send_recv, whose calls to the socket return these results. It
   * goes on while a call returns zero.
   */
  method Transfer(sock: Socket, data: seq<byte>, calls: seq<int>) returns (state: Progress)
    modifies sock`wire
    ensures sock.wire == old(sock.wire) + data[..Moved(|data|, calls)]
    ensures state.Done? <==> Moved(|data|, calls) == |data|
    ensures state.Done? ==> state.total == |data|
    ensures state.Error? <==> Moved(|data|, calls) < |data| && FirstError(calls) < |calls|
    ensures state.Error? ==> state.code == calls[FirstError(calls)]
  {
    hide Moved, FirstError;
    var error: int := 0;
    var total: nat, i: nat := 0, 0;
    assert calls[0..] == calls;
    while total < |data| && error >= 0
      invariant total <= |data| && sock.wire == old(sock.wire) + data[..total]
      invariant 0 <= i <= |calls| && Moved(|data|, calls) == total + if error < 0 then 0 else Moved(|data| - total, calls[i..])
      invariant if error < 0 then i < |calls| && FirstError(calls) == i && error == calls[i] && total < |data|
                else FirstError(calls) == i + FirstError(calls[i..])
      decreases |calls| - i, error >= 0
    {
      CallStep(|data| - total, calls, i);
      if i == |calls| {
        return Running;
      }
      error := calls[i];
      if error >= 0 {
        var k := Min(error, |data| - total);
        assert data[..total] + data[total..total + k] == data[..total + k];
        sock.wire := sock.wire + data[total..total + k];
        total, i := total + k, i + 1;
      }
    }
    state := if error >= 0 then Done(total) else Error(error);
    NothingToMove(calls[i..]);
  }

  lemma NothingToMove(calls: seq<int>)
    ensures Moved(0, calls) == 0
  {
  }

  lemma CallStep(n: nat, calls: seq<int>, i: nat)
    requires n > 0 && i <= |calls|
    ensures i == |calls| ==> Moved(n, calls[i..]) == 0 && FirstError(calls[i..]) == 0
    ensures i < |calls| && calls[i] < 0 ==> Moved(n, calls[i..]) == 0 && FirstError(calls[i..]) == 0
    ensures i < |calls| && calls[i] >= 0 ==>
              && Moved(n, calls[i..]) == Min(calls[i], n) + Moved(n - Min(calls[i], n), calls[i + 1..])
              && FirstError(calls[i..]) == 1 + FirstError(calls[i + 1..])
  {
    if i < |calls| {
      assert calls[i..][1..] == calls[i + 1..];
    }
  }

  /** What the calls before an error moved is their sum, as long as that is less than asked for. */
  lemma {:induction false} MovedIsSum(n: nat, calls: seq<int>)
    ensures var sum := Sum(calls[..FirstError(calls)]); sum >= 0 && Moved(n, calls) == if sum < n then sum else n
    decreases calls
  {
    if calls != [] && calls[0] >= 0 {
      MovedIsSum(n - Min(calls[0], n), calls[1..]);
      MovedIsSum(0, calls[1..]);
      assert calls[..FirstError(calls)][1..] == calls[1..][..FirstError(calls[1..])];
    }
  }

  /**
   * A failing transfer reports only the error. It has moved bytes all the same if and
   * only if the calls before the error moved some; [1, -11] for two bytes is such a case.
   */
  lemma ErrorHidesBytes(n: nat, calls: seq<int>)
    requires Moved(n, calls) < n && FirstError(calls) < |calls|
    ensures Moved(n, calls) > 0 <==> exists i :: 0 <= i < FirstError(calls) && calls[i] > 0
    ensures Moved(2, [1, -11]) == 1 && FirstError([1, -11]) == 1
  {
    MovedIsSum(n, calls);
    SumPositive(calls[..FirstError(calls)]);
    assert [1, -11][1..] == [-11];
    if i :| 0 <= i < FirstError(calls) && calls[i] > 0 {
      assert calls[..FirstError(calls)][i] > 0;
    }
  }

  lemma {:induction false} SumPositive(calls: seq<int>)
    requires forall i :: 0 <= i < |calls| ==> calls[i] >= 0
    ensures Sum(calls) >= 0 && (Sum(calls) > 0 <==> exists i :: 0 <= i < |calls| && calls[i] > 0)
    decreases calls
  {
    if calls != [] {
      SumPositive(calls[1..]);
      if i :| 0 <= i < |calls[1..]| && calls[1..][i] > 0 {
        assert calls[i + 1] > 0;
      }
      if i :| 0 <= i < |calls| && calls[i] > 0 && calls[0] == 0 {
        assert calls[1..][i - 1] > 0;
      }
    }
  }

  /** Calls that return zero, however many, never let the transfer return. */
  lemma {:induction false} ZerosStall(n: nat, calls: seq<int>)
    requires n > 0 && forall i :: 0 <= i < |calls| ==> calls[i] == 0
    ensures Moved(n, calls) == 0 && FirstError(calls) == |calls|
    decreases calls
  {
    if calls != [] {
      ZerosStall(n, calls[1..]);
    }
  }

  class Receiver {
    const recvBuf: array<byte>
    var recvStart: nat

    ghost predicate Valid()
      reads this
    {
      recvBuf.Length == MSG_MAX_SIZE && recvStart <= MSG_MAX_SIZE
    }

    ghost function Got(): (s: seq<byte>)
      reads this, recvBuf
      requires Valid()
    {
      recvBuf[..recvStart]
    }

    constructor ()
      ensures Valid() && Got() == [] && fresh(recvBuf)
    {
      recvBuf := new byte[MSG_MAX_SIZE];
      recvStart := 0;
    }

    method Store(data: seq<byte>)
      requires Valid() && recvStart + |data| <= MSG_MAX_SIZE
      modifies this`recvStart, recvBuf
      ensures Valid() && Got() == old(Got()) + data
    {
      var start := recvStart;
      for i := 0 to |data|
        invariant recvStart == start
        invariant recvBuf[..start] == old(recvBuf[..recvStart])
        invariant forall k :: 0 <= k < i ==> recvBuf[start + k] == data[k]
      {
        recvBuf[start + i] := data[i];
      }
      recvStart := start + |data|;
    }

    /** One kkc_sock_recv of at most max bytes into the message buffer. */
    method Fetch(sock: Socket, max: nat, ghost tail: seq<byte>, ghost pending: seq<Raw>) returns (n: int)
      requires Valid() && Assembling(Got(), sock.wire, tail, pending)
      requires pending != [] ==> recvStart + max <= |Encode(pending[0])|
      modifies this`recvStart, recvBuf, sock`wire, sock`pieces
      ensures Valid() && Assembling(Got(), sock.wire, tail, pending)
      ensures n < 0 ==> Got() == old(Got()) && sock.wire == old(sock.wire)
      ensures n >= 0 ==> 0 < n <= max && |Got()| == |old(Got())| + n && |sock.wire| == |old(sock.wire)| - n
      ensures old(sock.pieces) == [] ==> sock.pieces == [] && (max == 0 || n == max || sock.wire == [])
    {
      hide Encode, EncodeAll;
      ghost var wire := sock.wire;
      var data;
      n, data := sock.Recv(max);
      if n > 0 {
        WireIsPending(Got(), wire, tail, pending);
        ReceiveBytes(Got(), wire, tail, pending, n);
        assert wire[..n] == data && wire[n..] == sock.wire;
        FitsBuffer(pending[0]);
        Store(data);
      }
    }

    /**
     * proxyfs_peer_real_recv: the rest of the header, then the rest of the message.
     * The result is 1 for a whole message, and also when a single byte of a header
     * arrived. Any other result means that the socket has no more to give.
     */
    method RealRecv(sock: Socket, ghost tail: seq<byte>, ghost pending: seq<Raw>) returns (result: int)
      requires Valid() && Assembling(Got(), sock.wire, tail, pending)
      modifies this`recvStart, recvBuf, sock`wire, sock`pieces
      ensures Valid() && Assembling(Got(), sock.wire, tail, pending)
      ensures |Got()| + |sock.wire| == |old(Got())| + |old(sock.wire)| && |sock.wire| <= |old(sock.wire)|
      ensures Complete(Got(), pending) ==> result == 1
      ensures result == 1 ==> Complete(Got(), pending) || recvStart < HDR
      ensures result == 1 && !old(Complete(Got(), pending)) ==> |sock.wire| < |old(sock.wire)|
      ensures old(sock.pieces) == [] ==> sock.pieces == [] && (result == 1 || sock.wire == [])
    {
      hide Encode, EncodeAll, Assembling, SizeOf;
      result := 0;
      if recvStart < HDR {
        ShortBuffer(Got(), sock.wire, tail, pending);
        result := Fetch(sock, HDR - recvStart, tail, pending);
      }
      if recvStart >= HDR {
        var size := Size(sock, tail, pending);
        if size == recvStart {
          return 1;
        }
        result := Fetch(sock, size - recvStart, tail, pending);
        if result > 0 {
          result := if recvStart == size then 1 else 0;
        }
      } else {
        ShortBuffer(Got(), sock.wire, tail, pending);
      }
    }

    method Size(sock: Socket, ghost tail: seq<byte>, ghost pending: seq<Raw>) returns (size: nat)
      requires Valid() && Assembling(Got(), sock.wire, tail, pending) && recvStart >= HDR
      ensures pending != [] && size == |Encode(pending[0])| && recvStart <= size
    {
      hide Encode, EncodeAll, SizeOf;
      assert pending != [];
      BufIsPrefix(Got(), sock.wire, tail, pending);
      size := SizeOf(recvBuf[..recvStart]);
    }

    /** proxyfs_peer_get_msg: the message when the buffer is as long as its header says, nothing otherwise. */
    method GetMsg(ghost wire: seq<byte>, ghost tail: seq<byte>, ghost pending: seq<Raw>) returns (m: Option<Raw>)
      requires Valid()
      ensures m == if WholeBuffer(Got()) then Some(Parse(Got())) else None
      ensures Assembling(Got(), wire, tail, pending) ==> m == if Complete(Got(), pending) then Some(pending[0]) else None
    {
      hide Encode, EncodeAll, SizeOf, Parse, Assembling;
      m := None;
      if recvStart >= HDR {
        var size := SizeOf(recvBuf[..recvStart]);
        if size == recvStart {
          m := Some(Parse(recvBuf[..recvStart]));
        }
      }
      if Assembling(Got(), wire, tail, pending) {
        WholeIsComplete(Got(), wire, tail, pending);
      }
    }

    /** proxyfs_peer_clear_msg: refused for an incomplete message. */
    method ClearMsg(ghost wire: seq<byte>, ghost tail: seq<byte>, ghost pending: seq<Raw>) returns (result: int)
      requires Valid()
      modifies this`recvStart
      ensures Valid() && result == if old(WholeBuffer(Got())) then 0 else -1
      ensures Got() == if result == 0 then [] else old(Got())
      ensures old(Assembling(Got(), wire, tail, pending)) ==> result == if old(Complete(Got(), pending)) then 0 else -1
    {
      hide Encode, EncodeAll, WholeBuffer, Parse, Assembling;
      var m := GetMsg(wire, tail, pending);
      result := -1;
      if m.Some? {
        recvStart := 0;
        result := 0;
      }
    }

    /**
     * proxyfs_task_recv_peers for one peer. Whatever the chunks, the messages
     * handled are the next ones that were sent, each once and in order; and when the
     * socket gives what it has, no whole message is left behind.
     */
    method RecvPeer(sock: Socket, ghost tail: seq<byte>, ghost pending: seq<Raw>) returns (handled: seq<Raw>)
      requires Valid() && Assembling(Got(), sock.wire, tail, pending) && !Complete(Got(), pending)
      modifies this`recvStart, recvBuf, sock`wire, sock`pieces
      ensures Valid() && handled <= pending
      ensures Assembling(Got(), sock.wire, tail, pending[|handled|..])
      ensures !Complete(Got(), pending[|handled|..])
      ensures old(sock.pieces) == [] ==> sock.wire == []
    {
      hide Encode, EncodeAll, Assembling;
      handled := [];
      ghost var left := pending;
      while true
        invariant Valid() && handled <= pending && left == pending[|handled|..]
        invariant Assembling(Got(), sock.wire, tail, left) && !Complete(Got(), left)
        invariant old(sock.pieces) == [] ==> sock.pieces == []
        decreases |sock.wire|
      {
        var result := RealRecv(sock, tail, left);
        if result != 1 {
          return;
        }
        var m := GetMsg(sock.wire, tail, left);
        ghost var whole := Complete(Got(), left);
        if whole {
          NextMessage(Got(), sock.wire, tail, left);
        }
        var _ := ClearMsg(sock.wire, tail, left);
        if m.Some? {
          handled := Next(handled, m.value, pending);
          left := left[1..];
          EmptyIsIncomplete(left);
        }
      }
    }
  }

  /** The buffer is exactly as long as the header in it says. */
  predicate WholeBuffer(buf: seq<byte>) {
    |buf| >= HDR && SizeOf(buf) == |buf|
  }

  lemma WholeIsComplete(buf: seq<byte>, wire: seq<byte>, tail: seq<byte>, pending: seq<Raw>)
    requires Assembling(buf, wire, tail, pending)
    ensures WholeBuffer(buf) <==> Complete(buf, pending)
    ensures WholeBuffer(buf) ==> Parse(buf) == pending[0]
  {
    hide Encode, EncodeAll, SizeOf, Parse;
    if pending != [] {
      BufIsPrefix(buf, wire, tail, pending);
    }
    if |buf| < HDR {
      ShortBuffer(buf, wire, tail, pending);
    }
    if Complete(buf, pending) {
      NextMessage(buf, wire, tail, pending);
    }
  }

  function Next(handled: seq<Raw>, m: Raw, ghost pending: seq<Raw>): (r: seq<Raw>)
    requires handled <= pending && |handled| < |pending| && m == pending[|handled|]
    ensures r == handled + [m] && r <= pending && pending[|handled|..][1..] == pending[|r|..]
  {
    handled + [m]
  }

  lemma EmptyIsIncomplete(pending: seq<Raw>)
    ensures !Complete([], pending)
  {
  }

  /** A header is never longer than its message. */
  lemma ShortBuffer(buf: seq<byte>, wire: seq<byte>, tail: seq<byte>, pending: seq<Raw>)
    requires Assembling(buf, wire, tail, pending) && |buf| < HDR
    ensures !Complete(buf, pending)
    ensures pending != [] ==> HDR <= |Encode(pending[0])|
  {
  }

  // ----- the sending end -------------------------------------------------------------

  /** The bytes of the queued messages that are not on the wire yet. */
  ghost function Unsent(queue: seq<Raw>, sendStart: nat): (s: seq<byte>) {
    if queue == [] then []
    else if sendStart == 0 then EncodeAll(queue)
    else queue[0].data + EncodeAll(queue[1..])
  }

  lemma UnsentSteps(queue: seq<Raw>)
    requires queue != []
    ensures Unsent(queue, 0) == Header(queue[0]) + Unsent(queue, HDR)
    ensures Unsent(queue, HDR) == queue[0].data + Unsent(queue[1..], 0)
  {
    Assoc(Header(queue[0]), queue[0].data, EncodeAll(queue[1..]));
  }

  lemma {:induction false} EncodeAllAppend(a: seq<Raw>, b: seq<Raw>)
    ensures EncodeAll(a + b) == EncodeAll(a) + EncodeAll(b)
  {
    if a == [] {
      assert a + b == b;
    } else {
      assert (a + b)[1..] == a[1..] + b && (a + b)[0] == a[0];
      EncodeAllAppend(a[1..], b);
      Assoc(Encode(a[0]), EncodeAll(a[1..]), EncodeAll(b));
    }
  }

  lemma UnsentQueue(queue: seq<Raw>, sendStart: nat, m: Raw)
    requires queue == [] ==> sendStart == 0
    ensures Unsent(queue + [m], sendStart) == Unsent(queue, sendStart) + Encode(m)
  {
    assert EncodeAll([m]) == Encode(m) by {
      assert [m][1..] == [];
    }
    if queue == [] || sendStart == 0 {
      EncodeAllAppend(queue, [m]);
    } else {
      assert (queue + [m])[1..] == queue[1..] + [m];
      EncodeAllAppend(queue[1..], [m]);
      Assoc(queue[0].data, EncodeAll(queue[1..]), Encode(m));
    }
  }

  class Sender {
    var queue: seq<Raw>
    var sendStart: nat   // how far the first queued message is: nothing, or its header

    ghost predicate Valid()
      reads this
    {
      (queue == [] ==> sendStart == 0) && (sendStart == 0 || sendStart == HDR)
    }

    constructor ()
      ensures Valid() && queue == [] && sendStart == 0
    {
      queue, sendStart := [], 0;
    }

    /** proxyfs_msg_real_send for the first queued message; true when all of it is sent. */
    method SendFirst(sock: Socket) returns (done: bool)
      requires Valid() && queue != []
      modifies this, sock`wire, sock`blocks
      ensures Valid() && sock.wire + Unsent(queue, sendStart) == old(sock.wire + Unsent(queue, sendStart))
      ensures queue == if done then old(queue)[1..] else old(queue)
      ensures old(sock.blocks) == [] ==> done && sock.blocks == []
    {
      hide Unsent, Header;
      UnsentSteps(queue);
      ghost var rest := Unsent(queue[1..], 0);
      var m := queue[0];
      done := false;
      ghost var wire := sock.wire;
      if sendStart == 0 {
        var n := sock.Send(Header(m));
        if n < 0 {
          return;
        }
        sendStart := HDR;
        Assoc(wire, Header(m), Unsent(queue, HDR));
      }
      if |m.data| > 0 {
        wire := sock.wire;
        var n := sock.Send(m.data);
        if n < 0 {
          return;
        }
        Assoc(wire, m.data, rest);
      }
      queue, sendStart := queue[1..], 0;
      done := true;
    }

    /** proxyfs_peer_real_send: as many messages as the socket takes. */
    method RealSend(sock: Socket)
      requires Valid()
      modifies this, sock`wire, sock`blocks
      ensures Valid() && sock.wire + Unsent(queue, sendStart) == old(sock.wire + Unsent(queue, sendStart))
      ensures |queue| <= |old(queue)| && queue == old(queue)[|old(queue)| - |queue|..]
      ensures old(sock.blocks) == [] ==> queue == []
    {
      hide Unsent;
      var done := true;
      while queue != [] && done
        invariant Valid() && sock.wire + Unsent(queue, sendStart) == old(sock.wire + Unsent(queue, sendStart))
        invariant |queue| <= |old(queue)| && queue == old(queue)[|old(queue)| - |queue|..]
        invariant old(sock.blocks) == [] ==> done && sock.blocks == []
        decreases |queue|, done
      {
        done := SendFirst(sock);
      }
    }
  }

  // ----- one direction of a connection -----------------------------------------------

  /**
   * Everything that can happen to one direction of a peer connection, in any order.
   * Valid says that the messages handled so far are the first ones that were queued.
   */
  class Link {
    const sender: Sender
    const sock: Socket
    const receiver: Receiver
    ghost var sent: seq<Raw>
    ghost var handled: seq<Raw>

    ghost predicate Valid()
      reads this, sender, sock, receiver, receiver.recvBuf
    {
      && sender.Valid() && receiver.Valid()
      && handled <= sent
      && Assembling(receiver.Got(), sock.wire, Unsent(sender.queue, sender.sendStart), sent[|handled|..])
      && !Complete(receiver.Got(), sent[|handled|..])
    }

    constructor (sock: Socket)
      requires sock.wire == []
      ensures Valid() && sent == [] && handled == []
    {
      sender := new Sender();
      receiver := new Receiver();
      this.sock := sock;
      sent, handled := [], [];
    }

    /** proxyfs_peer_send_msg with a message of legal size. */
    method SendMsg(m: Raw)
      requires Valid() && Sendable(m)
      modifies this`sent, sender
      ensures Valid() && sent == old(sent) + [m] && handled == old(handled)
    {
      hide Unsent, Encode, EncodeAll, Sendable;
      ghost var k := |handled|;
      UnsentQueue(sender.queue, sender.sendStart, m);
      assert (sent + [m])[k..] == sent[k..] + [m];
      MorePending(receiver.Got(), sock.wire, Unsent(sender.queue, sender.sendStart), sent[k..], m);
      sender.queue := sender.queue + [m];
      sent := sent + [m];
    }

    method Send()
      requires Valid()
      modifies sender, sock`wire, sock`blocks
      ensures Valid() && sent == old(sent) && handled == old(handled)
      ensures old(sock.blocks) == [] ==> sender.queue == []
    {
      hide Unsent, EncodeAll, Encode, Complete;
      sender.RealSend(sock);
    }

    method Receive() returns (now: seq<Raw>)
      requires Valid()
      modifies this`handled, receiver`recvStart, receiver.recvBuf, sock`wire, sock`pieces
      ensures Valid() && sent == old(sent) && handled == old(handled) + now
      ensures old(sock.pieces) == [] && sender.queue == [] ==> handled == sent
    {
      hide Assembling, Complete;
      ghost var k := |handled|;
      now := receiver.RecvPeer(sock, Unsent(sender.queue, sender.sendStart), sent[k..]);
      assert sent[k..][|now|..] == sent[k + |now|..];
      assert handled + now <= sent;
      handled := handled + now;
      if old(sock.pieces) == [] && sender.queue == [] {
        AllHandled(receiver.Got(), sent, handled);
      }
    }
  }

  lemma MorePending(buf: seq<byte>, wire: seq<byte>, tail: seq<byte>, pending: seq<Raw>, m: Raw)
    requires Assembling(buf, wire, tail, pending) && !Complete(buf, pending) && Sendable(m)
    ensures Assembling(buf, wire, tail + Encode(m), pending + [m]) && !Complete(buf, pending + [m])
  {
    hide Sendable;
    EncodeAllAppend(pending, [m]);
    assert EncodeAll([m]) == Encode(m) by {
      assert [m][1..] == [];
    }
    Assoc(wire, tail, Encode(m));
    Assoc(buf, wire + tail, Encode(m));
  }

  /** When nothing is queued or under way, every message sent has been handled. */
  lemma AllHandled(buf: seq<byte>, sent: seq<Raw>, handled: seq<Raw>)
    requires handled <= sent && Assembling(buf, [], [], sent[|handled|..]) && !Complete(buf, sent[|handled|..])
    ensures handled == sent
  {
    hide EncodeAll, Encode;
    assert buf + ([] + []) == buf;
    if handled != sent {
      AtLeastFirst(sent[|handled|..]);
    }
  }

  lemma AtLeastFirst(ms: seq<Raw>)
    requires ms != []
    ensures |EncodeAll(ms)| >= |Encode(ms[0])|
  {
  }

  lemma FitsBuffer(m: Raw)
    ensures |Encode(m)| == HDR + |m.data|
    ensures Sendable(m) ==> |Encode(m)| <= MSG_MAX_SIZE
  {
  }
}
