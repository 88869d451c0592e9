// The record layer of proxied pipes: every write enters the stream as a 4-byte
// length followed by that many bytes, and the server turns records back into
// writes to the real pipe (src/proxyfs/proxyfs_pipe_proxy_file.c,
// src/proxyfs/proxyfs_pipe_real_file.c).

module PipeRecords {
  import opened Bytes
  import opened Streams

  const PIPE_BUF: nat := 4096
  const COUNTER_SIZE: nat := 4

  function Record(payload: seq<byte>): (r: seq<byte>)
    ensures |r| == COUNTER_SIZE + |payload|
  {
    Le(|payload|, COUNTER_SIZE) + payload
  }

  function Encode(records: seq<seq<byte>>): (s: seq<byte>) {
    if records == [] then []
    else Encode(records[..|records| - 1]) + Record(records[|records| - 1])
  }

  lemma EncodeSnoc(records: seq<seq<byte>>, payload: seq<byte>)
    ensures Encode(records + [payload]) == Encode(records) + Record(payload)
  {
    assert (records + [payload])[..|records|] == records;
  }

  /** Everything encoded after the first k records, starting with record k. */
  lemma {:induction false} EncodeSplit(records: seq<seq<byte>>, k: nat)
    requires k < |records|
    ensures Encode(records[..k]) + Record(records[k]) <= Encode(records)
    decreases |records|
  {
    hide Record;
    var n := |records|;
    if k < n - 1 {
      var before := records[..n - 1];
      EncodeSplit(before, k);
      assert before[..k] == records[..k] && before[k] == records[k];
      assert Encode(before) <= Encode(records);
    }
  }

  // ----- the client side: printing a record ---------------------------------

  datatype Accepted = Refused(need: nat) | Payload(bytes: seq<byte>)

  /** Eight bytes are free, and for at most 4096 bytes the whole record fits. */
  predicate Takes(free: nat, size: nat) {
    8 <= free && (size <= 4096 ==> size + 4 <= free)
  }

  /**
   * The part of buf that a write with the given free space turns into one
   * record, or the space the writer has to wait for.
   */
  function Accept(free: nat, buf: seq<byte>): (a: Accepted)
    ensures a.Payload? ==> a.bytes <= buf && COUNTER_SIZE + |a.bytes| <= free
    ensures a.Payload? && buf != [] ==> a.bytes != []
    ensures a.Payload? && |buf| <= PIPE_BUF ==> a.bytes == buf
    ensures a.Payload? && a.bytes != buf ==> |Record(a.bytes)| == free
    ensures a.Refused? <==> free < 8 || (|buf| <= 4096 && |Record(buf)| > free)
    ensures a.Refused? ==> free < a.need <= PIPE_BUF + COUNTER_SIZE
    ensures a.Refused? ==> a.need == if free < 8 then 8 else |Record(buf)|
  {
    if free < 2 * COUNTER_SIZE then Refused(2 * COUNTER_SIZE)
    else if |buf| <= PIPE_BUF && free < COUNTER_SIZE + |buf| then Refused(COUNTER_SIZE + |buf|)
    else Payload(buf[..Min(free - COUNTER_SIZE, |buf|)])
  }

  // ----- the server side: parsing records ------------------------------------

  /** What one turn of the restart_write loop does. */
  datatype Turn =
    | TakeHeader      // the length of the next record
    | EmitWhole       // an atomic record, one vfs_write
    | EmitPart(n: nat) // a vfs_write that took n bytes of a longer record

  /**
   * rbuf, counter, atomic   fields of the real file
   * taken                   every byte removed from rbuf so far
   * outs                    for each finished record, the vfs_writes made for it
   * cur                     the vfs_writes made for the record in progress
   */
  datatype Parser = Parser(rbuf: seq<byte>, counter: nat, atomic: bool, taken: seq<byte>,
                           outs: seq<seq<seq<byte>>>, cur: seq<seq<byte>>)

  predicate TurnOk(p: Parser, t: Turn) {
    match t
    case TakeHeader => p.counter == 0 && |p.rbuf| >= COUNTER_SIZE
    case EmitWhole => p.counter > 0 && p.atomic && |p.rbuf| >= p.counter
    case EmitPart(n) => p.counter > 0 && !p.atomic && 0 < n <= Min(p.counter, |p.rbuf|)
  }

  function Drop(p: Parser, n: nat): (q: Parser)
    requires n <= |p.rbuf|
  {
    p.(rbuf := p.rbuf[n..], taken := p.taken + p.rbuf[..n])
  }

  /** A vfs_write that took the next n bytes. */
  function Emit(p: Parser, n: nat): (q: Parser)
    requires n <= p.counter && n <= |p.rbuf|
  {
    Drop(p, n).(counter := p.counter - n, cur := p.cur + [p.rbuf[..n]])
  }

  /** Bookkeeping when a record ends, that is, when the counter returns to zero. */
  function Finish(p: Parser): (q: Parser) {
    if p.counter == 0 then p.(outs := p.outs + [p.cur], cur := []) else p
  }

  function Do(p: Parser, t: Turn): (q: Parser)
    requires TurnOk(p, t)
  {
    match t
    case TakeHeader =>
      var size := FromLe(p.rbuf[..COUNTER_SIZE]);
      Finish(Drop(p, COUNTER_SIZE).(counter := size, atomic := size <= PIPE_BUF))
    case EmitWhole =>
      Finish(Emit(p, p.counter))
    case EmitPart(n) =>
      Finish(Emit(p, n))
  }

  predicate TurnsOk(p: Parser, ts: seq<Turn>)
    decreases ts
  {
    ts == [] || (TurnOk(p, ts[0]) && TurnsOk(Do(p, ts[0]), ts[1..]))
  }

  function DoAll(p: Parser, ts: seq<Turn>): (q: Parser)
    requires TurnsOk(p, ts)
    decreases ts
  {
    if ts == [] then p else DoAll(Do(p, ts[0]), ts[1..])
  }

  // ----- what the parser keeps -----------------------------------------------

  /** The vfs_writes ws hand over exactly r, and a record that fits a pipe atom in one. */
  ghost predicate Emits(ws: seq<seq<byte>>, r: seq<byte>) {
    && Flat(ws) == r
    && (|r| == 0 ==> ws == [])
    && (0 < |r| <= PIPE_BUF ==> ws == [r])
  }

  ghost predicate DoneOk(p: Parser, records: seq<seq<byte>>) {
    |p.outs| <= |records| && forall i :: 0 <= i < |p.outs| ==> Emits(p.outs[i], records[i])
  }

  /** Bytes of the stream that belong to the record in progress and are consumed. */
  ghost function Started(p: Parser, r: seq<byte>): (s: seq<byte>)
    requires p.counter <= |r|
  {
    Le(|r|, COUNTER_SIZE) + r[..|r| - p.counter]
  }

  /** The consumed and emitted bytes of the record in progress, possibly all of it. */
  ghost predicate Midway(p: Parser, records: seq<seq<byte>>) {
    var done := |p.outs|;
    && done < |records| && p.counter <= |records[done]|
    && p.taken == Encode(records[..done]) + Started(p, records[done])
    && Flat(p.cur) == records[done][..|records[done]| - p.counter]
  }

  ghost predicate CurrentOk(p: Parser, records: seq<seq<byte>>)
    requires |p.outs| <= |records|
  {
    if p.counter == 0 then
      p.cur == [] && p.taken == Encode(records[..|p.outs|])
    else
      && Midway(p, records)
      && p.atomic == (|records[|p.outs|]| <= PIPE_BUF)
      && (p.atomic ==> p.counter == |records[|p.outs|]| && p.cur == [])
  }

  /** What was consumed and emitted, relative to the records that entered the stream. */
  ghost predicate ParserOk(p: Parser, records: seq<seq<byte>>) {
    && (forall i :: 0 <= i < |records| ==> |records[i]| <= BUF_SIZE)
    && DoneOk(p, records)
    && CurrentOk(p, records)
  }

  /** rest is the part of the stream that has not reached the read buffer yet. */
  ghost predicate ParserInv(p: Parser, records: seq<seq<byte>>, rest: seq<byte>) {
    && Encode(records) == p.taken + (p.rbuf + rest)
    && ParserOk(p, records)
  }

  lemma MoreRecords(p: Parser, records: seq<seq<byte>>, payload: seq<byte>)
    requires ParserOk(p, records) && |payload| <= BUF_SIZE
    ensures ParserOk(p, records + [payload])
  {
    assert (records + [payload])[..|p.outs|] == records[..|p.outs|];
  }

  /** Between records the unread stream starts with the next record. */
  lemma NextHeader(p: Parser, records: seq<seq<byte>>, rest: seq<byte>)
    requires ParserInv(p, records, rest) && p.counter == 0
    ensures p.rbuf != [] ==> |p.outs| < |records|
    ensures |p.outs| < |records| ==> Record(records[|p.outs|]) <= p.rbuf + rest
  {
    var done := |p.outs|;
    if done == |records| {
      assert records[..done] == records;
    } else {
      EncodeSplit(records, done);
      Cancel(p.taken, Record(records[done]), p.rbuf + rest);
    }
  }

  /** Inside a record the unread stream starts with the rest of it. */
  lemma NextPayload(p: Parser, records: seq<seq<byte>>, rest: seq<byte>)
    requires ParserInv(p, records, rest) && p.counter > 0
    ensures records[|p.outs|][|records[|p.outs|]| - p.counter..] <= p.rbuf + rest
  {
    hide Encode, Le, Flat, DoneOk, Emits;
    var done := |p.outs|;
    var r := records[done];
    var left := r[|r| - p.counter..];
    EncodeSplit(records, done);
    Extend(Encode(records[..done]), Le(|r|, COUNTER_SIZE), r, |r| - p.counter, p.counter);
    assert r[..|r|] == r && r[|r| - p.counter..|r|] == left;
    Cancel(p.taken, left, p.rbuf + rest);
  }

  lemma Extend(base: seq<byte>, head: seq<byte>, r: seq<byte>, from: nat, n: nat)
    requires from + n <= |r|
    ensures r[..from] + r[from..from + n] == r[..from + n]
    ensures (base + (head + r[..from])) + r[from..from + n] == base + (head + r[..from + n])
  {
    assert r[..from] + r[from..from + n] == r[..from + n];
    assert head + r[..from] + r[from..from + n] == head + r[..from + n];
  }

  lemma Cancel(a: seq<byte>, b: seq<byte>, c: seq<byte>)
    requires a + b <= a + c
    ensures b <= c
  {
    assert (a + b)[|a|..] == b;
    assert (a + c)[|a|..] == c;
  }

  lemma DropKeepsStream(p: Parser, n: nat, rest: seq<byte>)
    requires n <= |p.rbuf|
    ensures Drop(p, n).taken + (Drop(p, n).rbuf + rest) == p.taken + (p.rbuf + rest)
  {
    assert p.rbuf == p.rbuf[..n] + p.rbuf[n..];
    assert p.taken + (p.rbuf[..n] + p.rbuf[n..] + rest) == (p.taken + p.rbuf[..n]) + (p.rbuf[n..] + rest);
  }

  /** Closing a record whose bytes are all consumed. */
  lemma FinishKeeps(p: Parser, records: seq<seq<byte>>)
    requires DoneOk(p, records) && Midway(p, records) && p.counter == 0
    requires Emits(p.cur, records[|p.outs|])
    ensures DoneOk(Finish(p), records) && CurrentOk(Finish(p), records)
  {
    var done := |p.outs|;
    var r := records[done];
    assert r[..|r|] == r;
    assert Started(p, r) == Record(r);
    assert records[..done + 1][..done] == records[..done];
  }

  lemma HeaderKeeps(p: Parser, records: seq<seq<byte>>, rest: seq<byte>)
    requires ParserInv(p, records, rest) && TurnOk(p, TakeHeader)
    ensures ParserInv(Do(p, TakeHeader), records, rest)
  {
    var r := HeaderIsSize(p, records, rest);
    DropKeepsStream(p, COUNTER_SIZE, rest);
    var q := Drop(p, COUNTER_SIZE).(counter := |r|, atomic := |r| <= PIPE_BUF);
    assert Started(q, r) == p.rbuf[..COUNTER_SIZE];
    if |r| == 0 {
      FinishKeeps(q, records);
    }
  }

  lemma HeaderIsSize(p: Parser, records: seq<seq<byte>>, rest: seq<byte>) returns (r: seq<byte>)
    requires ParserInv(p, records, rest) && TurnOk(p, TakeHeader)
    ensures |p.outs| < |records| && r == records[|p.outs|]
    ensures p.rbuf[..COUNTER_SIZE] == Le(|r|, COUNTER_SIZE)
    ensures FromLe(p.rbuf[..COUNTER_SIZE]) == |r|
  {
    NextHeader(p, records, rest);
    r := records[|p.outs|];
    assert Record(r)[..COUNTER_SIZE] == Le(|r|, COUNTER_SIZE);
    assert (p.rbuf + rest)[..COUNTER_SIZE] == p.rbuf[..COUNTER_SIZE];
    Pow256Values();
    LeRoundTrip(|r|, COUNTER_SIZE);
  }

  /** The next n bytes of the read buffer are the next n bytes of the current record. */
  lemma CurrentBytes(p: Parser, records: seq<seq<byte>>, rest: seq<byte>, n: nat)
    requires ParserInv(p, records, rest) && 0 < n <= p.counter && n <= |p.rbuf|
    ensures p.rbuf[..n] == records[|p.outs|][|records[|p.outs|]| - p.counter..|records[|p.outs|]| - p.counter + n]
  {
    NextPayload(p, records, rest);
    var r := records[|p.outs|];
    assert (p.rbuf + rest)[..n] == p.rbuf[..n];
    assert r[|r| - p.counter..][..n] == r[|r| - p.counter..|r| - p.counter + n];
  }

  lemma EmitMidway(p: Parser, records: seq<seq<byte>>, rest: seq<byte>, n: nat)
    requires ParserInv(p, records, rest) && 0 < n <= p.counter && n <= |p.rbuf|
    ensures Midway(Emit(p, n), records)
  {
    hide Encode, Le, Flat, DoneOk, Started;
    var r := records[|p.outs|];
    CurrentBytes(p, records, rest, n);
    MidwayOn(p, records, r, n);
  }

  lemma MidwayOn(p: Parser, records: seq<seq<byte>>, r: seq<byte>, n: nat)
    requires Midway(p, records) && r == records[|p.outs|] && n <= p.counter && n <= |p.rbuf|
    requires p.rbuf[..n] == r[|r| - p.counter..|r| - p.counter + n]
    ensures Midway(Emit(p, n), records)
  {
    hide Encode, Le, Flat;
    FlatSnoc(p.cur, p.rbuf[..n]);
    Extend(Encode(records[..|p.outs|]), Le(|r|, COUNTER_SIZE), r, |r| - p.counter, n);
  }

  lemma EmitKeeps(p: Parser, records: seq<seq<byte>>, rest: seq<byte>, n: nat)
    requires ParserInv(p, records, rest) && 0 < n <= p.counter && n <= |p.rbuf|
    requires p.atomic ==> n == p.counter
    ensures ParserInv(Finish(Emit(p, n)), records, rest)
  {
    var q := Emit(p, n);
    var r := records[|p.outs|];
    DropKeepsStream(p, n, rest);
    EmitMidway(p, records, rest, n);
    if q.counter == 0 {
      assert r[..|r|] == r;
      if p.atomic {
        assert q.cur == [r] by {
          CurrentBytes(p, records, rest, n);
        }
      }
      FinishKeeps(q, records);
    }
  }

  lemma DoKeeps(p: Parser, t: Turn, records: seq<seq<byte>>, rest: seq<byte>)
    requires ParserInv(p, records, rest) && TurnOk(p, t)
    ensures ParserInv(Do(p, t), records, rest)
  {
    match t
    case TakeHeader => HeaderKeeps(p, records, rest);
    case EmitWhole => EmitKeeps(p, records, rest, p.counter);
    case EmitPart(n) => EmitKeeps(p, records, rest, n);
  }

  lemma {:induction false} DoAllKeeps(p: Parser, ts: seq<Turn>, records: seq<seq<byte>>, rest: seq<byte>)
    requires ParserInv(p, records, rest) && TurnsOk(p, ts)
    ensures ParserInv(DoAll(p, ts), records, rest)
    decreases ts
  {
    if ts != [] {
      DoKeeps(p, ts[0], records, rest);
      DoAllKeeps(Do(p, ts[0]), ts[1..], records, rest);
    }
  }

  /** q follows p by moving the oldest bytes of the read buffer to the consumed side. */
  ghost predicate Moved(p: Parser, q: Parser) {
    && |q.rbuf| <= |p.rbuf|
    && q.rbuf == p.rbuf[|p.rbuf| - |q.rbuf|..]
    && q.taken == p.taken + p.rbuf[..|p.rbuf| - |q.rbuf|]
  }

  lemma MovedTwice(p: Parser, m: Parser, q: Parser)
    requires Moved(p, m) && Moved(m, q)
    ensures Moved(p, q)
  {
    var a, b := |p.rbuf| - |m.rbuf|, |m.rbuf| - |q.rbuf|;
    assert p.rbuf[a..][b..] == p.rbuf[a + b..];
    assert p.rbuf[..a] + p.rbuf[a..][..b] == p.rbuf[..a + b];
  }

  lemma DoMoves(p: Parser, t: Turn)
    requires TurnOk(p, t)
    ensures Moved(p, Do(p, t)) && |Do(p, t).rbuf| < |p.rbuf|
  {
    hide FromLe;
  }

  /** A pass only moves bytes from the front of the read buffer to the consumed side. */
  lemma {:induction false} DoAllMoves(p: Parser, ts: seq<Turn>)
    requires TurnsOk(p, ts)
    ensures Moved(p, DoAll(p, ts))
    decreases ts
  {
    if ts != [] {
      DoMoves(p, ts[0]);
      DoAllMoves(Do(p, ts[0]), ts[1..]);
      MovedTwice(p, Do(p, ts[0]), DoAll(p, ts));
    }
  }
}
