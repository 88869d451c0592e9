// The protocol fits its transport: every message it ever queues has a legal size
// and survives framing, so the queues of the protocol are what a connection carries.

module Transport {
  import opened Bytes
  import opened Streams
  import opened PipeRecords
  import opened Messages
  import opened Files
  import opened Protocol
  import opened Invariant
  import opened ServerPasses
  import opened Runs
  import opened Framing
  import opened WireFormat

  ghost predicate AllFit(q: seq<Msg>) {
    forall m :: m in q ==> Fits(m)
  }

  ghost predicate Carried(w: World) {
    AllFit(w.c2s) && AllFit(w.s2c) && (w.phase.AckPending? ==> w.phase.n <= BUF_SIZE)
  }

  lemma ClientFits(w: World, a: Action)
    requires Inv(w) && Enabled(w, a) && Carried(w)
    requires !a.ActServerReceive? && !a.ActServe? && !a.ActFlush?
    ensures Carried(Step(w, a))
  {
    hide Inv;
    match a
    case ActRead(count) => ReadFits(w, count);
    case ActClientReceive => ClientReceiveFits(w);
    case _ => CallerFits(w, a);
  }

  lemma ReadFits(w: World, count: nat)
    requires Inv(w) && Carried(w)
    ensures Carried(ReadStep(w, count))
  {
    hide FlowInv, ParserOk, ControlOk, EofOk, ClosedOk, Fits;
  }

  lemma ClientReceiveFits(w: World)
    requires Enabled(w, ActClientReceive) && Carried(w)
    ensures Carried(ClientReceive(w))
  {
    hide Fits, Fill, Answers;
  }

  lemma CallerFits(w: World, a: Action)
    requires Enabled(w, a) && Carried(w)
    requires a.ActOpen? || a.ActWrite? || a.ActAck? || a.ActCall? || a.ActClientSend?
    ensures Carried(Step(w, a))
  {
    hide Accept;
  }

  lemma ServeFits(w: World, ts: seq<Turn>, input: Input)
    requires Enabled(w, ActServe(ts, input)) && Carried(w) && Inv(w)
    ensures Carried(Step(w, ActServe(ts, input)))
  {
    hide FlowInv, ParserOk, ControlOk, EofOk, ClosedOk, TurnsOk, DoAll;
    FlowCredit(Up(w));
  }

  lemma FlushFits(w: World, kept: nat)
    requires Enabled(w, ActFlush(kept)) && Carried(w)
    ensures Carried(FlushAll(w, kept))
  {
    hide Chunks;
    if w.s.unconf <= |w.s.wbuf| {
      ChunksData(w.s.wbuf[w.s.unconf..]);
    }
  }

  lemma StepFits(w: World, a: Action)
    requires Inv(w) && Enabled(w, a) && Carried(w)
    ensures Carried(Step(w, a))
  {
    hide Inv, Carried;
    match a
    case ActServe(ts, input) => ServeFits(w, ts, input);
    case ActFlush(kept) => FlushFits(w, kept);
    case ActServerReceive(res) => ReceiveFits(w, res);
    case _ => ClientFits(w, a);
  }

  lemma ReceiveFits(w: World, res: seq<byte>)
    requires Enabled(w, ActServerReceive(res)) && Carried(w)
    ensures Carried(ServerReceive(w, res))
  {
    hide Fill;
  }

  lemma {:induction false} ExecFits(w: World, run: seq<Action>)
    requires Inv(w) && Legal(w, run) && Carried(w)
    ensures Carried(Exec(w, run))
    decreases run
  {
    hide Inv, Step, Enabled, Carried;
    if run != [] {
      StepKeeps(w, run[0]);
      StepFits(w, run[0]);
      ExecFits(Step(w, run[0]), run[1..]);
    }
  }

  /** Every message under way in any run is sendable and arrives as itself. */
  lemma MessagesFit(run: seq<Action>, m: Msg, ident: nat)
    requires Legal(INIT, run) && ident < 0x1_0000_0000
    requires m in Exec(INIT, run).c2s || m in Exec(INIT, run).s2c
    ensures Sendable(ToRaw(m, ident)) && FromRaw(ToRaw(m, ident)) == Some(m)
  {
    hide Inv, Exec, Legal, Sendable, FromRaw, ToRaw, Fits;
    InitInv();
    ExecFits(INIT, run);
    WireRoundTrip(m, ident);
  }
}
