/** The MCU half of the bridge (firmware/bridge.c): a four-state machine driven
    by the SYNC line and by completions of the bridge's receive DMA. Each
    handler invocation is one atomic step on an explicit state record, and the
    hardware it drives (DMA chains, the IRQ line, the channel callbacks and
    `invalid()`) appears as emitted actions. */
module BridgeMcu {
  import opened Common
  import opened BridgeProtocol

  datatype Phase = Disable | Idle | Ctrl | Data

  /** Identifies a buffer handed over by `bridge_start_in` / `bridge_start_out`. */
  type BufId = nat

  /** The engine's globals: `bridge_state`, `ctrl_rx`, `ctrl_tx`, the buffers
      posted per channel, `in_chan_size`, `out_chan_ready` and the IRQ line. */
  datatype Mcu = Mcu(
    phase: Phase,
    ctrlRx: ControlPkt,
    ctrlTx: ControlPkt,
    inChanPtr: seq<BufId>,
    inChanSize: seq<Byte>,
    outChanPtr: seq<BufId>,
    outChanReady: Byte,
    irqHigh: bool)

  predicate Valid(m: Mcu)
  {
    && WellFormed(m.ctrlRx) && WellFormed(m.ctrlTx)
    && |m.inChanPtr| == NumChan && |m.inChanSize| == NumChan && |m.outChanPtr| == NumChan
  }

  datatype Action =
    | Invalid
    | StartControlDma(chain: seq<Segment>)
    | StartDataDma(plan: seq<Descriptor>)
    | AbortBridgeDma
    | CompletionOut(chan: nat, size: Byte)
    | CompletionIn(chan: nat)

  /** The zero-initialised globals before `bridge_init`. */
  function PowerOn(): (m: Mcu)
    ensures Valid(m) && m.phase == Disable && !m.irqHigh
  {
    var zero := ControlPkt(0, 0, Zeros(NumChan));
    Mcu(Disable, zero, zero, seq(NumChan, _ => 0), Zeros(NumChan), seq(NumChan, _ => 0), 0, false)
  }

  /** bridge_init: configures the peripherals, drives IRQ low and enters IDLE. */
  function Init(m: Mcu): (r: Mcu)
    requires Valid(m)
    ensures Valid(r) && r.phase == Idle && !r.irqHigh
    ensures r.inChanSize == m.inChanSize && r.outChanReady == m.outChanReady
  {
    m.(phase := Idle, irqHigh := false)
  }

  /** bridge_disable: from any state, IRQ low and DISABLE. */
  function DisableBridge(m: Mcu): (r: Mcu)
    requires Valid(m)
    ensures Valid(r) && r.phase == Disable && !r.irqHigh
    ensures r.inChanSize == m.inChanSize && r.outChanReady == m.outChanReady
  {
    m.(phase := Disable, irqHigh := false)
  }

  // ---------------------------------------------------------------------------
  // Control phase

  /** The MCU's half of the header exchange: receive the SoC's header into
      `ctrl_rx` while shifting out filler, then shift out `ctrl_tx` while
      discarding what comes in. */
  function ControlChain(ctrlTx: ControlPkt): (r: seq<Segment>)
    requires WellFormed(ctrlTx)
    ensures ChainOk(r)
  {
    [Segment(HeaderLen, None, true), Segment(HeaderLen, Some(Encode(ctrlTx)), false)]
  }

  /** bridge_handle_sync. `syncLow` is the level read from the SYNC pin. On a
      falling edge the MCU prepares its header from what is posted and starts
      the control exchange, whatever state it was in. */
  function HandleSync(m: Mcu, syncLow: bool): (r: (Mcu, seq<Action>))
    requires Valid(m)
    ensures Valid(r.0)
    ensures !syncLow ==> r == (m, [])
    ensures syncLow ==>
      && r.0.phase == Ctrl
      && r.0.ctrlRx.cmd == 0 && r.0.ctrlTx.cmd == CmdAck
      && r.0.ctrlTx.status == m.outChanReady
      && r.0.ctrlTx.sizes == m.inChanSize
      && r.0.ctrlRx.status == m.ctrlRx.status && r.0.ctrlRx.sizes == m.ctrlRx.sizes
      && r.0.inChanSize == m.inChanSize && r.0.outChanReady == m.outChanReady
      && r.0.irqHigh == m.irqHigh
      && r.1 == [AbortBridgeDma, StartControlDma(ControlChain(r.0.ctrlTx))]
  {
    if syncLow then
      var tx := ControlPkt(CmdAck, m.outChanReady, m.inChanSize);
      var m' := m.(ctrlRx := m.ctrlRx.(cmd := 0), ctrlTx := tx, phase := Ctrl);
      (m', [AbortBridgeDma, StartControlDma(ControlChain(tx))])
    else
      (m, [])
  }

  // ---------------------------------------------------------------------------
  // The MCU's plan

  /** The descriptor loop of bridge_dma_rx_completion, from channel `c` on: a
      receive when the MCU posted a buffer and the SoC has data, then a send
      when the SoC is ready and the MCU has data. */
  function McuPlanFrom(ctrlRx: ControlPkt, ctrlTx: ControlPkt, c: nat): (r: seq<Descriptor>)
    requires WellFormed(ctrlRx) && WellFormed(ctrlTx) && c <= NumChan
    ensures |r| <= 2 * (NumChan - c)
    decreases NumChan - c
  {
    if c == NumChan then []
    else
      (if HasBit(ctrlTx.status, c) && ctrlRx.sizes[c] > 0 then [Descriptor(c, ToMcu, ctrlRx.sizes[c])] else [])
      + (if HasBit(ctrlRx.status, c) && ctrlTx.sizes[c] > 0 then [Descriptor(c, ToSoc, ctrlTx.sizes[c])] else [])
      + McuPlanFrom(ctrlRx, ctrlTx, c + 1)
  }

  function McuPlan(ctrlRx: ControlPkt, ctrlTx: ControlPkt): (r: seq<Descriptor>)
    requires WellFormed(ctrlRx) && WellFormed(ctrlTx)
    ensures |r| <= 2 * NumChan
  {
    McuPlanFrom(ctrlRx, ctrlTx, 0)
  }

  /** The MCU's plan lists exactly the selected transfers of the header pair
      (`ctrl_rx` being the SoC's header, `ctrl_tx` its own), in rank order. */
  lemma {:induction false} McuPlanFromIsPlan(ctrlRx: ControlPkt, ctrlTx: ControlPkt, c: nat)
    requires WellFormed(ctrlRx) && WellFormed(ctrlTx) && c <= NumChan
    ensures PlanAbove(ctrlRx, ctrlTx, McuPlanFrom(ctrlRx, ctrlTx, c), 2 * c)
    decreases NumChan - c
  {
    if c < NumChan {
      McuPlanFromIsPlan(ctrlRx, ctrlTx, c + 1);
      McuBlock(ctrlRx, ctrlTx, c);
      BlockThenPlan(ctrlRx, ctrlTx, c, McuPlanFrom(ctrlRx, ctrlTx, c + 1), McuPlanFrom(ctrlRx, ctrlTx, c));
    }
  }

  /** Channel `c`'s part of the MCU's plan is that channel's block. */
  lemma McuBlock(ctrlRx: ControlPkt, ctrlTx: ControlPkt, c: nat)
    requires WellFormed(ctrlRx) && WellFormed(ctrlTx) && c < NumChan
    ensures McuPlanFrom(ctrlRx, ctrlTx, c) == Block(ctrlRx, ctrlTx, c) + McuPlanFrom(ctrlRx, ctrlTx, c + 1)
  {
  }

  lemma McuPlanIsPlan(ctrlRx: ControlPkt, ctrlTx: ControlPkt)
    requires WellFormed(ctrlRx) && WellFormed(ctrlTx)
    ensures IsPlanFor(ctrlRx, ctrlTx, McuPlan(ctrlRx, ctrlTx))
  {
    McuPlanFromIsPlan(ctrlRx, ctrlTx, 0);
  }

  /** The MCU's half of the data message (bridge.c:123-143): a receive lets
      the DMA write into the buffer posted by `bridge_start_out` while it
      shifts out filler; a send shifts out the first `size` bytes of the
      buffer posted by `bridge_start_in`, whose contents are `inData[c]`. */
  function DataChain(plan: seq<Descriptor>, inData: seq<seq<Byte>>): (r: seq<Segment>)
    requires BufsCover(plan, ToSoc, inData)
    ensures ChainOk(r) && |r| == |plan|
    ensures forall i :: 0 <= i < |plan| ==> r[i].len == plan[i].len as int && (r[i].keep <==> plan[i].dir == ToMcu)
  {
    PlanChain(plan, ToSoc, inData)
  }

  // ---------------------------------------------------------------------------
  // DMA completion

  /** The out-completions of the data phase, channels `c`..NumChan-1 in order,
      and the ready mask they leave behind. */
  function OutCompletions(m: Mcu, c: nat): (r: (Byte, seq<Action>))
    requires Valid(m) && c <= NumChan
    ensures forall d :: 0 <= d < 8 ==>
      (HasBit(r.0, d) <==> HasBit(m.outChanReady, d) && !(c <= d < NumChan && Selected(m.ctrlRx, m.ctrlTx, d, ToMcu)))
    ensures forall i :: 0 <= i < |r.1| ==>
      (r.1[i].CompletionOut? && c <= r.1[i].chan < NumChan
       && Selected(m.ctrlRx, m.ctrlTx, r.1[i].chan, ToMcu) && r.1[i].size == m.ctrlRx.sizes[r.1[i].chan])
    ensures forall d :: c <= d < NumChan && Selected(m.ctrlRx, m.ctrlTx, d, ToMcu) ==>
      CompletionOut(d, m.ctrlRx.sizes[d]) in r.1
    decreases NumChan - c
  {
    if c == NumChan then (m.outChanReady, [])
    else
      var rest := OutCompletions(m, c + 1);
      if HasBit(m.ctrlTx.status, c) && m.ctrlRx.sizes[c] > 0 then
        (ClearBit(rest.0, c), [CompletionOut(c, m.ctrlRx.sizes[c])] + rest.1)
      else
        rest
  }

  /** The in-completions of the data phase, channels 0..NumChan-1 in order. */
  function InCompletions(m: Mcu, c: nat): (r: (seq<Byte>, seq<Action>))
    requires Valid(m) && c <= NumChan
    ensures |r.0| == NumChan
    ensures forall d :: 0 <= d < NumChan ==>
      r.0[d] == (if c <= d && Selected(m.ctrlRx, m.ctrlTx, d, ToSoc) then 0 else m.inChanSize[d])
    ensures forall i :: 0 <= i < |r.1| ==>
      (r.1[i].CompletionIn? && c <= r.1[i].chan < NumChan && Selected(m.ctrlRx, m.ctrlTx, r.1[i].chan, ToSoc))
    ensures forall d :: c <= d < NumChan && Selected(m.ctrlRx, m.ctrlTx, d, ToSoc) ==> CompletionIn(d) in r.1
    decreases NumChan - c
  {
    if c == NumChan then (m.inChanSize, [])
    else
      var rest := InCompletions(m, c + 1);
      if HasBit(m.ctrlRx.status, c) && m.ctrlTx.sizes[c] > 0 then
        (rest.0[c := 0], [CompletionIn(c)] + rest.1)
      else
        rest
  }

  /** bridge_dma_rx_completion. `received` is the header the control DMA has
      written into `ctrl_rx` by the time the completion fires in CTRL. */
  function DmaRxCompletion(m: Mcu, received: ControlPkt): (r: (Mcu, seq<Action>))
    requires Valid(m) && WellFormed(received)
    ensures Valid(r.0)
    ensures m.phase in {Disable, Idle} ==> r == (m, [])
    ensures m.phase == Ctrl && received.cmd != CmdRequest ==>
      r == (m.(ctrlRx := received, phase := Idle), [Invalid])
    ensures m.phase == Ctrl && received.cmd == CmdRequest ==>
      var plan := McuPlan(received, m.ctrlTx);
      && r.0 == m.(ctrlRx := received, phase := if |plan| > 0 then Data else Idle, irqHigh := false)
      && r.1 == (if |plan| > 0 then [StartDataDma(plan)] else [])
    ensures m.phase == Data ==> r == DataDone(m)
  {
    match m.phase
    case Disable => (m, [])
    case Idle => (m, [])
    case Ctrl =>
      if received.cmd != CmdRequest then
        (m.(ctrlRx := received, phase := Idle), [Invalid])
      else
        var plan := McuPlan(received, m.ctrlTx);
        var m' := m.(ctrlRx := received, phase := if |plan| > 0 then Data else Idle, irqHigh := false);
        (m', if |plan| > 0 then [StartDataDma(plan)] else [])
    case Data => DataDone(m)
  }

  /** The DATA branch of bridge_dma_rx_completion: the out-completions, then
      the in-completions, then IDLE. Nothing but the ready mask, the sizes and
      the phase changes. */
  function DataDone(m: Mcu): (r: (Mcu, seq<Action>))
    requires Valid(m)
    ensures Valid(r.0) && r.0.phase == Idle
    ensures r.0.(outChanReady := m.outChanReady, inChanSize := m.inChanSize, phase := m.phase) == m
    ensures forall a :: a in r.1 ==> a.CompletionOut? || a.CompletionIn?
  {
    var outs := OutCompletions(m, 0);
    var ins := InCompletions(m, 0);
    (m.(outChanReady := outs.0, inChanSize := ins.0, phase := Idle), outs.1 + ins.1)
  }

  /** After the data phase, exactly the channels the plan received on have their
      ready bit cleared, and exactly the channels the plan sent on have their
      size zeroed; every other channel and every bit above the channels is
      untouched. */
  lemma DataCompletionBookkeeping(m: Mcu)
    requires Valid(m)
    ensures var r := DataDone(m).0;
      var plan := McuPlan(m.ctrlRx, m.ctrlTx);
      && (forall c :: 0 <= c < NumChan ==>
            (HasBit(r.outChanReady, c) <==> HasBit(m.outChanReady, c) && !Listed(plan, c, ToMcu)))
      && (forall c :: NumChan <= c < 8 ==> (HasBit(r.outChanReady, c) <==> HasBit(m.outChanReady, c)))
      && (forall c :: 0 <= c < NumChan ==>
            r.inChanSize[c] == if Listed(plan, c, ToSoc) then 0 else m.inChanSize[c])
  {
    McuPlanIsPlan(m.ctrlRx, m.ctrlTx);
    PlanListsSelected(m.ctrlRx, m.ctrlTx, McuPlan(m.ctrlRx, m.ctrlTx));
  }

  /** The data phase's callbacks are exactly one out-completion per planned
      receive, carrying the planned size, and one in-completion per planned send. */
  lemma DataCompletionCallbacks(m: Mcu)
    requires Valid(m)
    ensures var acts := DataDone(m).1;
      var plan := McuPlan(m.ctrlRx, m.ctrlTx);
      && (forall c: nat, s: Byte :: CompletionOut(c, s) in acts <==> Descriptor(c, ToMcu, s) in plan)
      && (forall c: nat :: CompletionIn(c) in acts <==> Listed(plan, c, ToSoc))
  {
    var plan := McuPlan(m.ctrlRx, m.ctrlTx);
    var acts := DataDone(m).1;
    McuPlanIsPlan(m.ctrlRx, m.ctrlTx);
    PlanListsSelected(m.ctrlRx, m.ctrlTx, plan);
    OutCallbacks(m);
    InCallbacks(m);
  }

  lemma OutCallbacks(m: Mcu)
    requires Valid(m)
    ensures var acts := DataDone(m).1;
      forall c: nat, s: Byte :: CompletionOut(c, s) in acts <==>
        c < NumChan && Selected(m.ctrlRx, m.ctrlTx, c, ToMcu) && s == m.ctrlRx.sizes[c]
  {
    var outs := OutCompletions(m, 0).1;
    var ins := InCompletions(m, 0).1;
    assert DataDone(m).1 == outs + ins;
    forall c: nat, s: Byte | CompletionOut(c, s) in outs + ins
      ensures CompletionOut(c, s) in outs
    {
      assert CompletionOut(c, s) !in ins;
    }
  }

  lemma InCallbacks(m: Mcu)
    requires Valid(m)
    ensures var acts := DataDone(m).1;
      forall c: nat :: CompletionIn(c) in acts <==> c < NumChan && Selected(m.ctrlRx, m.ctrlTx, c, ToSoc)
  {
    var outs := OutCompletions(m, 0).1;
    var ins := InCompletions(m, 0).1;
    assert DataDone(m).1 == outs + ins;
    forall c: nat | CompletionIn(c) in outs + ins
      ensures CompletionIn(c) in ins
    {
      assert CompletionIn(c) !in outs;
    }
  }

  // ---------------------------------------------------------------------------
  // Posting buffers

  /** bridge_start_in: channel `c` has `length` bytes for the SoC. Only that
      channel's buffer and size change, and IRQ is raised. */
  function StartIn(m: Mcu, c: nat, data: BufId, length: Byte): (r: Mcu)
    requires Valid(m) && c < NumChan
    ensures Valid(r) && r.irqHigh
    ensures r.inChanPtr[c] == data && r.inChanSize[c] == length
    ensures forall d :: 0 <= d < NumChan && d != c ==>
      r.inChanPtr[d] == m.inChanPtr[d] && r.inChanSize[d] == m.inChanSize[d]
    ensures r.(inChanPtr := m.inChanPtr, inChanSize := m.inChanSize, irqHigh := m.irqHigh) == m
  {
    m.(inChanPtr := m.inChanPtr[c := data], inChanSize := m.inChanSize[c := length], irqHigh := true)
  }

  /** bridge_start_out: channel `c` has a buffer posted for data from the SoC.
      Only that channel's buffer and ready bit change, and IRQ is raised. */
  function StartOut(m: Mcu, c: nat, data: BufId): (r: Mcu)
    requires Valid(m) && c < NumChan
    ensures Valid(r) && r.irqHigh
    ensures r.outChanPtr[c] == data
    ensures forall d :: 0 <= d < NumChan && d != c ==> r.outChanPtr[d] == m.outChanPtr[d]
    ensures forall d :: 0 <= d < 8 ==> (HasBit(r.outChanReady, d) <==> d == c || HasBit(m.outChanReady, d))
    ensures r.(outChanPtr := m.outChanPtr, outChanReady := m.outChanReady, irqHigh := m.irqHigh) == m
  {
    m.(outChanPtr := m.outChanPtr[c := data], outChanReady := SetBit(m.outChanReady, c), irqHigh := true)
  }
}
