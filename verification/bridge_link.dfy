/** The two halves of the bridge run against each other over one SPI link:
    the SoC daemon (soc/spid.c) is the SPI master and the MCU firmware
    (firmware/bridge.c) the slave. Each exchange is a header message and, if
    either side has something to move, a data message; both sides derive the
    data message's layout independently from the header pair. These lemmas
    show that the derivations agree and that every byte reaches the buffer
    of the right channel. */
module BridgeLink {
  import opened Common
  import opened BridgeProtocol
  import M = BridgeMcu
  import S = SpiDaemon

  /** The header message: the SoC shifts out its header while the MCU shifts
      out filler, then the MCU shifts out `ctrl_tx` while the SoC listens.
      Each side keeps exactly the other's encoded header, which decodes back
      to that header. */
  lemma HeaderExchange(h: ControlPkt, tx: ControlPkt)
    requires WellFormed(h) && WellFormed(tx)
    ensures TotalLen(M.ControlChain(tx)) == TotalLen(S.HeaderChain(h))
    ensures Kept(M.ControlChain(tx), Outgoing(S.HeaderChain(h))) == [Encode(h)]
    ensures Kept(S.HeaderChain(h), Outgoing(M.ControlChain(tx))) == [Encode(tx)]
    ensures Decode(Encode(h)) == Some(h) && Decode(Encode(tx)) == Some(tx)
  {
    var a := M.ControlChain(tx);
    var b := S.HeaderChain(h);
    KeptLockstep(a, b);
    KeptLockstep(b, a);
    assert a[1..][1..] == [] && b[1..][1..] == [];
    assert Receives(a[1..], b[1..]) == [] + Receives(a[1..][1..], b[1..][1..]) == [];
    assert Receives(a, b) == [Sent(b[0])] + Receives(a[1..], b[1..]);
    assert Receives(b[1..], a[1..]) == [Sent(a[1])] + Receives(b[1..][1..], a[1..][1..]);
    assert Receives(b, a) == [] + Receives(b[1..], a[1..]);
    DecodeEncode(h);
    DecodeEncode(tx);
  }

  /** Both sides' plans are plans for the same header pair (the SoC's header
      and the MCU's `ctrl_tx`), and such a plan is unique: the MCU's DMA chain
      and the SoC's transfer array list the same descriptors. */
  lemma PlansAgree(s: S.Soc, tx: ControlPkt)
    requires S.Inv(s) && WellFormed(tx)
    ensures M.McuPlan(S.SocHeader(s), tx) == S.SocPlan(s, tx)
  {
    S.SocPlanIsPlan(s, tx);
    M.McuPlanIsPlan(S.SocHeader(s), tx);
    PlanUnique(S.SocHeader(s), tx, M.McuPlan(S.SocHeader(s), tx), S.SocPlan(s, tx));
  }

  /** When the MCU's control DMA completes with the SoC's header in
      `ctrl_rx`, it starts a data DMA with exactly the SoC's plan, and enters
      the data phase exactly when the SoC goes on to the data message. */
  lemma McuFollowsSoc(s: S.Soc, m: M.Mcu)
    requires S.Inv(s) && M.Valid(m) && m.phase == M.Ctrl
    ensures var plan := S.SocPlan(s, m.ctrlTx);
      var r := M.DmaRxCompletion(m, S.SocHeader(s));
      && (r.0.phase == M.Data <==> |plan| > 0)
      && r.1 == (if |plan| > 0 then [M.StartDataDma(plan)] else [])
  {
    PlansAgree(s, m.ctrlTx);
  }

  /** The MCU's posted send buffers `inData` hold what it declared. */
  predicate InBuffersHold(m: M.Mcu, inData: seq<seq<Byte>>)
    requires M.Valid(m)
  {
    |inData| == NumChan && forall c :: 0 <= c < NumChan ==> m.inChanSize[c] as int <= |inData[c]|
  }

  /** When the MCU's posted send buffers hold what it declared, they cover
      every send descriptor of the plan. */
  lemma InBuffersCover(s: S.Soc, m: M.Mcu, inData: seq<seq<Byte>>)
    requires S.Inv(s) && M.Valid(m) && m.ctrlTx.sizes == m.inChanSize && InBuffersHold(m, inData)
    ensures BufsCover(S.SocPlan(s, m.ctrlTx), ToSoc, inData)
  {
    S.SocPlanIsPlan(s, m.ctrlTx);
    PlanCovered(S.SocHeader(s), m.ctrlTx, S.SocPlan(s, m.ctrlTx), ToSoc, inData);
  }

  /** The data message, SoC to MCU: the MCU keeps, in order, the SoC's
      pending bytes of every selected channel, each transfer naming the
      channel whose posted buffer receives it. */
  lemma McuReceives(s: S.Soc, tx: ControlPkt, inData: seq<seq<Byte>>)
    requires S.Inv(s) && WellFormed(tx)
    requires BufsCover(S.SocPlan(s, tx), ToSoc, inData)
    ensures var plan := S.SocPlan(s, tx);
      && TotalLen(M.DataChain(plan, inData)) == TotalLen(S.DataChain(s, plan))
      && Kept(M.DataChain(plan, inData), Outgoing(S.DataChain(s, plan)))
           == Bytes(ChannelTransfers(S.SocHeader(s), tx, ToMcu, S.OutBufs(s), 0))
  {
    var plan := S.SocPlan(s, tx);
    assert M.DataChain(plan, inData) == PlanChain(plan, ToSoc, inData);
    assert S.DataChain(s, plan) == PlanChain(plan, ToMcu, S.OutBufs(s));
    PlanChainsKeep(plan, ToSoc, inData, ToMcu, S.OutBufs(s));
    S.SocPlanIsPlan(s, tx);
    PayloadsByChannel(S.SocHeader(s), tx, plan, ToMcu, S.OutBufs(s));
  }

  /** The data message, MCU to SoC: the SoC keeps, in order, the MCU's posted
      bytes of every selected channel, each transfer naming the channel whose
      `in_buf` receives it. */
  lemma SocReceives(s: S.Soc, tx: ControlPkt, inData: seq<seq<Byte>>)
    requires S.Inv(s) && WellFormed(tx)
    requires BufsCover(S.SocPlan(s, tx), ToSoc, inData)
    ensures var plan := S.SocPlan(s, tx);
      && TotalLen(S.DataChain(s, plan)) == TotalLen(M.DataChain(plan, inData))
      && Kept(S.DataChain(s, plan), Outgoing(M.DataChain(plan, inData)))
           == Bytes(ChannelTransfers(S.SocHeader(s), tx, ToSoc, inData, 0))
  {
    var plan := S.SocPlan(s, tx);
    assert M.DataChain(plan, inData) == PlanChain(plan, ToSoc, inData);
    assert S.DataChain(s, plan) == PlanChain(plan, ToMcu, S.OutBufs(s));
    PlanChainsKeep(plan, ToMcu, S.OutBufs(s), ToSoc, inData);
    S.SocPlanIsPlan(s, tx);
    PayloadsByChannel(S.SocHeader(s), tx, plan, ToSoc, inData);
  }

  /** What the SoC-to-MCU transfers of one exchange are, in the two sides'
      own terms: a channel's pending `out_buf` bytes go across iff the MCU
      has posted a receive buffer (`out_chan_ready`) and something is pending. */
  lemma SocSendsMean(s: S.Soc, m: M.Mcu, c: nat, x: seq<Byte>)
    requires S.Inv(s) && M.Valid(m) && m.ctrlTx.status == m.outChanReady
    ensures Transfer(c, x) in ChannelTransfers(S.SocHeader(s), m.ctrlTx, ToMcu, S.OutBufs(s), 0) <==>
      (c < NumChan && HasBit(m.outChanReady, c) && s.chans[c].outLength > 0
       && x == s.chans[c].outBuf[..s.chans[c].outLength])
  {
    S.HeaderReflectsState(s);
    ChannelTransfersMembers(S.SocHeader(s), m.ctrlTx, ToMcu, S.OutBufs(s), 0, c, x);
  }

  /** What the MCU-to-SoC transfers of one exchange are: the first
      `in_chan_size` bytes of the buffer posted with `bridge_start_in` go
      across iff the socket is writable and that size is positive. */
  lemma McuSendsMean(s: S.Soc, m: M.Mcu, inData: seq<seq<Byte>>, c: nat, x: seq<Byte>)
    requires S.Inv(s) && M.Valid(m) && m.ctrlTx.sizes == m.inChanSize
    requires InBuffersHold(m, inData)
    ensures Transfer(c, x) in ChannelTransfers(S.SocHeader(s), m.ctrlTx, ToSoc, inData, 0) <==>
      (c < NumChan && s.chans[c].writable && m.inChanSize[c] > 0
       && x == inData[c][..m.inChanSize[c]])
  {
    S.HeaderReflectsState(s);
    ChannelTransfersMembers(S.SocHeader(s), m.ctrlTx, ToSoc, inData, 0, c, x);
  }

  /** One complete exchange from the MCU's side: a falling SYNC edge, the
      header message, the control DMA completion. The SoC sees the `0xCA`
      reply it waits for, and the MCU starts the data DMA with the SoC's plan
      exactly when there is data to move. */
  lemma SyncThenHeader(s: S.Soc, m0: M.Mcu)
    requires S.Inv(s) && M.Valid(m0)
    ensures var m1 := M.HandleSync(m0, true).0;
      var h := S.SocHeader(s);
      && m1.ctrlTx.cmd == CmdAck
      && TotalLen(M.ControlChain(m1.ctrlTx)) == TotalLen(S.HeaderChain(h))
      && Kept(M.ControlChain(m1.ctrlTx), Outgoing(S.HeaderChain(h))) == [Encode(h)]
      && Kept(S.HeaderChain(h), Outgoing(M.ControlChain(m1.ctrlTx))) == [Encode(m1.ctrlTx)]
      && var r := M.DmaRxCompletion(m1, h);
         && (r.0.phase == M.Data <==> |S.SocPlan(s, m1.ctrlTx)| > 0)
         && r.1 == (if |S.SocPlan(s, m1.ctrlTx)| > 0 then [M.StartDataDma(S.SocPlan(s, m1.ctrlTx))] else [])
  {
    var m1 := M.HandleSync(m0, true).0;
    HeaderExchange(S.SocHeader(s), m1.ctrlTx);
    McuFollowsSoc(s, m1);
  }
}
