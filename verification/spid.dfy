/** The SoC half of the bridge (soc/spid.c): one iteration of the daemon's
    `poll()` loop as a pure function of the daemon's bookkeeping and of what
    the operating system reports during that iteration (poll readiness, accept,
    read and ioctl results). Sockets, the GPIO lines and the SPI device appear
    as emitted actions. */
module SpiDaemon {
  import opened Common
  import opened BridgeProtocol

  /** One channel: its connection socket (`CONN_POLL(c)`), the listening
      socket's armed events (`SOCK_POLL(c)`), `channels[c]`'s outgoing data,
      and bit `c` of the daemon's `writable` and `channels_open` bytes. */
  datatype Chan = Chan(
    connected: bool,
    listenArmed: bool,
    pollIn: bool,
    pollOut: bool,
    outLength: int,
    outBuf: seq<Byte>,
    writable: bool,
    open: bool)

  /** The daemon's loop state: the channels and `retries`. */
  datatype Soc = Soc(chans: seq<Chan>, retries: int)

  /** What `read` returned on a readable connection: the bytes read (none at
      end of file), or an error. */
  datatype ReadResult = Read(bytes: seq<Byte>) | ReadFailed

  /** What `poll` and the calls that follow it report for one channel. */
  datatype ChanEvents = ChanEvents(
    listenReadable: bool,
    acceptOk: bool,
    connReadable: bool,
    read: ReadResult,
    hangup: bool,
    connWritable: bool)

  /** Everything the environment decides during one iteration. `reply` is the
      header shifted in during the header message; `inBufs[c]` is what the
      data message left in `channels[c].in_buf`. */
  datatype CycleInput = CycleInput(
    pollFailed: bool,
    events: seq<ChanEvents>,
    headerFailed: bool,
    reply: ControlPkt,
    dataFailed: bool,
    inBufs: seq<seq<Byte>>)

  datatype Action =
    | SyncLow
    | SyncHigh
    | CloseConn(chan: nat)
    | SpiMessage(chain: seq<Segment>)
    | SocketWrite(chan: nat, bytes: seq<Byte>)

  datatype Outcome = Running(soc: Soc) | Exit(code: int)

  /** `read(fd, buf, BUFSIZE)` never returns more than BUFSIZE bytes; the
      buffers the data message fills are BUFSIZE bytes long. */
  predicate InputOk(inp: CycleInput)
  {
    && |inp.events| == NumChan && WellFormed(inp.reply) && |inp.inBufs| == NumChan
    && (forall c :: 0 <= c < NumChan ==> inp.events[c].read.Read? ==> |inp.events[c].read.bytes| <= BufSize)
    && (forall c :: 0 <= c < NumChan ==> |inp.inBufs[c]| == BufSize)
  }

  // ---------------------------------------------------------------------------
  // The bookkeeping invariant

  /** What the daemon keeps true of each channel between iterations. */
  predicate ChanOk(ch: Chan)
  {
    && 0 <= ch.outLength <= BufSize && |ch.outBuf| == BufSize
    // the open bit, the connection and the disarmed listener go together
    && (ch.connected <==> ch.open)
    && (ch.connected <==> !ch.listenArmed)
    // pending data and a writable peer exist only on a connection
    && (ch.outLength > 0 ==> ch.connected)
    && (ch.writable ==> ch.connected)
    // POLLIN is armed exactly while nothing waits to be sent, POLLOUT exactly
    // while the socket has not been reported writable
    && (ch.connected ==> (ch.pollIn <==> ch.outLength == 0))
    && (ch.connected ==> (ch.pollOut <==> !ch.writable))
  }

  predicate Inv(s: Soc)
  {
    && |s.chans| == NumChan
    && (forall c :: 0 <= c < NumChan ==> ChanOk(s.chans[c]))
    && 0 <= s.retries <= 500
  }

  /** The state after setup (spid.c:101-136): every listener armed, nothing
      connected, nothing pending. */
  function Start(): (s: Soc)
    ensures Inv(s)
    ensures forall c :: 0 <= c < NumChan ==> s.chans[c].listenArmed && !s.chans[c].connected
  {
    Soc(seq(NumChan, _ => Chan(false, true, false, false, 0, Zeros(BufSize), false, false)), 0)
  }

  /** The `writable` byte: bit `c` set iff channel `c` is writable. */
  function WritableMask(s: Soc): Byte
    requires |s.chans| == NumChan
  {
    Pack(s.chans[0].writable, s.chans[1].writable, s.chans[2].writable)
  }

  /** The `channels_open` byte: bit `c` set iff channel `c` is connected. */
  function OpenMask(s: Soc): Byte
    requires |s.chans| == NumChan
  {
    Pack(s.chans[0].open, s.chans[1].open, s.chans[2].open)
  }

  function Pack(b0: bool, b1: bool, b2: bool): (r: Byte)
    ensures HasBit(r, 0) == b0 && HasBit(r, 1) == b1 && HasBit(r, 2) == b2
    ensures BitsBelow(r, NumChan)
  {
    (if b0 then 1 else 0) | (if b1 then 2 else 0) | (if b2 then 4 else 0)
  }

  // ---------------------------------------------------------------------------
  // Readiness, accept, read and close

  /** `poll` reports only the events a descriptor asked for, and nothing at all
      for a connection slot whose descriptor is -1 (hang-ups are always
      reported on an open descriptor). */
  function Mask1(ch: Chan, e: ChanEvents): (r: ChanEvents)
    ensures r.listenReadable <==> e.listenReadable && ch.listenArmed
    ensures r.connReadable <==> e.connReadable && ch.connected && ch.pollIn
    ensures r.hangup <==> e.hangup && ch.connected
    ensures r.connWritable <==> e.connWritable && ch.connected && ch.pollOut
    ensures r.acceptOk == e.acceptOk && r.read == e.read
  {
    e.(listenReadable := e.listenReadable && ch.listenArmed,
       connReadable := e.connReadable && ch.connected && ch.pollIn,
       hangup := e.hangup && ch.connected,
       connWritable := e.connWritable && ch.connected && ch.pollOut)
  }

  function Revents(s: Soc, evs: seq<ChanEvents>): (r: seq<ChanEvents>)
    requires |s.chans| == NumChan && |evs| == NumChan
    ensures |r| == NumChan
    ensures forall c :: 0 <= c < NumChan ==> r[c] == Mask1(s.chans[c], evs[c])
  {
    seq(NumChan, c requires 0 <= c < NumChan => Mask1(s.chans[c], evs[c]))
  }

  predicate NoConnEvents(e: ChanEvents)
  {
    !e.connReadable && !e.hangup && !e.connWritable
  }

  /** The connection events of `e` fit channel `ch`: they concern a live
      connection, a read only happens while nothing is pending, and a writable
      report only comes for a socket not yet known to be writable. */
  predicate ConnFits(ch: Chan, e: ChanEvents)
  {
    && (e.connReadable || e.hangup || e.connWritable ==> ch.connected)
    && (e.connReadable ==> ch.outLength == 0)
    && (e.connWritable ==> !ch.writable)
    && (e.read.Read? ==> |e.read.bytes| <= BufSize)
  }

  /** On a state that keeps the invariant, `poll` reports a listener only
      while nothing is connected, and the connection events fit. */
  lemma ReventsFit(s: Soc, evs: seq<ChanEvents>)
    requires Inv(s) && |evs| == NumChan
    requires forall c :: 0 <= c < NumChan ==> evs[c].read.Read? ==> |evs[c].read.bytes| <= BufSize
    ensures forall c :: 0 <= c < NumChan ==>
      && (Revents(s, evs)[c].listenReadable ==> !s.chans[c].connected && NoConnEvents(Revents(s, evs)[c]))
      && ConnFits(s.chans[c], Revents(s, evs)[c])
  {
  }

  /** Accept on one channel (spid.c:173-189): a new connection arms both
      directions, disarms the listener and sets the open bit; a failed
      `accept` ends the daemon. */
  function AcceptChan(ch: Chan, e: ChanEvents): (r: Option<Chan>)
    requires ChanOk(ch) && (e.listenReadable ==> !ch.connected)
    ensures r.None? <==> e.listenReadable && !e.acceptOk
    ensures r.Some? ==> ChanOk(r.value) && r.value.outLength == ch.outLength && r.value.writable == ch.writable
    ensures r.Some? && e.listenReadable ==>
      r.value.connected && r.value.open && r.value.pollIn && r.value.pollOut && !r.value.listenArmed
    ensures r.Some? && !e.listenReadable ==> r.value == ch
  {
    if !e.listenReadable then Some(ch)
    else if !e.acceptOk then None
    else Some(ch.(connected := true, pollIn := true, pollOut := true, listenArmed := false, open := true))
  }

  function AcceptFrom(s: Soc, ev: seq<ChanEvents>, c: nat): (r: Option<Soc>)
    requires Inv(s) && |ev| == NumChan && c <= NumChan
    requires forall d :: c <= d < NumChan ==> ev[d].listenReadable ==> !s.chans[d].connected
    ensures r.None? <==> exists d :: c <= d < NumChan && ev[d].listenReadable && !ev[d].acceptOk
    ensures r.Some? ==> Inv(r.value) && r.value.retries == s.retries
    ensures r.Some? ==> forall d :: 0 <= d < NumChan ==>
      && r.value.chans[d].outLength == s.chans[d].outLength
      && r.value.chans[d].writable == s.chans[d].writable
      && (r.value.chans[d] == s.chans[d] || (ev[d].listenReadable && r.value.chans[d].connected))
    decreases NumChan - c
  {
    if c == NumChan then Some(s)
    else
      match AcceptChan(s.chans[c], ev[c])
      case None => None
      case Some(ch) => AcceptFrom(s.(chans := s.chans[c := ch]), ev, c + 1)
  }

  /** Closing a connection (spid.c:210-225): the connection is dropped, nothing
      is left to send, the channel's writable and open bits are cleared and the
      listener is re-armed. */
  function Close(ch: Chan): (r: Chan)
    requires 0 <= ch.outLength <= BufSize && |ch.outBuf| == BufSize
    ensures ChanOk(r)
    ensures !r.connected && !r.open && !r.writable && r.listenArmed && r.outLength == 0
  {
    ch.(connected := false, outLength := 0, writable := false, listenArmed := true, open := false)
  }

  /** The readable / hang-up / writable handling of one channel
      (spid.c:192-232); the boolean reports whether the connection was closed. */
  function ConnChan(ch: Chan, e: ChanEvents): (r: (Chan, bool))
    requires ChanOk(ch) && ConnFits(ch, e)
    ensures ChanOk(r.0)
  {
    var readData := e.connReadable && e.read.Read? && |e.read.bytes| > 0;
    var toClose := e.connReadable && !readData;
    var ch1 :=
      if readData then ch.(outBuf := e.read.bytes + ch.outBuf[|e.read.bytes|..], outLength := |e.read.bytes|, pollIn := false)
      else if e.connReadable then ch.(pollIn := false)
      else ch;
    if toClose || e.hangup then (Close(ch1), true)
    else if e.connWritable then (ch1.(pollOut := false, writable := true), false)
    else (ch1, false)
  }

  /** A read of 1..BUFSIZE bytes becomes the pending data, in 1..BUFSIZE so
      that it fits the header's size byte; an empty or failed read, or a
      hang-up, closes the connection; otherwise the connection and its pending
      length are unchanged, and a writable report sets the writable bit. */
  lemma ConnChanEffects(ch: Chan, e: ChanEvents)
    requires ChanOk(ch) && ConnFits(ch, e)
    ensures var closes := e.hangup || (e.connReadable && (e.read.ReadFailed? || |e.read.bytes| == 0));
      var r := ConnChan(ch, e);
      && r.1 == closes
      && (closes ==> !r.0.connected && !r.0.writable && r.0.outLength == 0)
      && (!closes ==> r.0.connected == ch.connected)
      && (!closes && e.connReadable ==>
            && r.0.outLength == |e.read.bytes| && 1 <= r.0.outLength <= BufSize
            && r.0.outBuf[..|e.read.bytes|] == e.read.bytes)
      && (!closes && !e.connReadable ==> r.0.outLength == ch.outLength)
      && (!closes ==> (r.0.writable <==> ch.writable || e.connWritable))
  {
    if e.connReadable && e.read.Read? && |e.read.bytes| > 0 {
      var b := e.read.bytes;
      assert (b + ch.outBuf[|b|..])[..|b|] == b;
    }
  }

  function ConnFrom(s: Soc, ev: seq<ChanEvents>, c: nat): (r: (Soc, seq<Action>))
    requires Inv(s) && |ev| == NumChan && c <= NumChan
    requires forall d :: c <= d < NumChan ==> ConnFits(s.chans[d], ev[d])
    ensures Inv(r.0) && r.0.retries == s.retries
    ensures forall d :: 0 <= d < c ==> r.0.chans[d] == s.chans[d]
    ensures forall d :: c <= d < NumChan ==> r.0.chans[d] == ConnChan(s.chans[d], ev[d]).0
    ensures forall i :: 0 <= i < |r.1| ==>
      (r.1[i].CloseConn? && c <= r.1[i].chan < NumChan && ConnChan(s.chans[r.1[i].chan], ev[r.1[i].chan]).1)
    decreases NumChan - c
  {
    if c == NumChan then (s, [])
    else
      var (ch, closed) := ConnChan(s.chans[c], ev[c]);
      var rest := ConnFrom(s.(chans := s.chans[c := ch]), ev, c + 1);
      (rest.0, (if closed then [CloseConn(c)] else []) + rest.1)
  }

  // ---------------------------------------------------------------------------
  // The header

  /** `tx_buf` (spid.c:238-246): `0x53`, the writable bits with the open bits
      in the high nibble, then each channel's pending length as a byte. */
  function SocHeader(s: Soc): (h: ControlPkt)
    requires Inv(s)
    ensures WellFormed(h) && h.cmd == CmdRequest
    ensures h.status == WritableMask(s) | (OpenMask(s) << 4)
    ensures forall c :: 0 <= c < NumChan ==> h.sizes[c] as int == s.chans[c].outLength
  {
    ControlPkt(CmdRequest, WritableMask(s) | (OpenMask(s) << 4),
      seq(NumChan, c requires 0 <= c < NumChan => SizeByte(s, c)))
  }

  /** `(uint8_t) channels[c].out_length`, exact because the length never exceeds BUFSIZE. */
  function SizeByte(s: Soc, c: nat): (r: Byte)
    requires Inv(s) && c < NumChan
    ensures r as int == s.chans[c].outLength
  {
    ToByte(s.chans[c].outLength)
  }

  /** The daemon's plan reads `writable` and `out_length` instead of its own
      header; these agree with the header's ready bits and size bytes, and the
      open bits sit in the high nibble. */
  lemma HeaderReflectsState(s: Soc)
    requires Inv(s)
    ensures forall c :: 0 <= c < NumChan ==>
      && (HasBit(SocHeader(s).status, c) <==> s.chans[c].writable)
      && (HasBit(SocHeader(s).status, 4 + c) <==> s.chans[c].open)
      && (SocHeader(s).sizes[c] > 0 <==> s.chans[c].outLength > 0)
    ensures !HasBit(SocHeader(s).status, NumChan) && !HasBit(SocHeader(s).status, 4 + NumChan)
  {
    OrShiftBits(WritableMask(s), OpenMask(s));
  }

  lemma OrShiftBits(w: Byte, o: Byte)
    requires BitsBelow(w, NumChan) && BitsBelow(o, NumChan)
    ensures forall c :: 0 <= c < 4 ==>
      (HasBit(w | (o << 4), c) <==> HasBit(w, c)) && (HasBit(w | (o << 4), 4 + c) <==> HasBit(o, c))
  {
    assert !HasBit(w, 3) && !HasBit(w, 4) && !HasBit(w, 5) && !HasBit(w, 6) && !HasBit(w, 7);
    assert !HasBit(o, 3) && !HasBit(o, 4) && !HasBit(o, 5) && !HasBit(o, 6) && !HasBit(o, 7);
  }

  /** The daemon's half of the header exchange: shift out `tx_buf`, then shift
      in `rx_buf` (spid.c:250-254). */
  function HeaderChain(h: ControlPkt): (r: seq<Segment>)
    requires WellFormed(h)
    ensures ChainOk(r)
  {
    [Segment(HeaderLen, Some(Encode(h)), false), Segment(HeaderLen, None, true)]
  }

  // ---------------------------------------------------------------------------
  // The daemon's plan

  /** The descriptor loop of spid.c:283-299 from channel `c` on: a send when
      the MCU is ready and data is pending, then a receive when the socket is
      writable and the MCU has data. */
  function SocPlanFrom(s: Soc, reply: ControlPkt, c: nat): (r: seq<Descriptor>)
    requires Inv(s) && WellFormed(reply) && c <= NumChan
    ensures |r| <= 2 * (NumChan - c)
    ensures forall i :: 0 <= i < |r| ==> c <= r[i].chan < NumChan
    decreases NumChan - c
  {
    if c == NumChan then [] else SocChannel(s, reply, c) + SocPlanFrom(s, reply, c + 1)
  }

  /** One pass of that loop: channel `c`'s send, then its receive. */
  function SocChannel(s: Soc, reply: ControlPkt, c: nat): (r: seq<Descriptor>)
    requires Inv(s) && WellFormed(reply) && c < NumChan
    ensures |r| <= 2 && forall i :: 0 <= i < |r| ==> r[i].chan == c
  {
    (if HasBit(reply.status, c) && s.chans[c].outLength > 0 then [Descriptor(c, ToMcu, SizeByte(s, c))] else [])
    + (if s.chans[c].writable && reply.sizes[c] > 0 then [Descriptor(c, ToSoc, reply.sizes[c])] else [])
  }

  function SocPlan(s: Soc, reply: ControlPkt): (r: seq<Descriptor>)
    requires Inv(s) && WellFormed(reply)
    ensures |r| <= 2 * NumChan
    ensures forall i :: 0 <= i < |r| ==> r[i].chan < NumChan
  {
    SocPlanFrom(s, reply, 0)
  }

  /** A header whose ready bits are the daemon's writable bits and whose size
      bytes are its pending lengths: what the daemon's plan actually reads. */
  predicate Reflects(s: Soc, h: ControlPkt)
    requires Inv(s) && WellFormed(h)
  {
    forall c :: 0 <= c < NumChan ==> (HasBit(h.status, c) <==> s.chans[c].writable) && h.sizes[c] == SizeByte(s, c)
  }

  lemma SocReflects(s: Soc)
    requires Inv(s)
    ensures Reflects(s, SocHeader(s))
  {
    HeaderReflectsState(s);
  }

  lemma SocBlockFor(s: Soc, h: ControlPkt, reply: ControlPkt, c: nat)
    requires Inv(s) && WellFormed(h) && WellFormed(reply) && c < NumChan && Reflects(s, h)
    ensures SocPlanFrom(s, reply, c) == Block(h, reply, c) + SocPlanFrom(s, reply, c + 1)
  {
  }

  lemma {:induction false} SocPlanFromAbove(s: Soc, h: ControlPkt, reply: ControlPkt, c: nat)
    requires Inv(s) && WellFormed(h) && WellFormed(reply) && c <= NumChan && Reflects(s, h)
    ensures PlanAbove(h, reply, SocPlanFrom(s, reply, c), 2 * c)
    decreases NumChan - c
  {
    if c < NumChan {
      SocPlanFromAbove(s, h, reply, c + 1);
      SocBlockFor(s, h, reply, c);
      BlockThenPlan(h, reply, c, SocPlanFrom(s, reply, c + 1), SocPlanFrom(s, reply, c));
    } else {
      EmptyPlanAbove(h, reply);
    }
  }

  /** The daemon's plan lists exactly the selected transfers of the header pair
      (its own header and the MCU's reply), in rank order. */
  lemma SocPlanFromIsPlan(s: Soc, reply: ControlPkt, c: nat)
    requires Inv(s) && WellFormed(reply) && c <= NumChan
    ensures PlanAbove(SocHeader(s), reply, SocPlanFrom(s, reply, c), 2 * c)
  {
    SocReflects(s);
    SocPlanFromAbove(s, SocHeader(s), reply, c);
  }

  /** Channel `c`'s part of the daemon's plan is that channel's block for the
      header pair, though the daemon reads its own state rather than its header. */
  lemma SocBlock(s: Soc, reply: ControlPkt, c: nat)
    requires Inv(s) && WellFormed(reply) && c < NumChan
    ensures SocPlanFrom(s, reply, c) == Block(SocHeader(s), reply, c) + SocPlanFrom(s, reply, c + 1)
  {
    SocReflects(s);
    SocBlockFor(s, SocHeader(s), reply, c);
  }

  lemma SocPlanIsPlan(s: Soc, reply: ControlPkt)
    requires Inv(s) && WellFormed(reply)
    ensures IsPlanFor(SocHeader(s), reply, SocPlan(s, reply))
  {
    SocPlanFromIsPlan(s, reply, 0);
  }

  /** `channels[c].out_buf` for every channel. */
  function OutBufs(s: Soc): (r: seq<seq<Byte>>)
    requires Inv(s)
    ensures |r| == NumChan && forall c :: 0 <= c < NumChan ==> r[c] == s.chans[c].outBuf
  {
    seq(NumChan, c requires 0 <= c < NumChan => s.chans[c].outBuf)
  }

  /** The daemon's half of the data message (spid.c:283-306): a send shifts
      out the first `len` bytes of `out_buf`, a receive shifts into `in_buf`. */
  function DataChain(s: Soc, plan: seq<Descriptor>): (r: seq<Segment>)
    requires Inv(s)
    requires forall i :: 0 <= i < |plan| ==> plan[i].chan < NumChan
    ensures ChainOk(r) && |r| == |plan|
    ensures forall i :: 0 <= i < |plan| ==> r[i].len == plan[i].len as int && (r[i].keep <==> plan[i].dir == ToSoc)
  {
    PlanChain(plan, ToMcu, OutBufs(s))
  }

  // ---------------------------------------------------------------------------
  // After the header

  /** Scheduling a send (spid.c:285-290): a channel whose data goes out has
      its pending length cleared and POLLIN re-armed. */
  function ScheduleSend(ch: Chan, mcuReady: bool): (r: Chan)
    requires ChanOk(ch)
    ensures ChanOk(r) && r.writable == ch.writable && r.connected == ch.connected
    ensures r.outLength == if mcuReady then 0 else ch.outLength
  {
    if mcuReady && ch.outLength > 0 then ch.(outLength := 0, pollIn := true) else ch
  }

  /** Delivering the received data (spid.c:312-324): a receiving channel's
      writable bit is cleared and POLLOUT re-armed. */
  function Deliver(ch: Chan, size: Byte): (r: Chan)
    requires ChanOk(ch)
    ensures ChanOk(r) && r.outLength == ch.outLength && r.connected == ch.connected
    ensures r.writable <==> ch.writable && size == 0
  {
    if ch.writable && size > 0 then ch.(pollOut := true, writable := false) else ch
  }

  /** The socket writes of the delivery loop, in channel order. */
  function Writes(s: Soc, reply: ControlPkt, inBufs: seq<seq<Byte>>, c: nat): (r: seq<Action>)
    requires |s.chans| == NumChan && WellFormed(reply) && c <= NumChan
    requires |inBufs| == NumChan && forall d :: 0 <= d < NumChan ==> |inBufs[d]| == BufSize
    ensures forall i :: 0 <= i < |r| ==>
      (r[i].SocketWrite? && c <= r[i].chan < NumChan
       && s.chans[r[i].chan].writable && reply.sizes[r[i].chan] > 0
       && r[i].bytes == inBufs[r[i].chan][..reply.sizes[r[i].chan]])
    ensures forall d :: c <= d < NumChan && s.chans[d].writable && reply.sizes[d] > 0 ==>
      SocketWrite(d, inBufs[d][..reply.sizes[d]]) in r
    decreases NumChan - c
  {
    if c == NumChan then []
    else if s.chans[c].writable && reply.sizes[c] > 0 then
      [SocketWrite(c, inBufs[c][..reply.sizes[c]])] + Writes(s, reply, inBufs, c + 1)
    else
      Writes(s, reply, inBufs, c + 1)
  }

  // ---------------------------------------------------------------------------
  // One iteration

  /** What follows a valid reply (spid.c:274-325): the plan, the sends
      scheduled, the data message and the deliveries. */
  function AfterReply(s1: Soc, inp: CycleInput): (r: (Outcome, seq<Action>))
    requires Inv(s1) && InputOk(inp) && inp.reply.cmd == CmdAck
    ensures r.0.Running? ==> Inv(r.0.soc) && r.0.soc.retries == 0
  {
    var plan := SocPlan(s1, inp.reply);
    var sent := seq(NumChan, c requires 0 <= c < NumChan =>
      ScheduleSend(s1.chans[c], HasBit(inp.reply.status, c)));
    var s2 := Soc(sent, 0);
    if |plan| == 0 then (Running(s2), [])
    else
      var msg := SpiMessage(DataChain(s1, plan));
      if inp.dataFailed then (Exit(3), [msg])
      else
        var delivered := seq(NumChan, c requires 0 <= c < NumChan => Deliver(s2.chans[c], inp.reply.sizes[c]));
        (Running(Soc(delivered, 0)), [msg] + Writes(s2, inp.reply, inp.inBufs, 0))
  }

  /** One iteration of the loop (spid.c:138-326). */
  function Cycle(s: Soc, inp: CycleInput): (r: (Outcome, seq<Action>))
    requires Inv(s) && InputOk(inp)
    ensures r.0.Running? ==> Inv(r.0.soc)
    ensures inp.pollFailed ==> r.0 == Exit(2)
  {
    if inp.pollFailed then (Exit(2), [])
    else
      var ev := Revents(s, inp.events);
      ReventsFit(s, inp.events);
      match AcceptFrom(s, ev, 0)
      case None => (Exit(2), [SyncLow])
      case Some(s0) =>
        var (s1, closes) := ConnFrom(s0, ev, 0);
        var acts := [SyncLow] + closes + [SpiMessage(HeaderChain(SocHeader(s1)))];
        if inp.headerFailed then (Exit(3), acts)
        else if inp.reply.cmd != CmdAck then
          if s1.retries + 1 > 500 then (Exit(4), acts + [SyncHigh])
          else (Running(s1.(retries := s1.retries + 1)), acts + [SyncHigh])
        else
          var after := AfterReply(s1, inp);
          (after.0, acts + [SyncHigh] + after.1)
  }

  /** An iteration that gets as far as the reply: `poll` succeeded, every
      pending `accept` succeeded and the header message went through. */
  predicate ReachesReply(inp: CycleInput)
    requires |inp.events| == NumChan
  {
    !inp.pollFailed && !inp.headerFailed && forall c :: 0 <= c < NumChan ==> inp.events[c].acceptOk
  }

  /** The retry counter (spid.c:263-276): an invalid reply counts one more
      retry and the daemon exits with code 4 when that makes 501; a valid
      reply resets the count, and then only a failed data message (code 3)
      ends the daemon. */
  lemma CycleRetries(s: Soc, inp: CycleInput)
    requires Inv(s) && InputOk(inp) && ReachesReply(inp)
    ensures var r := Cycle(s, inp).0;
      && (inp.reply.cmd != CmdAck ==>
            && (r == Exit(4) <==> s.retries == 500)
            && (r.Running? ==> r.soc.retries == s.retries + 1))
      && (inp.reply.cmd == CmdAck ==>
            && (r.Running? ==> r.soc.retries == 0)
            && (r.Exit? ==> r.code == 3 && inp.dataFailed))
  {
    var ev := Revents(s, inp.events);
    ReventsFit(s, inp.events);
    assert AcceptFrom(s, ev, 0).Some?;
  }

  /** The exit codes: 2 when `poll` or an `accept` fails, 3 when an SPI
      message fails, 4 when the retries run out. */
  lemma CycleExits(s: Soc, inp: CycleInput)
    requires Inv(s) && InputOk(inp)
    ensures var r := Cycle(s, inp).0;
      && (r == Exit(2) <==> inp.pollFailed || exists c :: 0 <= c < NumChan && Revents(s, inp.events)[c].listenReadable && !inp.events[c].acceptOk)
      && (r.Exit? ==> r.code in {2, 3, 4})
  {
    ReventsFit(s, inp.events);
  }

  /** Iterations run one after another until one of them exits. */
  function Cycles(s: Soc, inps: seq<CycleInput>): (r: Outcome)
    requires Inv(s) && forall i :: 0 <= i < |inps| ==> InputOk(inps[i])
    ensures r.Running? ==> Inv(r.soc)
    decreases |inps|
  {
    if inps == [] then Running(s)
    else
      match Cycle(s, inps[0]).0
      case Exit(code) => Exit(code)
      case Running(s1) => Cycles(s1, inps[1..])
  }

  /** An iteration whose reply is not the `0xCA` acknowledgement. */
  predicate Refused(inp: CycleInput)
    requires |inp.events| == NumChan
  {
    ReachesReply(inp) && inp.reply.cmd != CmdAck
  }

  /** Consecutive invalid replies: the daemon keeps retrying while the count
      stays within 500 and exits with code 4 at the 501st. */
  lemma {:induction false} RefusalsExhaustRetries(s: Soc, inps: seq<CycleInput>)
    requires Inv(s) && forall i :: 0 <= i < |inps| ==> InputOk(inps[i]) && Refused(inps[i])
    ensures s.retries + |inps| <= 500 ==> Cycles(s, inps).Running? && Cycles(s, inps).soc.retries == s.retries + |inps|
    ensures s.retries + |inps| > 500 ==> Cycles(s, inps) == Exit(4)
    decreases |inps|
  {
    if inps != [] {
      CycleRetries(s, inps[0]);
      match Cycle(s, inps[0]).0
      case Exit(code) =>
      case Running(s1) =>
        RefusalsExhaustRetries(s1, inps[1..]);
    }
  }
}
