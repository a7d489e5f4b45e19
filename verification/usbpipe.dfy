/** The USB pipe (firmware/usbpipe.c): a bulk USB endpoint pair bridged to
    the SoC's USB daemon channel. Each direction is a two-state machine that
    alternates between waiting for the USB side and waiting for the bridge.
    The pipe owns the bridge engine's state for its channel, so posting a
    buffer to the bridge is an update of the `BridgeMcu.Mcu` record; the USB
    endpoint calls, `bridge_enable_chan`/`bridge_disable_chan` and
    `invalid()` are emitted actions. */
module UsbPipe {
  import opened Common
  import opened BridgeProtocol
  import B = BridgeMcu

  /** FLASH_BUFFER_SIZE: the size of every USB OUT transfer posted. */
  const PacketSize: nat := 64

  /** The bridge channel of the USB daemon (BRIDGE_USB). Its value is not
      defined in the modelled files; any channel below NumChan would do. */
  const UsbChan: nat := 0

  /** The two static buffers, as the bridge engine's buffer identifiers. */
  const PcToSocBuf: B.BufId := 0
  const SocToPcBuf: B.BufId := 1

  datatype PipeState = Disabled | WaitForUsb | WaitForBridge

  datatype Endpoint = PipeOut | PipeIn

  datatype Action =
    | EnableEp(ep: Endpoint)
    | DisableEp(ep: Endpoint)
    | UsbStartOut(size: nat)
    | UsbStartIn(count: Byte)
    | EnableChan(chan: nat)
    | DisableChan(chan: nat)
    | Invalid

  /** `pipe_state_pc_to_soc`, `pipe_state_soc_to_pc` and the bridge engine. */
  datatype Pipe = Pipe(pcToSoc: PipeState, socToPc: PipeState, mcu: B.Mcu)

  predicate Valid(p: Pipe)
  {
    B.Valid(p.mcu)
  }

  /** What the bridge engine must hold while a direction waits for it: the
      pc-to-SoC buffer is the one posted for sending, and the SoC-to-pc buffer
      is posted for receiving with its ready bit set. */
  predicate Coupled(p: Pipe)
    requires Valid(p)
  {
    && (p.pcToSoc == WaitForBridge ==> p.mcu.inChanPtr[UsbChan] == PcToSocBuf)
    && (p.socToPc == WaitForBridge ==>
          p.mcu.outChanPtr[UsbChan] == SocToPcBuf && HasBit(p.mcu.outChanReady, UsbChan))
  }

  // ---------------------------------------------------------------------------
  // Handlers

  /** usbpipe_init: both endpoints enabled, a 64-byte OUT transfer posted, a
      receive buffer posted to the bridge, and the channel enabled. */
  function Init(p: Pipe): (r: (Pipe, seq<Action>))
    requires Valid(p)
    ensures Valid(r.0) && Coupled(r.0)
    ensures r.0.pcToSoc == WaitForUsb && r.0.socToPc == WaitForBridge
    ensures r.0.mcu.irqHigh && r.0.mcu.inChanSize == p.mcu.inChanSize
    ensures r.1 == [EnableEp(PipeOut), EnableEp(PipeIn), UsbStartOut(PacketSize), EnableChan(UsbChan)]
  {
    var m := B.StartOut(p.mcu, UsbChan, SocToPcBuf);
    (Pipe(WaitForUsb, WaitForBridge, m),
     [EnableEp(PipeOut), EnableEp(PipeIn), UsbStartOut(PacketSize), EnableChan(UsbChan)])
  }

  /** usbpipe_disable: both endpoints off, both directions DISABLE, and the
      channel disabled; the bridge engine's buffers are left as they were. */
  function Disable(p: Pipe): (r: (Pipe, seq<Action>))
    requires Valid(p)
    ensures Valid(r.0)
    ensures r.0.pcToSoc == Disabled && r.0.socToPc == Disabled && r.0.mcu == p.mcu
    ensures r.1 == [DisableEp(PipeIn), DisableEp(PipeOut), DisableChan(UsbChan)]
  {
    (p.(pcToSoc := Disabled, socToPc := Disabled),
     [DisableEp(PipeIn), DisableEp(PipeOut), DisableChan(UsbChan)])
  }

  /** pipe_usb_out_completion: `len` bytes arrived from the host; hand them to
      the bridge. `len` is what the endpoint reports, at most the 64 posted. */
  function UsbOutCompletion(p: Pipe, len: nat): (r: (Pipe, seq<Action>))
    requires Valid(p) && len <= PacketSize
    ensures Valid(r.0) && r.0.socToPc == p.socToPc
    ensures p.pcToSoc == WaitForUsb ==>
      && r.0.pcToSoc == WaitForBridge && r.1 == []
      && r.0.mcu == B.StartIn(p.mcu, UsbChan, PcToSocBuf, ToByte(len))
    ensures p.pcToSoc != WaitForUsb ==> r == (p, [Invalid])
  {
    if p.pcToSoc == WaitForUsb then
      (p.(pcToSoc := WaitForBridge, mcu := B.StartIn(p.mcu, UsbChan, PcToSocBuf, ToByte(len))), [])
    else
      (p, [Invalid])
  }

  /** pipe_bridge_in_completion: the SoC took the data; post the next OUT. */
  function BridgeInCompletion(p: Pipe): (r: (Pipe, seq<Action>))
    requires Valid(p)
    ensures Valid(r.0) && r.0.socToPc == p.socToPc && r.0.mcu == p.mcu
    ensures p.pcToSoc == WaitForBridge ==> r.0.pcToSoc == WaitForUsb && r.1 == [UsbStartOut(PacketSize)]
    ensures p.pcToSoc != WaitForBridge ==> r == (p, [Invalid])
  {
    if p.pcToSoc == WaitForBridge then
      (p.(pcToSoc := WaitForUsb), [UsbStartOut(PacketSize)])
    else
      (p, [Invalid])
  }

  /** pipe_bridge_out_completion: `count` bytes arrived from the SoC; send
      them to the host. */
  function BridgeOutCompletion(p: Pipe, count: Byte): (r: (Pipe, seq<Action>))
    requires Valid(p)
    ensures Valid(r.0) && r.0.pcToSoc == p.pcToSoc && r.0.mcu == p.mcu
    ensures p.socToPc == WaitForBridge ==> r.0.socToPc == WaitForUsb && r.1 == [UsbStartIn(count)]
    ensures p.socToPc != WaitForBridge ==> r == (p, [Invalid])
  {
    if p.socToPc == WaitForBridge then
      (p.(socToPc := WaitForUsb), [UsbStartIn(count)])
    else
      (p, [Invalid])
  }

  /** pipe_usb_in_completion: the host took the data; post a new receive
      buffer to the bridge. */
  function UsbInCompletion(p: Pipe): (r: (Pipe, seq<Action>))
    requires Valid(p)
    ensures Valid(r.0) && r.0.pcToSoc == p.pcToSoc
    ensures p.socToPc == WaitForUsb ==>
      && r.0.socToPc == WaitForBridge && r.1 == []
      && r.0.mcu == B.StartOut(p.mcu, UsbChan, SocToPcBuf)
    ensures p.socToPc != WaitForUsb ==> r == (p, [Invalid])
  {
    if p.socToPc == WaitForUsb then
      (p.(socToPc := WaitForBridge, mcu := B.StartOut(p.mcu, UsbChan, SocToPcBuf)), [])
    else
      (p, [Invalid])
  }

  // ---------------------------------------------------------------------------
  // Event traces

  datatype Event = UsbOutDone(len: nat) | BridgeInDone | BridgeOutDone(count: Byte) | UsbInDone

  datatype Direction = PcToSoc | SocToPc

  predicate EventOk(e: Event)
  {
    e.UsbOutDone? ==> e.len <= PacketSize
  }

  function DirOf(e: Event): Direction
  {
    if e.UsbOutDone? || e.BridgeInDone? then PcToSoc else SocToPc
  }

  /** The state in which a completion is expected: the USB completions end a
      wait for USB, the bridge completions a wait for the bridge. */
  function Expects(e: Event): PipeState
  {
    if e.UsbOutDone? || e.UsbInDone? then WaitForUsb else WaitForBridge
  }

  function Other(s: PipeState): PipeState
  {
    match s
    case Disabled => Disabled
    case WaitForUsb => WaitForBridge
    case WaitForBridge => WaitForUsb
  }

  function StateOf(p: Pipe, d: Direction): PipeState
  {
    if d == PcToSoc then p.pcToSoc else p.socToPc
  }

  /** One completion dispatched to its handler. */
  function Step(p: Pipe, e: Event): (r: (Pipe, seq<Action>))
    requires Valid(p) && EventOk(e)
    ensures Valid(r.0)
    ensures StateOf(p, DirOf(e)) == Expects(e) ==>
      StateOf(r.0, DirOf(e)) == Other(Expects(e)) && Invalid !in r.1
    ensures StateOf(p, DirOf(e)) != Expects(e) ==> r == (p, [Invalid])
    ensures DirOf(e) == PcToSoc ==> r.0.socToPc == p.socToPc
    ensures DirOf(e) == SocToPc ==> r.0.pcToSoc == p.pcToSoc
    ensures Coupled(p) ==> Coupled(r.0)
  {
    match e
    case UsbOutDone(len) => UsbOutCompletion(p, len)
    case BridgeInDone => BridgeInCompletion(p)
    case BridgeOutDone(count) => BridgeOutCompletion(p, count)
    case UsbInDone => UsbInCompletion(p)
  }

  function Run(p: Pipe, es: seq<Event>): (r: (Pipe, seq<Action>))
    requires Valid(p) && forall i :: 0 <= i < |es| ==> EventOk(es[i])
    ensures Valid(r.0)
    decreases |es|
  {
    if es == [] then (p, [])
    else
      var s := Step(p, es[0]);
      var rest := Run(s.0, es[1..]);
      (rest.0, s.1 + rest.1)
  }

  /** The completions of one direction, in order. */
  function Project(es: seq<Event>, d: Direction): (r: seq<Event>)
    ensures |r| <= |es|
    ensures forall i :: 0 <= i < |r| ==> DirOf(r[i]) == d && r[i] in es
  {
    if es == [] then []
    else (if DirOf(es[0]) == d then [es[0]] else []) + Project(es[1..], d)
  }

  /** The reference behaviour of one direction started in state `s`: its
      completions alternate, beginning with the one `s` waits for. A disabled
      direction accepts none. */
  predicate Alternates(s: PipeState, es: seq<Event>)
  {
    forall i :: 0 <= i < |es| ==> Expects(es[i]) == (if i % 2 == 0 then s else Other(s))
  }

  lemma AlternatesCons(s: PipeState, e: Event, rest: seq<Event>)
    ensures Alternates(s, [e] + rest) <==> Expects(e) == s && Alternates(Other(s), rest)
  {
    var es := [e] + rest;
    if Expects(e) == s && Alternates(Other(s), rest) {
      forall i | 0 <= i < |es|
        ensures Expects(es[i]) == (if i % 2 == 0 then s else Other(s))
      {
        if i > 0 {
          assert es[i] == rest[i - 1];
          assert Other(Other(s)) == s || s == Disabled;
        }
      }
    }
    if Alternates(s, es) {
      assert Expects(es[0]) == s;
      forall i | 0 <= i < |rest|
        ensures Expects(rest[i]) == (if i % 2 == 0 then Other(s) else s)
      {
        assert rest[i] == es[i + 1];
        assert Other(Other(s)) == s || s == Disabled;
      }
    }
  }

  /** The pipe never calls `invalid()` exactly when each direction sees its
      completions strictly alternate, beginning with the one its state
      awaits; in particular a disabled pipe accepts no completion at all. */
  lemma {:induction false} NoFaultIffAlternating(p: Pipe, es: seq<Event>)
    requires Valid(p) && forall i :: 0 <= i < |es| ==> EventOk(es[i])
    ensures Invalid !in Run(p, es).1 <==>
      Alternates(p.pcToSoc, Project(es, PcToSoc)) && Alternates(p.socToPc, Project(es, SocToPc))
    decreases |es|
  {
    if es != [] {
      var e := es[0];
      var s := Step(p, e);
      NoFaultIffAlternating(s.0, es[1..]);
      assert Project(es, DirOf(e)) == [e] + Project(es[1..], DirOf(e));
      AlternatesCons(StateOf(p, DirOf(e)), e, Project(es[1..], DirOf(e)));
      if DirOf(e) == PcToSoc {
        assert Project(es, SocToPc) == Project(es[1..], SocToPc);
      } else {
        assert Project(es, PcToSoc) == Project(es[1..], PcToSoc);
      }
    }
  }

  /** Coupling with the bridge engine holds after `usbpipe_init` and across
      every pipe completion. */
  lemma {:induction false} RunKeepsCoupled(p: Pipe, es: seq<Event>)
    requires Valid(p) && Coupled(p) && forall i :: 0 <= i < |es| ==> EventOk(es[i])
    ensures Coupled(Run(p, es).0)
    decreases |es|
  {
    if es != [] {
      RunKeepsCoupled(Step(p, es[0]).0, es[1..]);
    }
  }

  /** A zero-length packet from the host is posted to the bridge with size 0,
      and a size of 0 is what the MCU advertises as "nothing to send": at every
      later header exchange no MCU-to-SoC transfer is selected on the channel,
      so the bridge never reports the in-completion this direction waits for. */
  lemma ZeroLengthPacketStalls(p: Pipe, soc: ControlPkt)
    requires Valid(p) && p.pcToSoc == WaitForUsb && WellFormed(soc)
    ensures UsbOutCompletion(p, 0).0.pcToSoc == WaitForBridge
    ensures !Selected(soc, B.HandleSync(UsbOutCompletion(p, 0).0.mcu, true).0.ctrlTx, UsbChan, ToSoc)
  {
    var m := UsbOutCompletion(p, 0).0.mcu;
    assert m.inChanSize[UsbChan] == 0;
  }
}
