/** The USB-to-SPI flash passthrough (firmware/flash.c). Each USB OUT packet
    is clocked out to the SoC's SPI flash while the same number of bytes is
    clocked in, and those come back to the host as the IN reply. Chip select
    stays asserted across full 64-byte packets, so one flash command may span
    several packets; a short packet ends it, and a zero-length packet ends a
    command whose length is a multiple of 64.

    The handlers are modelled twice where they differ: `OutCompletionAsWritten`
    keeps the machine in IDLE after a zero-length packet, so the IN completion
    that follows faults; `OutCompletion` enters REPLY instead, which is the
    behaviour the rest of the model uses. */
module FlashPassthrough {
  import opened Common

  /** FLASH_BUFFER_SIZE. */
  const PacketSize: nat := 64

  datatype FlashState = Off | Idle | Active | Reply

  /** `flash_state` and `flash_buffer_count`. */
  datatype Flash = Flash(state: FlashState, count: nat)

  datatype Action =
    | EnableEndpoints
    | DisableEndpoints
    | ConfigureSpi
    | HoldSocReset
    | PinsToSpi
    | PinsToInput
    | DmaAbort
    | CsLow
    | CsHigh
    | Exchange(mosi: seq<Byte>)
    | UsbStartOut(size: nat)
    | UsbStartIn(count: nat)
    | Invalid

  // ---------------------------------------------------------------------------
  // Handlers

  /** flash_init: endpoints and SPI master configured, SoC held in reset,
      chip select released, IDLE with an OUT transfer posted. */
  function Init(f: Flash): (r: (Flash, seq<Action>))
    ensures r.0.state == Idle
    ensures r.1 == [EnableEndpoints, ConfigureSpi, HoldSocReset, PinsToSpi, CsHigh, UsbStartOut(PacketSize)]
  {
    (f.(state := Idle), [EnableEndpoints, ConfigureSpi, HoldSocReset, PinsToSpi, CsHigh, UsbStartOut(PacketSize)])
  }

  /** flash_disable: from any state, DMA stopped, pins released, endpoints
      off and DISABLE; the SoC stays in reset. */
  function Disable(f: Flash): (r: (Flash, seq<Action>))
    ensures r.0.state == Off && r.0.count == f.count
    ensures r.1 == [DmaAbort, PinsToInput, DisableEndpoints]
  {
    (f.(state := Off), [DmaAbort, PinsToInput, DisableEndpoints])
  }

  /** flash_usb_out_completion as written: a zero-length packet releases chip
      select and replies with zero bytes but stays in IDLE. */
  function OutCompletionAsWritten(f: Flash, data: seq<Byte>): (r: (Flash, seq<Action>))
    requires |data| <= PacketSize
    ensures f.state != Idle ==> r == (f, [Invalid])
    ensures f.state == Idle && data != [] ==>
      r == (Flash(Active, |data|), [CsLow, Exchange(data)])
    ensures f.state == Idle && data == [] ==>
      r == (Flash(Idle, 0), [CsHigh, UsbStartIn(0)])
  {
    if f.state == Idle then
      if |data| > 0 then (Flash(Active, |data|), [CsLow, Exchange(data)])
      else (Flash(Idle, 0), [CsHigh, UsbStartIn(0)])
    else
      (f, [Invalid])
  }

  /** flash_usb_out_completion with the zero-length reply awaited in REPLY,
      like every other reply; otherwise identical to the code as written. */
  function OutCompletion(f: Flash, data: seq<Byte>): (r: (Flash, seq<Action>))
    requires |data| <= PacketSize
    ensures data != [] ==> r == OutCompletionAsWritten(f, data)
    ensures f.state == Idle && data == [] ==>
      r == (Flash(Reply, 0), [CsHigh, UsbStartIn(0)])
    ensures f.state != Idle ==> r == (f, [Invalid])
  {
    if f.state == Idle && data == [] then (Flash(Reply, 0), [CsHigh, UsbStartIn(0)])
    else OutCompletionAsWritten(f, data)
  }

  /** flash_dma_rx_completion: in ACTIVE the bytes clocked in go back to the
      host, and chip select is released only after a short packet; ignored
      in DISABLE. */
  function DmaCompletion(f: Flash): (r: (Flash, seq<Action>))
    ensures f.state == Off ==> r == (f, [])
    ensures f.state == Active ==>
      && r.0 == Flash(Reply, f.count)
      && r.1 == [UsbStartIn(f.count)] + (if f.count < PacketSize then [CsHigh] else [])
    ensures f.state in {Idle, Reply} ==> r == (f, [Invalid])
  {
    if f.state == Off then (f, [])
    else if f.state == Active then
      (f.(state := Reply), [UsbStartIn(f.count)] + (if f.count < PacketSize then [CsHigh] else []))
    else
      (f, [Invalid])
  }

  /** flash_usb_in_completion: the reply went out; post the next OUT. */
  function InCompletion(f: Flash): (r: (Flash, seq<Action>))
    ensures f.state == Reply ==> r == (Flash(Idle, f.count), [UsbStartOut(PacketSize)])
    ensures f.state != Reply ==> r == (f, [Invalid])
  {
    if f.state == Reply then (f.(state := Idle), [UsbStartOut(PacketSize)]) else (f, [Invalid])
  }

  // ---------------------------------------------------------------------------
  // Host sessions

  /** What one OUT transfer can carry. */
  type Packet = p: seq<Byte> | |p| <= PacketSize

  datatype Event = OutDone(data: Packet) | DmaDone | InDone

  /** One event dispatched to its handler; `fixed` selects the corrected OUT
      handler. */
  function Step(f: Flash, e: Event, fixed: bool): (r: (Flash, seq<Action>))
  {
    match e
    case OutDone(data) => if fixed then OutCompletion(f, data) else OutCompletionAsWritten(f, data)
    case DmaDone => DmaCompletion(f)
    case InDone => InCompletion(f)
  }

  function Run(f: Flash, es: seq<Event>, fixed: bool): (r: (Flash, seq<Action>))
    decreases |es|
  {
    if es == [] then (f, [])
    else
      var h := Step(f, es[0], fixed);
      var t := Run(h.0, es[1..], fixed);
      (t.0, h.1 + t.1)
  }

  lemma RunOne(f: Flash, e: Event, fixed: bool)
    ensures Run(f, [e], fixed) == Step(f, e, fixed)
  {
    assert [e][1..] == [];
    assert Step(f, e, fixed).1 + [] == Step(f, e, fixed).1;
  }

  lemma {:induction false} RunAppend(f: Flash, a: seq<Event>, b: seq<Event>, fixed: bool)
    ensures Run(f, a + b, fixed).0 == Run(Run(f, a, fixed).0, b, fixed).0
    ensures Run(f, a + b, fixed).1 == Run(f, a, fixed).1 + Run(Run(f, a, fixed).0, b, fixed).1
    decreases |a|
  {
    if a == [] {
      assert a + b == b;
      EmptyPrefix(Run(f, b, fixed).1);
    } else {
      var h := Step(f, a[0], fixed);
      ConsAppend(a, b);
      RunCons(f, a + b, fixed);
      RunCons(f, a, fixed);
      RunAppend(h.0, a[1..], b, fixed);
      var mid := Run(h.0, a[1..], fixed);
      AppendAssoc(h.1, mid.1, Run(mid.0, b, fixed).1);
    }
  }

  lemma RunCons(f: Flash, es: seq<Event>, fixed: bool)
    requires es != []
    ensures Run(f, es, fixed).0 == Run(Step(f, es[0], fixed).0, es[1..], fixed).0
    ensures Run(f, es, fixed).1 == Step(f, es[0], fixed).1 + Run(Step(f, es[0], fixed).0, es[1..], fixed).1
  {
  }

  /** Two events in a row. */
  lemma RunTwo(f: Flash, x: Event, y: Event, fixed: bool)
    ensures Run(f, [x] + [y], fixed).0 == Step(Step(f, x, fixed).0, y, fixed).0
    ensures Run(f, [x] + [y], fixed).1 == Step(f, x, fixed).1 + Step(Step(f, x, fixed).0, y, fixed).1
  {
    RunAppend(f, [x], [y], fixed);
    RunOne(f, x, fixed);
    RunOne(Step(f, x, fixed).0, y, fixed);
  }

  /** How the host sends a flash command: 64-byte packets, then a final short
      packet, which is empty when the length is a multiple of 64. */
  function Packets(msg: seq<Byte>): (r: seq<Packet>)
    ensures |r| >= 1 && |r[|r| - 1]| < PacketSize
    ensures forall i :: 0 <= i < |r| - 1 ==> |r[i]| == PacketSize
    decreases |msg|
  {
    if |msg| < PacketSize then [msg] else [msg[..PacketSize]] + Packets(msg[PacketSize..])
  }

  /** The events of one packet: the OUT, the SPI transfer when there is one,
      and the host reading the reply. */
  function Round(p: Packet): seq<Event>
  {
    if p != [] then [OutDone(p)] + ([DmaDone] + [InDone]) else [OutDone(p)] + [InDone]
  }

  function SessionOf(pkts: seq<Packet>): seq<Event>
  {
    if pkts == [] then [] else Round(pkts[0]) + SessionOf(pkts[1..])
  }

  function Session(msg: seq<Byte>): seq<Event>
  {
    SessionOf(Packets(msg))
  }

  // ---------------------------------------------------------------------------
  // What the host observes

  /** The bytes clocked out to the flash, in order. */
  function Exchanged(acts: seq<Action>): seq<Byte>
  {
    if acts == [] then [] else (if acts[0].Exchange? then acts[0].mosi else []) + Exchanged(acts[1..])
  }

  /** The number of reply bytes sent back to the host. */
  function Returned(acts: seq<Action>): nat
  {
    if acts == [] then 0 else (if acts[0].UsbStartIn? then acts[0].count else 0) + Returned(acts[1..])
  }

  /** The chip-select edges, in order. */
  function ChipSelects(acts: seq<Action>): seq<Action>
  {
    if acts == [] then [] else (if acts[0] == CsLow || acts[0] == CsHigh then [acts[0]] else []) + ChipSelects(acts[1..])
  }

  /** Chip select goes low any number of times and is released once, at the end. */
  predicate OneTransaction(cs: seq<Action>)
  {
    |cs| >= 1 && cs[|cs| - 1] == CsHigh && forall i :: 0 <= i < |cs| - 1 ==> cs[i] == CsLow
  }

  lemma {:induction false} ExchangedAppend(a: seq<Action>, b: seq<Action>)
    ensures Exchanged(a + b) == Exchanged(a) + Exchanged(b)
    decreases |a|
  {
    if a == [] {
      assert a + b == b;
    } else {
      assert (a + b)[0] == a[0] && (a + b)[1..] == a[1..] + b;
      ExchangedAppend(a[1..], b);
    }
  }

  lemma {:induction false} ReturnedAppend(a: seq<Action>, b: seq<Action>)
    ensures Returned(a + b) == Returned(a) + Returned(b)
    decreases |a|
  {
    if a == [] {
      assert a + b == b;
    } else {
      assert (a + b)[0] == a[0] && (a + b)[1..] == a[1..] + b;
      ReturnedAppend(a[1..], b);
    }
  }

  lemma {:induction false} ChipSelectsAppend(a: seq<Action>, b: seq<Action>)
    ensures ChipSelects(a + b) == ChipSelects(a) + ChipSelects(b)
    decreases |a|
  {
    if a == [] {
      assert a + b == b;
    } else {
      assert (a + b)[0] == a[0] && (a + b)[1..] == a[1..] + b;
      ChipSelectsAppend(a[1..], b);
    }
  }

  /** The round trip of a full packet: exchanged, echoed back, chip select kept low. */
  lemma FullRound(c: nat, p: Packet, fixed: bool)
    requires |p| == PacketSize
    ensures Run(Flash(Idle, c), Round(p), fixed).0 == Flash(Idle, PacketSize)
    ensures Run(Flash(Idle, c), Round(p), fixed).1 ==
      [CsLow, Exchange(p)] + ([UsbStartIn(PacketSize)] + [UsbStartOut(PacketSize)])
  {
    var f := Flash(Idle, c);
    RunAppend(f, [OutDone(p)], [DmaDone] + [InDone], fixed);
    RunOne(f, OutDone(p), fixed);
    RunTwo(Flash(Active, PacketSize), DmaDone, InDone, fixed);
  }

  /** A final packet of 1..63 bytes: exchanged, echoed back, chip select released. */
  lemma ShortRound(c: nat, p: Packet, fixed: bool)
    requires 0 < |p| < PacketSize
    ensures Run(Flash(Idle, c), Round(p), fixed).0 == Flash(Idle, |p|)
    ensures Run(Flash(Idle, c), Round(p), fixed).1 ==
      [CsLow, Exchange(p)] + ([UsbStartIn(|p|), CsHigh] + [UsbStartOut(PacketSize)])
  {
    var f := Flash(Idle, c);
    RunAppend(f, [OutDone(p)], [DmaDone] + [InDone], fixed);
    RunOne(f, OutDone(p), fixed);
    RunTwo(Flash(Active, |p|), DmaDone, InDone, fixed);
  }

  /** A zero-length packet on the corrected machine: chip select released,
      an empty reply, and the next OUT posted. */
  lemma EmptyRound(c: nat)
    ensures Run(Flash(Idle, c), Round([]), true) ==
      (Flash(Idle, 0), [CsHigh, UsbStartIn(0)] + [UsbStartOut(PacketSize)])
  {
    RunTwo(Flash(Idle, c), OutDone([]), InDone, true);
  }

  /** The zero-length packet on the code as written: its reply's completion
      arrives in IDLE and calls `invalid()`, and no OUT is posted again. */
  lemma EmptyRoundAsWritten(c: nat)
    ensures Run(Flash(Idle, c), Round([]), false) ==
      (Flash(Idle, 0), [CsHigh, UsbStartIn(0)] + [Invalid])
  {
    RunTwo(Flash(Idle, c), OutDone([]), InDone, false);
  }

  /** The actions of the first packet of a command `msg`. */
  function Piece(msg: seq<Byte>): seq<Action>
  {
    if msg == [] then [CsHigh, UsbStartIn(0)] + [UsbStartOut(PacketSize)]
    else if |msg| < PacketSize then [CsLow, Exchange(msg)] + ([UsbStartIn(|msg|), CsHigh] + [UsbStartOut(PacketSize)])
    else [CsLow, Exchange(msg[..PacketSize])] + ([UsbStartIn(PacketSize)] + [UsbStartOut(PacketSize)])
  }

  /** What a flash command of `msg` should produce on the passthrough, packet
      by packet: the reference the runs are compared with. */
  function Transcript(msg: seq<Byte>): seq<Action>
    decreases |msg|
  {
    if |msg| < PacketSize then Piece(msg) else Piece(msg) + Transcript(msg[PacketSize..])
  }

  /** The corrected passthrough produces exactly the transcript and ends IDLE. */
  lemma {:induction false} SessionFollowsTranscript(c: nat, msg: seq<Byte>)
    ensures Run(Flash(Idle, c), Session(msg), true).0.state == Idle
    ensures Run(Flash(Idle, c), Session(msg), true).1 == Transcript(msg)
    decreases |msg|
  {
    var pkts := Packets(msg);
    if |msg| < PacketSize {
      assert pkts == [msg] && pkts[1..] == [];
      assert SessionOf(pkts) == Round(msg) + SessionOf([]);
      assert Session(msg) == Round(msg) + [] == Round(msg);
      if msg == [] {
        EmptyRound(c);
      } else {
        ShortRound(c, msg, true);
      }
    } else {
      var p: Packet := msg[..PacketSize];
      var rest := msg[PacketSize..];
      assert pkts[0] == p && pkts[1..] == Packets(rest);
      assert Session(msg) == Round(p) + Session(rest);
      RunAppend(Flash(Idle, c), Round(p), Session(rest), true);
      FullRound(c, p, true);
      SessionFollowsTranscript(PacketSize, rest);
    }
  }

  lemma ObserveOne(x: Action)
    ensures Exchanged([x]) == (if x.Exchange? then x.mosi else [])
    ensures Returned([x]) == (if x.UsbStartIn? then x.count else 0)
    ensures ChipSelects([x]) == (if x == CsLow || x == CsHigh then [x] else [])
  {
    assert [x][1..] == [];
  }

  lemma ObservePair(x: Action, y: Action)
    ensures Exchanged([x, y]) == Exchanged([x]) + Exchanged([y])
    ensures Returned([x, y]) == Returned([x]) + Returned([y])
    ensures ChipSelects([x, y]) == ChipSelects([x]) + ChipSelects([y])
  {
    assert [x, y] == [x] + [y];
    ExchangedAppend([x], [y]);
    ReturnedAppend([x], [y]);
    ChipSelectsAppend([x], [y]);
  }

  /** The observables of `[u, v] + (mid + [UsbStartOut])`, the shape of
      every packet's actions. */
  lemma ShapeObserved(u: Action, v: Action, mid: seq<Action>)
    ensures Exchanged([u, v] + (mid + [UsbStartOut(PacketSize)])) == Exchanged([u]) + Exchanged([v]) + Exchanged(mid)
    ensures Returned([u, v] + (mid + [UsbStartOut(PacketSize)])) == Returned([u]) + Returned([v]) + Returned(mid)
    ensures ChipSelects([u, v] + (mid + [UsbStartOut(PacketSize)])) == ChipSelects([u]) + ChipSelects([v]) + ChipSelects(mid)
  {
    var o := [UsbStartOut(PacketSize)];
    ObserveOne(UsbStartOut(PacketSize));
    ObservePair(u, v);
    ExchangedAppend([u, v], mid + o);
    ExchangedAppend(mid, o);
    ReturnedAppend([u, v], mid + o);
    ReturnedAppend(mid, o);
    ChipSelectsAppend([u, v], mid + o);
    ChipSelectsAppend(mid, o);
  }

  /** The observables of one packet's actions. */
  lemma PieceObserved(msg: seq<Byte>)
    ensures Exchanged(Piece(msg)) == if |msg| < PacketSize then msg else msg[..PacketSize]
    ensures Returned(Piece(msg)) == if |msg| < PacketSize then |msg| else PacketSize
    ensures ChipSelects(Piece(msg)) ==
      if msg == [] then [CsHigh] else if |msg| < PacketSize then [CsLow, CsHigh] else [CsLow]
  {
    if msg == [] {
      assert Piece(msg) == [CsHigh, UsbStartIn(0)] + ([] + [UsbStartOut(PacketSize)]);
      ShapeObserved(CsHigh, UsbStartIn(0), []);
      ObserveOne(CsHigh);
      ObserveOne(UsbStartIn(0));
    } else if |msg| < PacketSize {
      ShapeObserved(CsLow, Exchange(msg), [UsbStartIn(|msg|), CsHigh]);
      ObservePair(UsbStartIn(|msg|), CsHigh);
      ObserveOne(CsLow);
      ObserveOne(Exchange(msg));
      ObserveOne(UsbStartIn(|msg|));
      ObserveOne(CsHigh);
    } else {
      ShapeObserved(CsLow, Exchange(msg[..PacketSize]), [UsbStartIn(PacketSize)]);
      ObserveOne(CsLow);
      ObserveOne(Exchange(msg[..PacketSize]));
      ObserveOne(UsbStartIn(PacketSize));
    }
  }

  /** The transcript clocks out exactly the command. */
  lemma {:induction false} TranscriptExchanges(msg: seq<Byte>)
    ensures Exchanged(Transcript(msg)) == msg
    decreases |msg|
  {
    PieceObserved(msg);
    if |msg| >= PacketSize {
      ExchangedAppend(Piece(msg), Transcript(msg[PacketSize..]));
      TranscriptExchanges(msg[PacketSize..]);
      assert msg == msg[..PacketSize] + msg[PacketSize..];
    }
  }

  /** The transcript returns as many bytes as the command has. */
  lemma {:induction false} TranscriptReturns(msg: seq<Byte>)
    ensures Returned(Transcript(msg)) == |msg|
    decreases |msg|
  {
    PieceObserved(msg);
    if |msg| >= PacketSize {
      ReturnedAppend(Piece(msg), Transcript(msg[PacketSize..]));
      TranscriptReturns(msg[PacketSize..]);
    }
  }

  /** The transcript asserts chip select once per packet and releases it once, at the end. */
  lemma {:induction false} TranscriptSelectsOnce(msg: seq<Byte>)
    ensures OneTransaction(ChipSelects(Transcript(msg)))
    decreases |msg|
  {
    PieceObserved(msg);
    if |msg| >= PacketSize {
      ChipSelectsAppend(Piece(msg), Transcript(msg[PacketSize..]));
      TranscriptSelectsOnce(msg[PacketSize..]);
      LowThenTransaction(ChipSelects(Transcript(msg[PacketSize..])));
    }
  }

  /** The transcript never calls `invalid()`. */
  lemma {:induction false} TranscriptNeverFaults(msg: seq<Byte>)
    ensures Invalid !in Transcript(msg)
    decreases |msg|
  {
    if |msg| >= PacketSize {
      TranscriptNeverFaults(msg[PacketSize..]);
    }
  }

  /** The corrected passthrough carries any flash command: the bytes clocked
      out are the command, as many bytes come back, chip select frames it as
      one transaction, nothing faults and the machine is IDLE again. */
  lemma SessionCarries(c: nat, msg: seq<Byte>)
    ensures Run(Flash(Idle, c), Session(msg), true).0.state == Idle
    ensures Exchanged(Run(Flash(Idle, c), Session(msg), true).1) == msg
    ensures Returned(Run(Flash(Idle, c), Session(msg), true).1) == |msg|
    ensures OneTransaction(ChipSelects(Run(Flash(Idle, c), Session(msg), true).1))
    ensures Invalid !in Run(Flash(Idle, c), Session(msg), true).1
  {
    SessionFollowsTranscript(c, msg);
    TranscriptExchanges(msg);
    TranscriptReturns(msg);
    TranscriptSelectsOnce(msg);
    TranscriptNeverFaults(msg);
  }

  /** On the code as written every command whose length is a multiple of 64,
      including the empty one, ends in `invalid()`. */
  lemma {:induction false} SessionFaultsAsWritten(c: nat, msg: seq<Byte>)
    requires |msg| % PacketSize == 0
    ensures Invalid in Run(Flash(Idle, c), Session(msg), false).1
    decreases |msg|
  {
    if |msg| < PacketSize {
      EmptySessionFaults(c, msg);
    } else {
      SessionFaultsAsWritten(PacketSize, msg[PacketSize..]);
      FaultCarriesOver(c, msg);
    }
  }

  lemma EmptySessionFaults(c: nat, msg: seq<Byte>)
    requires |msg| < PacketSize && |msg| % PacketSize == 0
    ensures Invalid in Run(Flash(Idle, c), Session(msg), false).1
  {
    assert msg == [];
    SessionSplits(msg);
    EmptyRoundAsWritten(c);
  }

  /** After a full packet the machine is IDLE again, so a fault later in the
      session is a fault of the whole session. */
  lemma FaultCarriesOver(c: nat, msg: seq<Byte>)
    requires |msg| >= PacketSize
    requires Invalid in Run(Flash(Idle, PacketSize), Session(msg[PacketSize..]), false).1
    ensures Invalid in Run(Flash(Idle, c), Session(msg), false).1
  {
    var f := Flash(Idle, c);
    var p: Packet := msg[..PacketSize];
    var tail := Session(msg[PacketSize..]);
    SessionSplits(msg);
    RunAppend(f, Round(p), tail, false);
    FullRound(c, p, false);
  }

  /** A session is the round of its first packet, then the rest. */
  lemma SessionSplits(msg: seq<Byte>)
    ensures |msg| < PacketSize ==> Session(msg) == Round(msg)
    ensures |msg| >= PacketSize ==> Session(msg) == Round(msg[..PacketSize]) + Session(msg[PacketSize..])
  {
    var pkts := Packets(msg);
    if |msg| < PacketSize {
      assert pkts[0] == msg && pkts[1..] == [];
      assert SessionOf(pkts[1..]) == [];
      assert Session(msg) == Round(msg) + [];
    } else {
      assert pkts[0] == msg[..PacketSize] && pkts[1..] == Packets(msg[PacketSize..]);
    }
  }

  lemma LowThenTransaction(cs: seq<Action>)
    requires OneTransaction(cs)
    ensures OneTransaction([CsLow] + cs)
  {
    var t := [CsLow] + cs;
    forall i | 0 <= i < |t| - 1
      ensures t[i] == CsLow
    {
      if i > 0 {
        assert t[i] == cs[i - 1];
      }
    }
  }
}
