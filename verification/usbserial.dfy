/** The USB serial bridge (firmware/usbserial.c). Bytes from the terminal
    UART are received by DMA into one of two 64-byte buffers; a flush (the
    DMA filling the buffer, or the receive timeout expiring) sends the bytes
    gathered so far to the host and switches to the other buffer, unless a
    previous buffer is still on its way to the host, in which case the
    receive simply restarts in the same buffer. Bytes from the host are
    forwarded to the UART one packet at a time.

    The DMA's progress is modelled by the bytes it has written (`filling`),
    so `BUF_SIZE - dma_remaining` is `|filling|`. Every restart of the
    receive DMA records the bytes it overwrites before they were sent, which
    makes the loss on a busy flush visible in the emitted actions. */
module UsbSerial {
  import opened Common

  /** BUF_SIZE. */
  const BufSize: nat := 64

  /** The buffer handed to the host and the bytes it holds. */
  datatype InFlight = InFlight(buf: nat, data: seq<Byte>)

  /** `usbserial_active_rx_buf`, `usbserial_sending_in`, the bytes the receive
      DMA has written into the active buffer, the buffer currently in flight,
      and whether the timeout interrupt is enabled. */
  datatype Serial = Serial(
    active: nat,
    sendingIn: bool,
    filling: seq<Byte>,
    inFlight: Option<InFlight>,
    timeoutIrq: bool)

  datatype Action =
    | EnableEndpoints
    | DisableEndpoints
    | DmaAbort
    | StartRx(buf: nat, overwritten: seq<Byte>)
    | UsbStartIn(buf: nat, data: seq<Byte>)
    | UsbStartOut(size: nat)
    | UartTx(data: seq<Byte>)

  /** The bookkeeping every handler relies on: the buffer in flight is never
      the one the DMA is filling, `sending_in` is set exactly while a buffer
      is in flight, and the DMA has written at most BUF_SIZE bytes. */
  predicate Books(s: Serial)
  {
    && s.active in {0, 1}
    && |s.filling| <= BufSize
    && (s.sendingIn <==> s.inFlight.Some?)
    && (s.inFlight.Some? ==> s.inFlight.value.buf == 1 - s.active && |s.inFlight.value.data| <= BufSize)
  }

  /** Between handlers the active buffer also has room: a full buffer has
      completed the DMA transfer and been flushed. */
  predicate Inv(s: Serial)
  {
    Books(s) && |s.filling| < BufSize
  }

  /** usbserial_init: buffer 0 active, nothing in flight, receive started on
      buffer 0 and a 64-byte OUT transfer posted. */
  function Init(): (r: (Serial, seq<Action>))
    ensures Inv(r.0) && r.0.active == 0 && !r.0.sendingIn && r.0.filling == [] && r.0.timeoutIrq
    ensures r.1 == [StartRx(0, []), EnableEndpoints, UsbStartOut(BufSize)]
  {
    (Serial(0, false, [], None, true), [StartRx(0, []), EnableEndpoints, UsbStartOut(BufSize)])
  }

  /** usbserial_rx_flush. When idle the gathered bytes (`BUF_SIZE -
      remaining` of them) go to the host from the active buffer, which then
      becomes the other one; when a buffer is still in flight they are
      overwritten by the restarted receive. Either way the receive restarts
      on the new active buffer, never on the one in flight. */
  function Flush(s: Serial): (r: (Serial, seq<Action>))
    requires Books(s)
    ensures Inv(r.0) && r.0.filling == [] && !r.0.timeoutIrq && r.0.sendingIn
    ensures !s.sendingIn ==>
      && r.0.active == 1 - s.active
      && r.0.inFlight == Some(InFlight(s.active, s.filling))
      && r.1 == [DmaAbort, UsbStartIn(s.active, s.filling), StartRx(r.0.active, [])]
    ensures s.sendingIn ==>
      && r.0.active == s.active && r.0.inFlight == s.inFlight
      && r.1 == [DmaAbort, StartRx(s.active, s.filling)]
    ensures forall i :: 0 <= i < |r.1| && r.1[i].StartRx? ==>
      r.1[i].buf == r.0.active != r.0.inFlight.value.buf
  {
    if !s.sendingIn then
      var next := 1 - s.active;
      (Serial(next, true, [], Some(InFlight(s.active, s.filling)), false),
       [DmaAbort, UsbStartIn(s.active, s.filling), StartRx(next, [])])
    else
      (s.(filling := [], timeoutIrq := false), [DmaAbort, StartRx(s.active, s.filling)])
  }

  /** One byte from the UART lands in the active buffer; the 64th completes
      the DMA transfer, whose handler (usbserial_dma_rx_completion) flushes. */
  function RxByte(s: Serial, b: Byte): (r: (Serial, seq<Action>))
    requires Inv(s)
    ensures Inv(r.0)
    ensures |s.filling| + 1 < BufSize ==> r == (s.(filling := s.filling + [b]), [])
    ensures |s.filling| + 1 == BufSize ==> r == Flush(s.(filling := s.filling + [b]))
  {
    var t := s.(filling := s.filling + [b]);
    if |t.filling| < BufSize then (t, []) else Flush(t)
  }

  /** usbserial_handle_tc: the timeout flushes only when its overflow flag is
      set. */
  function HandleTimeout(s: Serial, overflow: bool): (r: (Serial, seq<Action>))
    requires Inv(s)
    ensures Inv(r.0)
    ensures !overflow ==> r == (s, [])
    ensures overflow ==> r == Flush(s)
  {
    if overflow then Flush(s) else (s, [])
  }

  /** usbserial_in_completion: the host took the buffer; the timeout
      interrupt is enabled again. */
  function InCompletion(s: Serial): (r: (Serial, seq<Action>))
    requires Inv(s)
    ensures Inv(r.0) && !r.0.sendingIn && r.0.timeoutIrq && r.1 == []
    ensures r.0.active == s.active && r.0.filling == s.filling
  {
    (s.(sendingIn := false, inFlight := None, timeoutIrq := true), [])
  }

  /** usbserial_out_completion: the packet from the host goes to the UART by
      DMA; usbserial_dma_tx_completion then posts the next OUT transfer. */
  function OutCompletion(data: seq<Byte>): (r: seq<Action>)
    requires |data| <= BufSize
    ensures |r| == 1 && r[0].UartTx? && r[0].data == data
  {
    [UartTx(data)]
  }

  function TxCompletion(): (r: seq<Action>)
    ensures r == [UsbStartOut(BufSize)]
  {
    [UsbStartOut(BufSize)]
  }

  /** usbserial_disable: the three endpoints off; the UART side keeps running. */
  function Disable(s: Serial): (r: (Serial, seq<Action>))
    ensures r == (s, [DisableEndpoints])
  {
    (s, [DisableEndpoints])
  }

  // ---------------------------------------------------------------------------
  // Event traces of the receive path

  datatype Event = Rx(b: Byte) | Timeout(overflow: bool) | InDone

  function Step(s: Serial, e: Event): (r: (Serial, seq<Action>))
    requires Inv(s)
    ensures Inv(r.0)
  {
    match e
    case Rx(b) => RxByte(s, b)
    case Timeout(overflow) => HandleTimeout(s, overflow)
    case InDone => InCompletion(s)
  }

  function Run(s: Serial, es: seq<Event>): (r: (Serial, seq<Action>))
    requires Inv(s)
    ensures Inv(r.0)
    decreases |es|
  {
    if es == [] then (s, [])
    else
      var h := Step(s, es[0]);
      var t := Run(h.0, es[1..]);
      (t.0, h.1 + t.1)
  }

  /** The bytes the UART delivered, in order. */
  function Received(es: seq<Event>): seq<Byte>
  {
    if es == [] then []
    else (if es[0].Rx? then [es[0].b] else []) + Received(es[1..])
  }

  /** Where received bytes went, in order: handed to the host or overwritten
      by a restarted receive. */
  function Fate(a: Action): seq<Byte>
  {
    match a
    case UsbStartIn(_, data) => data
    case StartRx(_, overwritten) => overwritten
    case _ => []
  }

  function Outflow(acts: seq<Action>): seq<Byte>
  {
    if acts == [] then [] else Fate(acts[0]) + Outflow(acts[1..])
  }

  function Handed(a: Action): seq<Byte>
  {
    if a.UsbStartIn? then a.data else []
  }

  /** The bytes handed to the host, in order. */
  function Sent(acts: seq<Action>): seq<Byte>
  {
    if acts == [] then [] else Handed(acts[0]) + Sent(acts[1..])
  }

  lemma {:induction false} OutflowAppend(a: seq<Action>, b: seq<Action>)
    ensures Outflow(a + b) == Outflow(a) + Outflow(b)
    decreases |a|
  {
    if a != [] {
      assert (a + b)[1..] == a[1..] + b;
      OutflowAppend(a[1..], b);
    } else {
      assert a + b == b;
    }
  }

  lemma {:induction false} SentAppend(a: seq<Action>, b: seq<Action>)
    ensures Sent(a + b) == Sent(a) + Sent(b)
    decreases |a|
  {
    if a != [] {
      assert (a + b)[1..] == a[1..] + b;
      SentAppend(a[1..], b);
    } else {
      assert a + b == b;
    }
  }

  lemma OutflowOne(x: Action)
    ensures Outflow([x]) == Fate(x)
    ensures Sent([x]) == Handed(x)
  {
    assert [x][1..] == [];
  }

  lemma OutflowOfTwo(x: Action, y: Action)
    ensures Outflow([x, y]) == Fate(x) + Fate(y)
    ensures Sent([x, y]) == Handed(x) + Handed(y)
  {
    assert [x, y] == [x] + [y];
    OutflowAppend([x], [y]);
    SentAppend([x], [y]);
    OutflowOne(x);
    OutflowOne(y);
  }

  lemma OutflowOfThree(x: Action, y: Action, z: Action)
    ensures Outflow([x, y, z]) == Fate(x) + Fate(y) + Fate(z)
  {
    OutflowOfTwo(y, z);
    assert [x, y, z][1..] == [y, z];
  }

  lemma SentOfThree(x: Action, y: Action, z: Action)
    ensures Sent([x, y, z]) == Handed(x) + Handed(y) + Handed(z)
  {
    OutflowOfTwo(y, z);
    OutflowOne(x);
    assert [x, y, z][1..] == [y, z];
  }

  /** A flush accounts for exactly the gathered bytes: all of them go to
      the host when no buffer is in flight, and all are overwritten otherwise. */
  lemma FlushConserves(t: Serial)
    requires Books(t)
    ensures Outflow(Flush(t).1) == t.filling
    ensures Sent(Flush(t).1) == if t.sendingIn then [] else t.filling
  {
    if t.sendingIn {
      OutflowOfTwo(DmaAbort, StartRx(t.active, t.filling));
    } else {
      OutflowOfThree(DmaAbort, UsbStartIn(t.active, t.filling), StartRx(1 - t.active, []));
      SentOfThree(DmaAbort, UsbStartIn(t.active, t.filling), StartRx(1 - t.active, []));
    }
  }

  /** One handler conserves bytes: what was gathered plus what arrived is
      what left plus what is gathered now. */
  lemma StepConserves(s: Serial, e: Event)
    requires Inv(s)
    ensures s.filling + Received([e]) == Outflow(Step(s, e).1) + Step(s, e).0.filling
  {
    assert [e][1..] == [];
    var r := Step(s, e);
    if e.Rx? && |s.filling| + 1 == BufSize {
      FlushConserves(s.(filling := s.filling + [e.b]));
    } else if e == Timeout(true) {
      FlushConserves(s);
      assert Received([e]) == [];
    } else {
      assert r.1 == [];
    }
  }

  /** A run is its first step followed by the run of the rest. */
  lemma RunCons(s: Serial, es: seq<Event>)
    requires Inv(s) && es != []
    ensures Run(s, es).0 == Run(Step(s, es[0]).0, es[1..]).0
    ensures Run(s, es).1 == Step(s, es[0]).1 + Run(Step(s, es[0]).0, es[1..]).1
  {
  }

  lemma ReceivedCons(es: seq<Event>)
    requires es != []
    ensures Received(es) == Received([es[0]]) + Received(es[1..])
  {
    assert [es[0]][1..] == [];
  }

  lemma Regroup(a: seq<Byte>, b: seq<Byte>, c: seq<Byte>, d: seq<Byte>, e: seq<Byte>, f: seq<Byte>, g: seq<Byte>)
    requires a + b == c + d && d + e == f + g
    ensures a + b + e == c + f + g
  {
    calc {
      a + b + e;
      c + d + e;
      c + (d + e);
      c + (f + g);
    }
  }

  /** Every byte from the UART is, in order, either handed to the host,
      overwritten by a receive restarted while a buffer was in flight, or
      still gathered in the active buffer. */
  lemma {:induction false} Conservation(s: Serial, es: seq<Event>)
    requires Inv(s)
    ensures s.filling + Received(es) == Outflow(Run(s, es).1) + Run(s, es).0.filling
    decreases |es|
  {
    if es != [] {
      var h := Step(s, es[0]);
      var t := Run(h.0, es[1..]);
      RunCons(s, es);
      Conservation(h.0, es[1..]);
      StepConserves(s, es[0]);
      OutflowAppend(h.1, t.1);
      ReceivedCons(es);
      Regroup(s.filling, Received([es[0]]), Outflow(h.1), h.0.filling, Received(es[1..]), Outflow(t.1), t.0.filling);
    }
  }
}
