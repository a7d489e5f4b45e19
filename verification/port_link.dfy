/** The host library (node/tessel-export.js) and the port engine
    (firmware/port.c) run against each other: the command bytes the library
    writes split, at the firmware, into the commands and arguments the library
    meant, and the reply bytes the firmware produces reach the handler or
    event the library meant them for. */
module PortLink {
  import opened Common
  import opened PortRing
  import E = PortEngine
  import opened PortClient
  import opened PortCommands

  // ---------------------------------------------------------------------------
  // Command framing

  /** One command as the firmware reads it: the command byte, its
      `port_cmd_args` argument bytes and, for ECHO, TX and TXRX, the payload
      whose length is the first argument. */
  datatype Frame = Frame(cmd: E.Cmd, args: seq<Octet>, payload: seq<Octet>)

  predicate Carries(cmd: E.Cmd)
  {
    cmd == E.Echo || cmd == E.Tx || cmd == E.TxRx
  }

  /** The first command of a non-empty stream and its length in bytes;
      `None` when the byte names no command or the stream ends inside the
      command. */
  function FirstFrame(s: seq<Octet>): (r: Option<(Frame, nat)>)
    requires s != []
    ensures r.Some? ==> 0 < r.value.1 <= |s|
  {
    match E.CmdOf(s[0])
    case None => None
    case Some(cmd) =>
      var k := E.ArgCount(cmd);
      if |s| < 1 + k then None
      else
        var n := if Carries(cmd) && k > 0 then s[1] as int else 0;
        if |s| < 1 + k + n then None
        else Some((Frame(cmd, s[1..1 + k], s[1 + k..1 + k + n]), 1 + k + n))
  }

  /** A command stream split into frames, as the firmware's command loop
      reads it; `None` when it cannot be split. */
  function Frames(s: seq<Octet>): (r: Option<seq<Frame>>)
    decreases |s|
  {
    if s == [] then Some([])
    else
      match FirstFrame(s)
      case None => None
      case Some(f) =>
        match Frames(s[f.1..])
        case None => None
        case Some(rest) => Some([f.0] + rest)
  }

  /** The bytes of a frame. */
  function FrameBytes(f: Frame): (b: seq<Octet>)
  {
    [E.Code(f.cmd)] + f.args + f.payload
  }

  /** A frame whose arguments and payload have the lengths the firmware
      expects. */
  predicate FrameOk(f: Frame)
  {
    && |f.args| == E.ArgCount(f.cmd)
    && (if Carries(f.cmd) && |f.args| > 0 then |f.payload| == f.args[0] as int else f.payload == [])
  }

  /** The bytes of a well-formed frame read back as that frame. */
  lemma FirstFrameOf(f: Frame, more: seq<Octet>)
    requires FrameOk(f)
    ensures FirstFrame(FrameBytes(f) + more) == Some((f, |FrameBytes(f)|))
  {
    var s := FrameBytes(f) + more;
    E.CmdOfCode(f.cmd);
    var k := |f.args|;
    assert s[0] == E.Code(f.cmd);
    assert s[1..1 + k] == f.args;
    assert s[1 + k..1 + k + |f.payload|] == f.payload;
  }

  /** A stream of well-formed frames reads back as those frames. */
  lemma {:induction false} FramesOf(fs: seq<Frame>)
    requires forall i :: 0 <= i < |fs| ==> FrameOk(fs[i])
    ensures Frames(Stream(fs)) == Some(fs)
    decreases |fs|
  {
    if fs != [] {
      var head := FrameBytes(fs[0]);
      var tail := Stream(fs[1..]);
      assert Stream(fs) == head + tail;
      FirstFrameOf(fs[0], tail);
      DropPrefix(head, tail);
      FramesOf(fs[1..]);
      FramesCons(head + tail, fs[0], |head|, fs[1..]);
      SplitHead(fs);
    }
  }

  /** A stream whose first frame is `f` and whose rest splits into `rest`
      splits into `f` followed by `rest`. */
  lemma FramesCons(s: seq<Octet>, f: Frame, n: nat, rest: seq<Frame>)
    requires s != [] && FirstFrame(s) == Some((f, n)) && Frames(s[n..]) == Some(rest)
    ensures Frames(s) == Some([f] + rest)
  {
  }


  function Stream(fs: seq<Frame>): seq<Octet>
  {
    if fs == [] then [] else FrameBytes(fs[0]) + Stream(fs[1..])
  }

  /** Sync is one ECHO of the byte 0x88. */
  lemma SyncFrames(c: Client, cb: Option<nat>)
    ensures cb.Some? ==> Frames(Sync(c, cb).bytes) == Some([Frame(E.Echo, [1], [0x88])])
    ensures cb.None? ==> Frames(Sync(c, cb).bytes) == Some([])
  {
    var f := Frame(E.Echo, [1], [0x88]);
    assert FrameBytes(f) == SyncBytes;
    OneFrame(f);
  }

  lemma OneFrame(f: Frame)
    requires FrameOk(f)
    ensures Frames(FrameBytes(f)) == Some([f])
  {
    var s := FrameBytes(f);
    FirstFrameOf(f, []);
    assert s + [] == s;
    assert FirstFrame(s) == Some((f, |s|));
    assert s[|s|..] == [];
    assert Frames(s[|s|..]) == Some([]);
    assert [f] + [] == [f];
  }

  /** The payloads of a run of frames, concatenated. */
  function Payloads(fs: seq<Frame>): seq<Octet>
  {
    if fs == [] then [] else fs[0].payload + Payloads(fs[1..])
  }

  /** The TX chunks of `tx`, one frame each. */
  function TxFramesOf(data: seq<Octet>): (fs: seq<Frame>)
    ensures forall i :: 0 <= i < |fs| ==> FrameOk(fs[i]) && fs[i].cmd == E.Tx && 0 < |fs[i].payload| <= MaxChunk
    decreases |data|
  {
    if |data| == 0 then []
    else if |data| <= MaxChunk then [Frame(E.Tx, [|data| as Octet], data)]
    else [Frame(E.Tx, [MaxChunk as Octet], data[..MaxChunk])] + TxFramesOf(data[MaxChunk..])
  }

  /** The TX commands of `tx` reach the firmware as TX commands of 1 to 255
      bytes whose payloads, concatenated, are the data. */
  lemma TxFrames(data: seq<Octet>)
    ensures Frames(TxCommands(data)) == Some(TxFramesOf(data))
    ensures Payloads(TxFramesOf(data)) == data
  {
    TxStream(data);
    TxPayloads(data);
    FramesOf(TxFramesOf(data));
  }

  lemma {:induction false} TxStream(data: seq<Octet>)
    ensures Stream(TxFramesOf(data)) == TxCommands(data)
    decreases |data|
  {
    if |data| == 0 {
    } else if |data| <= MaxChunk {
      var fs := TxFramesOf(data);
      assert Stream(fs) == FrameBytes(fs[0]) + Stream([]);
    } else {
      var fs := TxFramesOf(data);
      var rest := data[MaxChunk..];
      TxStream(rest);
      assert fs[1..] == TxFramesOf(rest);
      assert Stream(fs) == FrameBytes(fs[0]) + Stream(TxFramesOf(rest));
    }
  }

  lemma {:induction false} TxPayloads(data: seq<Octet>)
    ensures Payloads(TxFramesOf(data)) == data
    decreases |data|
  {
    if |data| == 0 {
    } else if |data| <= MaxChunk {
      var fs := TxFramesOf(data);
      assert Payloads(fs) == data + Payloads([]);
    } else {
      var fs := TxFramesOf(data);
      var rest := data[MaxChunk..];
      TxPayloads(rest);
      assert fs[1..] == TxFramesOf(rest);
      assert Payloads(fs) == data[..MaxChunk] + Payloads(TxFramesOf(rest));
      assert data == data[..MaxChunk] + rest;
    }
  }

  /** The PWM_PERIOD command is one frame with its three arguments. */
  lemma PeriodFrames(i: nat, period: nat)
    requires i < |Prescalars| && period <= MaxPeriod
    ensures Frames(PeriodCommand(i, period)) == Some([Frame(E.PwmPeriod, PeriodCommand(i, period)[1..], [])])
  {
    var f := Frame(E.PwmPeriod, PeriodCommand(i, period)[1..], []);
    assert FrameBytes(f) == PeriodCommand(i, period);
    OneFrame(f);
  }

  /** ENABLE_SPI is one frame with its three arguments. */
  lemma SpiEnableFrames(mode: (bool, bool), reg: nat, div: nat)
    requires reg <= 255 && div <= 255
    ensures Frames(SpiEnable(mode, reg, div)) == Some([Frame(E.EnableSpi, SpiEnable(mode, reg, div)[1..], [])])
  {
    var f := Frame(E.EnableSpi, SpiEnable(mode, reg, div)[1..], []);
    assert FrameBytes(f) == SpiEnable(mode, reg, div);
    OneFrame(f);
  }

  /** ENABLE_UART is one frame with the baud register as its two arguments. */
  lemma BaudFrames(current: nat, baud: nat)
    requires SetBaud(current, baud).Ok?
    ensures var b := SetBaud(current, baud).value.1;
      Frames(b) == Some([Frame(E.EnableUart, b[1..], [])])
  {
    var b := SetBaud(current, baud).value.1;
    var f := Frame(E.EnableUart, b[1..], []);
    assert FrameBytes(f) == b;
    OneFrame(f);
  }

  /** DISABLE_UART takes no arguments: the two zero bytes the library sends
      after it reach the firmware as two NOPs. */
  lemma UartDisableFrames(c: Client)
    ensures Frames(UartDisable(c).bytes) == Some([Frame(E.DisableUart, [], []), Frame(E.Nop, [], []), Frame(E.Nop, [], [])])
  {
    var fs := [Frame(E.DisableUart, [], []), Frame(E.Nop, [], []), Frame(E.Nop, [], [])];
    assert Stream(fs[2..]) == FrameBytes(fs[2]) + Stream([]);
    assert Stream(fs[1..]) == FrameBytes(fs[1]) + Stream(fs[2..]);
    assert Stream(fs) == UartDisable(c).bytes;
    FramesOf(fs);
  }

  /** GPIO_INT with the mode as argument is one frame. */
  lemma InterruptFrames(c: Client, pin: nat, mode: Option<IntMode>)
    requires ClientOk(c) && pin < 8
    ensures Frames(SetInterruptMode(c, pin, mode).bytes) == Some([Frame(E.GpioInt, [IntArg(pin, mode)], [])])
  {
    var f := Frame(E.GpioInt, [IntArg(pin, mode)], []);
    assert FrameBytes(f) == SetInterruptMode(c, pin, mode).bytes;
    OneFrame(f);
  }

  // ---------------------------------------------------------------------------
  // Replies

  /** Bytes received with nothing buffered are the whole buffer. */
  lemma ReceiveFresh(c: Client, bytes: seq<Octet>)
    requires ClientOk(c) && c.buf == []
    ensures Receive(c, bytes) == Parse(c.(buf := bytes))
  {
    assert c.buf + bytes == bytes;
  }

  /** A pass that uses up the buffer ends the run. */
  lemma ParseDone(c: Client, c1: Client, o: seq<Event>)
    requires ClientOk(c) && c.buf != [] && ParseStep(c) == Next(c1, o) && c1.buf == []
    ensures Parse(c) == Idle(c1, o)
  {
    ParseAfterNext(c, c1, o);
    assert Parse(c1) == Idle(c1, []);
    assert o + [] == o;
  }

  /** A sync round trip: the ECHO the library writes comes back from an idle
      port as DATA 0x88, which the parser hands to the sync's callback,
      leaving the client as it was. */
  lemma SyncEchoes(c: Client, tag: nat, p: E.Port, env: E.Env)
    requires ClientOk(c) && c.buf == [] && c.queue == []
    requires E.Inv(p) && E.EnvOk(env) && p.state == E.ReadCmd && p.pendingOut && !p.pendingIn && p.reply == []
    ensures var s := Sync(c, Some(tag));
      && E.OutCompletion(p, s.bytes, env).1 == [E.StartOut, E.StartIn([E.ReplyData, 0x88])]
      && Receive(s.c, [E.ReplyData, 0x88]) == Idle(c, [Replied(tag, [0x88])])
  {
    var s := Sync(c, Some(tag));
    SyncEchoAtPort(p, env);
    SyncReplyParses(c, tag);
  }

  lemma SyncEchoAtPort(p: E.Port, env: E.Env)
    requires E.Inv(p) && E.EnvOk(env) && p.state == E.ReadCmd && p.pendingOut && !p.pendingIn && p.reply == []
    ensures E.OutCompletion(p, SyncBytes, env).1 == [E.StartOut, E.StartIn([E.ReplyData, 0x88])]
  {
    var data: seq<Octet> := [0x88];
    assert SyncBytes == [E.Code(E.Echo), |data| as Octet] + data;
    E.EchoReturnsData(p, data, env);
    assert [E.ReplyData] + data == [E.ReplyData, 0x88];
  }

  lemma SyncReplyParses(c: Client, tag: nat)
    requires ClientOk(c) && c.buf == [] && c.queue == []
    ensures Receive(Sync(c, Some(tag)).c, [E.ReplyData, 0x88]) == Idle(c, [Replied(tag, [0x88])])
  {
    var c1 := Sync(c, Some(tag)).c.(buf := [E.ReplyData, 0x88]);
    assert c1.buf == [E.ReplyData] + [0x88] + [];
    DataReplyDelivers(c1, [0x88], []);
    assert Dequeue(c1).(buf := []) == c;
    ParseDone(c1, c, [Replied(tag, [0x88])]);
    ReceiveFresh(Sync(c, Some(tag)).c, [E.ReplyData, 0x88]);
  }

  /** A UART packet at the head of the buffer: the bytes go to the UART
      object if there is one, and are dropped otherwise. */
  lemma UartStep(c: Client, data: seq<Octet>, more: seq<Octet>)
    requires ClientOk(c) && |data| < 256 && c.buf == [E.ReplyUartRx, |data| as Octet] + data + more
    ensures ParseStep(c) == Next(c.(buf := more), if c.hasUart then [UartRx(data)] else [])
  {
    assert c.buf[2..2 + |data|] == data && c.buf[2 + |data|..] == more;
  }

  /** A UART packet cut short: the parser waits for the rest. */
  lemma UartWaits(c: Client, packet: seq<Octet>)
    requires ClientOk(c) && |packet| >= 2 && packet[0] == E.ReplyUartRx && |packet| == 2 + packet[1] as int
    requires c.buf != [] && |c.buf| < |packet| && c.buf == packet[..|c.buf|]
    ensures ParseStep(c) == Wait && Parse(c) == Idle(c, [])
  {
    assert c.buf[0] == E.ReplyUartRx;
    if |c.buf| >= 2 {
      assert c.buf[1] == packet[1];
    }
  }

  /** The UART packet the firmware adds to a reply reaches the UART object
      as one `data` event with the bytes from the ring, oldest first. */
  lemma UartPacketDelivered(p: E.Port, c: Client)
    requires E.Shape(p) && E.UartPack(p).Some? && ClientOk(c) && c.buf == [] && c.hasUart
    ensures var k := p.uart.count % 256;
      Receive(c, E.UartPack(p).value.reply[|p.reply|..]) == Idle(c, [UartRx(Contents(p.uart)[..k])])
  {
    var k := p.uart.count % 256;
    var data := Contents(p.uart)[..k];
    var packet := E.UartPack(p).value.reply[|p.reply|..];
    assert packet == [E.ReplyUartRx, k as Octet] + data + [];
    var c1 := c.(buf := packet);
    UartStep(c1, data, []);
    assert c1.(buf := []) == c;
    ParseDone(c1, c, [UartRx(data)]);
    ReceiveFresh(c, packet);
  }

  /** However the packet is cut by the socket, the parser waits for the rest
      and then delivers the same event. */
  lemma UartPacketSplit(p: E.Port, c: Client, i: nat)
    requires E.Shape(p) && E.UartPack(p).Some? && ClientOk(c) && c.buf == [] && c.hasUart
    requires i < |E.UartPack(p).value.reply| - |p.reply|
    ensures var packet := E.UartPack(p).value.reply[|p.reply|..];
      && Receive(c, packet[..i]) == Idle(c.(buf := packet[..i]), [])
      && Receive(c.(buf := packet[..i]), packet[i..]) == Receive(c, packet)
  {
    UartPacketBytes(p);
    CutPacket(c, E.UartPack(p).value.reply[|p.reply|..], i);
  }

  /** The bytes `port_uart_pack` adds: the UART_RX code, the count, and that
      many bytes from the ring. */
  lemma UartPacketBytes(p: E.Port)
    requires E.Shape(p) && E.UartPack(p).Some?
    ensures var k := p.uart.count % 256;
      var packet := E.UartPack(p).value.reply[|p.reply|..];
      && packet == [E.ReplyUartRx, k as Octet] + Contents(p.uart)[..k]
      && |packet| == 2 + packet[1] as int
  {
    var k := p.uart.count % 256;
    DropPrefix(p.reply, [E.ReplyUartRx, k as Octet] + Contents(p.uart)[..k]);
  }

  /** A UART packet cut anywhere: the first part waits, and the second
      completes the same parse as the whole packet. */
  lemma CutPacket(c: Client, packet: seq<Octet>, i: nat)
    requires ClientOk(c) && c.buf == []
    requires |packet| >= 2 && packet[0] == E.ReplyUartRx && |packet| == 2 + packet[1] as int && i < |packet|
    ensures Receive(c, packet[..i]) == Idle(c.(buf := packet[..i]), [])
    ensures Receive(c.(buf := packet[..i]), packet[i..]) == Receive(c, packet)
  {
    var c1 := c.(buf := packet[..i]);
    ReceiveFresh(c, packet[..i]);
    ReceiveFresh(c, packet);
    TakeDrop(packet, i);
    if i > 0 {
      UartWaits(c1, packet);
    } else {
      assert Parse(c1) == Idle(c1, []);
    }
  }

  /** The reply byte the firmware sends for a pin change: without a level
      mode it is a `change` and a `rise` or `fall` event with the level read;
      with a level mode it fires that mode once, clears it with the GPIO_INT
      command `interruptMode = null` sends, and releases the socket. */
  lemma PinChangeDelivered(c: Client, pin: nat, high: bool)
    requires ClientOk(c) && c.buf == [] && pin < 8
    ensures var b := E.PinChangeByte(pin, high);
      && (c.modes[pin] != Some(High) && c.modes[pin] != Some(Low) ==>
            Receive(c, [b]) == Idle(c, [PinChanged(pin, high), PinEdge(pin, high)]))
      && (c.modes[pin] == Some(High) || c.modes[pin] == Some(Low) ==>
            Receive(c, [b]) == Idle(c.(modes := c.modes[pin := None], pending := Unref(c.pending)),
              [LevelFired(pin, c.modes[pin].value), Wrote(SetInterruptMode(c, pin, None).bytes)]))
  {
    var b := E.PinChangeByte(pin, high);
    assert ChangedPin(b) == pin;
    assert ChangedHigh(b) == high;
    var c1 := c.(buf := [b]);
    assert c1.buf[1..] == [];
    ReceiveFresh(c, [b]);
    var m := c.modes[pin];
    if m == Some(High) || m == Some(Low) {
      var c2 := c.(modes := c.modes[pin := None], pending := Unref(c.pending));
      var o := [LevelFired(pin, m.value), Wrote([E.Code(E.GpioInt), pin as Octet])];
      assert ParseStep(c1) == Next(c2, o);
      ParseDone(c1, c2, o);
      assert SetInterruptMode(c, pin, None).bytes == [E.Code(E.GpioInt), pin as Octet];
    } else {
      var o := [PinChanged(pin, high), PinEdge(pin, high)];
      assert ParseStep(c1) == Next(c, o);
      ParseDone(c1, c, o);
    }
  }

  /** The clearing command reads, at the firmware, as sense mode 0 on the
      pin. */
  lemma ClearingDisablesSense(c: Client, pin: nat)
    requires ClientOk(c) && pin < 8
    ensures var b := SetInterruptMode(c, pin, None).bytes;
      E.CmdOf(b[0]) == Some(E.GpioInt) && E.Low3(b[1]) == pin && (b[1] / 16) % 8 == 0
  {
    E.CmdOfCode(E.GpioInt);
    IntArgDecodes(pin, None);
  }

  /** `analogRead`: the handler it queues receives the two bytes of the
      firmware's ADC reply, which read back as the conversion result. */
  lemma AnalogReadDelivered(c: Client, pin: nat, portB: bool, tag: nat, p: E.Port, result: nat)
    requires ClientOk(c) && c.buf == [] && c.queue == [] && pin < 8 && AdcPin(pin, portB)
    requires E.Shape(p) && result < 0x1_0000 && |p.reply| + 3 <= E.BufSize
    ensures AnalogReadCall(c, pin, portB, tag).Ok?
    ensures var c1 := AnalogReadCall(c, pin, portB, tag).value.c;
      var bytes := E.AdcReply(p, result).0.reply[|p.reply|..];
      && |bytes| == 3
      && Receive(c1, bytes) == Idle(c, [Replied(tag, bytes[1..])])
      && AnalogValue(bytes[1..]) == result
  {
    var c1 := AnalogReadCall(c, pin, portB, tag).value.c;
    var bytes := E.AdcReply(p, result).0.reply[|p.reply|..];
    var c2 := c1.(buf := bytes);
    assert c2.buf == [E.ReplyData] + bytes[1..] + [];
    DataReplyDelivers(c2, bytes[1..], []);
    assert Dequeue(c2).(buf := []) == c;
    ParseDone(c2, c, [Replied(tag, bytes[1..])]);
    ReceiveFresh(c1, bytes);
  }
}
