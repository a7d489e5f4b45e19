/** The command engine of one module port (firmware/port.c). The host sends a
    byte stream of commands over the port's bridge channel; the engine reads
    it a command byte and its argument bytes at a time, executes each command
    against the port's pins and serial unit, and queues reply bytes that go
    back over the same channel.

    Each interrupt handler of the source is one pure function from the port
    record to the new record and the list of effects it has on the bridge and
    the hardware. Hardware reads (pin levels, the I2C data register, the ADC
    result) are inputs. */
module PortEngine {
  import opened Common
  import opened PortRing
  import BridgeProtocol

  /** BRIDGE_BUF_SIZE: the command and reply buffers of a port. */
  const BufSize: nat := BridgeProtocol.BufSize

  // PortReply
  const ReplyAck: Octet := 0x80
  const ReplyNack: Octet := 0x81
  const ReplyHigh: Octet := 0x82
  const ReplyLow: Octet := 0x83
  const ReplyData: Octet := 0x84
  const ReplyPinChange: Octet := 0xC0
  const ReplyUartRx: Octet := 0xD0

  /** PortState. The ExecStatus results of a command are the states
      ReadCmd (done), Exec (continue) and ExecAsync. */
  datatype PortState = Disable | ReadCmd | ReadArg | Exec | ExecAsync

  datatype Mode = NoMode | SpiMode | I2cMode | UartMode

  /** PortData. `cmdBuf` is the command buffer as filled by the last bridge
      OUT transfer, so `|cmdBuf|` is `cmd_len`; `reply` is `reply_buf` up to
      `reply_len`; `sense` is the EIC sense configuration of each port pin;
      `eventsOn` says whether pin-change and UART-timeout interrupts are
      enabled. */
  datatype Port = Port(
    state: PortState, mode: Mode,
    cmd: Octet, arg: seq<Octet>, argPos: nat, argLen: nat,
    cmdBuf: seq<Octet>, cmdPos: nat, reply: seq<Octet>,
    pendingIn: bool, pendingOut: bool, eventsOn: bool,
    sense: seq<Octet>, uart: Ring)

  /** What the hardware shows when a handler runs: the level of each port pin,
      which pins can raise an external interrupt, the I2C data register, and
      the bytes the SPI unit shifts in on the next DMA transfer (a buffer's
      worth; a transfer takes as many as it clocks). */
  datatype Env = Env(levels: seq<bool>, canInterrupt: seq<bool>, i2cData: Octet, spiIn: seq<Octet>)

  predicate EnvOk(e: Env)
  {
    |e.levels| == 8 && |e.canInterrupt| == 8 && |e.spiIn| >= BufSize
  }

  /** Effects on the pins and serial units, in the order the source performs
      them. */
  datatype HwOp =
    | PowerUp | PowerDown
    | PinIn(pin: nat) | PinOut(pin: nat) | PinHigh(pin: nat) | PinLow(pin: nat) | PinToggle(pin: nat)
    | PullDown(pin: nat) | PullUp(pin: nat) | Float(pin: nat)
    | EicConfig(pin: nat, sense: Octet) | MuxEic(pin: nat) | PinGpio(pin: nat)
    | AdcRead(pin: nat) | DacWrite(value: nat)
    | SpiInit(cpol: bool, cpha: bool, spiBaud: Octet, clockDiv: Octet) | SpiOff
    | I2cInit(i2cBaud: Octet) | I2cOff | I2cStart(addr: Octet, read: bool) | I2cStop
    | I2cWrite(b: Octet) | I2cReadNext
    | UartInit(uartBaud: nat) | UartOff | UartTimeoutRestart | SercomReset | DmaAbort
    | PwmSetDuty(pin: nat, duty: nat) | PwmSetPeriod(tcc: nat, prescalar: nat, period: nat)
    | SpiTx(bytes: seq<Octet>) | SpiRx(size: nat) | SpiTxRx(bytes: seq<Octet>) | UartTx(bytes: seq<Octet>)

  /** Effects on the bridge channel: `bridge_start_out` of the command buffer,
      `bridge_start_in` of the reply, `port_error` (`bridge_disable_chan`),
      `bridge_enable_chan`, and the firmware's `invalid()`. */
  datatype PortAction = StartOut | StartIn(bytes: seq<Octet>) | ChanError | ChanEnable | Invalid | Hw(op: HwOp)

  // ---------------------------------------------------------------------------
  // Command table

  /** PortCmd. */
  datatype Cmd =
    | Nop | Flush | Echo | GpioIn | GpioHigh | GpioLow | GpioCfg | GpioWait | GpioInt
    | EnableSpi | DisableSpi | EnableI2c | DisableI2c | EnableUart | DisableUart
    | Tx | Rx | TxRx | Start | Stop | GpioToggle | GpioInput | GpioRawRead
    | AnalogRead | AnalogWrite | GpioPull | PwmDutyCycle | PwmPeriod

  /** The command byte of each command. */
  function Code(c: Cmd): Octet
  {
    match c
    case Nop => 0 case Flush => 1 case Echo => 2 case GpioIn => 3 case GpioHigh => 4
    case GpioLow => 5 case GpioCfg => 6 case GpioWait => 7 case GpioInt => 8
    case EnableSpi => 10 case DisableSpi => 11 case EnableI2c => 12 case DisableI2c => 13
    case EnableUart => 14 case DisableUart => 15 case Tx => 16 case Rx => 17 case TxRx => 18
    case Start => 19 case Stop => 20 case GpioToggle => 21 case GpioInput => 22
    case GpioRawRead => 23 case AnalogRead => 24 case AnalogWrite => 25 case GpioPull => 26
    case PwmDutyCycle => 27 case PwmPeriod => 28
  }

  /** The command each byte 0..28 names; 9 names none. */
  const Commands: seq<Option<Cmd>> := [
    Some(Nop), Some(Flush), Some(Echo), Some(GpioIn), Some(GpioHigh), Some(GpioLow), Some(GpioCfg),
    Some(GpioWait), Some(GpioInt), None, Some(EnableSpi), Some(DisableSpi), Some(EnableI2c),
    Some(DisableI2c), Some(EnableUart), Some(DisableUart), Some(Tx), Some(Rx), Some(TxRx), Some(Start),
    Some(Stop), Some(GpioToggle), Some(GpioInput), Some(GpioRawRead), Some(AnalogRead), Some(AnalogWrite),
    Some(GpioPull), Some(PwmDutyCycle), Some(PwmPeriod)]

  /** The command a byte names, if any (the `switch` of `port_cmd_args` and
      `port_begin_cmd`). */
  function CmdOf(b: Octet): Option<Cmd>
  {
    if b as int < |Commands| then Commands[b] else None
  }

  /** Every command's byte reads back as that command. */
  lemma CmdOfCode(c: Cmd)
    ensures CmdOf(Code(c)) == Some(c)
  {
  }

  /** A byte that names a command is that command's byte. */
  lemma CodeOfCmd(b: Octet)
    ensures CmdOf(b).Some? ==> Code(CmdOf(b).value) == b
  {
  }

  /** The command bytes are exactly 0..28 without 9. */
  lemma CommandBytes(b: Octet)
    ensures CmdOf(b).Some? <==> b <= 28 && b != 9
  {
  }

  /** `port_cmd_args`: how many argument bytes follow a command byte. */
  function ArgCount(c: Cmd): nat
  {
    match c
    case Nop | Flush | DisableSpi | DisableI2c | DisableUart | Stop => 0
    case Echo | Tx | Rx | TxRx => 1
    case GpioIn | GpioHigh | GpioLow | GpioToggle | GpioWait | GpioInt | GpioCfg | GpioInput
       | GpioRawRead | AnalogRead | GpioPull => 1
    case AnalogWrite => 2
    case EnableSpi => 3
    case EnableI2c => 1
    case EnableUart => 2
    case Start => 1
    case PwmDutyCycle | PwmPeriod => 3
  }

  /** The argument count `port_step` uses for a received byte: a byte that is
      no command gets `invalid()` and no arguments. */
  function ArgsOf(b: Octet): (r: nat)
    ensures r <= 3
  {
    match CmdOf(b)
    case None => 0
    case Some(c) => ArgCount(c)
  }

  /** `port_tx_locked`: an async command other than RX still reads the
      command buffer. */
  predicate TxLocked(cmd: Octet)
  {
    cmd != Code(Rx)
  }

  /** `port_rx_locked`: an async command other than TX still writes the reply
      buffer. */
  predicate RxLocked(cmd: Octet)
  {
    cmd != Code(Tx)
  }

  /** `port_async_events_allowed`: no reply transfer in flight, and either
      waiting for commands or in an async command that leaves the reply
      buffer alone. */
  predicate AsyncAllowed(p: Port)
  {
    !p.pendingIn && (p.state == ReadCmd || (p.state == ExecAsync && !RxLocked(p.cmd)))
  }

  // ---------------------------------------------------------------------------
  // Invariants

  /** Buffer sizes and bounds: `cmd_pos <= cmd_len <= BRIDGE_BUF_SIZE`,
      `reply_len <= BRIDGE_BUF_SIZE`, three argument bytes, eight pins. */
  predicate Shape(p: Port)
  {
    && |p.arg| == 3 && |p.sense| == 8
    && |p.cmdBuf| <= BufSize && p.cmdPos <= |p.cmdBuf| && |p.reply| <= BufSize
    && RingOk(p.uart)
  }

  /** Shape, plus: while reading arguments, `arg_pos + arg_len` is the
      command's argument count and at least one byte is still due; a disabled
      port has its events off. */
  predicate Core(p: Port)
  {
    && Shape(p)
    && (p.state == ReadArg ==> 1 <= p.argLen && ArgsOf(p.cmd) == p.argPos + p.argLen)
    && (p.state == Disable ==> !p.eventsOn)
  }

  /** Core, plus: async events are only ever enabled when allowed. */
  predicate Inv(p: Port)
  {
    && Core(p) && (p.eventsOn ==> AsyncAllowed(p))
    && (p.pendingOut ==> p.cmdPos == |p.cmdBuf|)
  }

  // ---------------------------------------------------------------------------
  // Building blocks

  /** `port_send_status`: one reply byte if there is room, else `port_error`
      and no write. */
  function SendStatus(p: Port, d: Octet): (r: (Port, seq<PortAction>))
    ensures r.0 == p.(reply := r.0.reply)
    ensures r.0.reply == p.reply + [d] <==> |p.reply| < BufSize
    ensures r.1 == [ChanError] <==> |p.reply| >= BufSize
    ensures |p.reply| >= BufSize ==> r.0 == p
    ensures |p.reply| <= BufSize ==> |r.0.reply| <= BufSize
  {
    if |p.reply| >= BufSize then (p, [ChanError]) else (p.(reply := p.reply + [d]), [])
  }

  /** `port_tx_len`: the part of a payload of `arg[0]` bytes that is already
      in the command buffer. */
  function TxLen(p: Port): (n: nat)
    requires Shape(p)
    ensures p.cmdPos + n <= |p.cmdBuf| && n <= p.arg[0] as nat
    ensures n == p.arg[0] as nat || p.cmdPos + n == |p.cmdBuf|
  {
    Min(p.arg[0] as nat, |p.cmdBuf| - p.cmdPos)
  }

  /** `port_rx_len`: the part of a payload of `arg[0]` bytes that fits in the
      reply buffer. */
  function RxLen(p: Port): (n: nat)
    requires Shape(p)
    ensures |p.reply| + n <= BufSize && n <= p.arg[0] as nat
    ensures n == p.arg[0] as nat || |p.reply| + n == BufSize
  {
    Min(p.arg[0] as nat, BufSize - |p.reply|)
  }

  /** `port_txrx_len`: the part of a payload that is in the command buffer and
      fits in the reply buffer. */
  function TxRxLen(p: Port): (n: nat)
    requires Shape(p)
    ensures p.cmdPos + n <= |p.cmdBuf| && |p.reply| + n <= BufSize && n <= p.arg[0] as nat
    ensures n == p.arg[0] as nat || p.cmdPos + n == |p.cmdBuf| || |p.reply| + n == BufSize
  {
    Min(Min(p.arg[0] as nat, |p.cmdBuf| - p.cmdPos), BufSize - |p.reply|)
  }

  /** `arg[0] -= n` on the 8-bit argument. */
  function Consume(a: seq<Octet>, n: nat): (r: seq<Octet>)
    requires |a| == 3 && n <= a[0] as nat
    ensures |r| == 3 && r[1..] == a[1..] && r[0] as nat == a[0] as nat - n
  {
    a[0 := (a[0] as int - n) as Octet]
  }

  /** The port pin `port_selected_pin` names: `arg[0] % 8`. */
  function SelectedPin(p: Port): (pin: nat)
    requires |p.arg| == 3
    ensures pin < 8
  {
    (p.arg[0] % 8) as nat
  }

  // ---------------------------------------------------------------------------
  // port_begin_cmd and port_continue_cmd

  /** How `port_begin_cmd` treats a command: the payload commands go on to
      `port_continue_cmd`, the GPIO commands act on one pin, the mode commands
      switch the serial unit and the rest act once. */
  datatype Group = PayloadGroup | GpioGroup | ModeGroup | OtherGroup

  function GroupOf(c: Cmd): Group
  {
    match c
    case Echo | Tx | Rx | TxRx => PayloadGroup
    case GpioIn | GpioInput | GpioRawRead | GpioHigh | GpioLow | GpioToggle | GpioPull | GpioInt | GpioWait | GpioCfg => GpioGroup
    case EnableSpi | DisableSpi | EnableI2c | DisableI2c | EnableUart | DisableUart => ModeGroup
    case Nop | Flush | AnalogRead | AnalogWrite | Start | Stop | PwmDutyCycle | PwmPeriod => OtherGroup
  }

  predicate IsPayload(c: Cmd)
  {
    GroupOf(c) == PayloadGroup
  }

  /** The frame every command keeps: buffers, transfers and events. */
  predicate SameChannel(p: Port, q: Port)
  {
    q.cmdBuf == p.cmdBuf && q.cmdPos == p.cmdPos && q.pendingIn == p.pendingIn
    && q.pendingOut == p.pendingOut && q.eventsOn == p.eventsOn && q.cmd == p.cmd
    && q.argPos == p.argPos && q.argLen == p.argLen
  }

  /** A 16-bit value sent high byte first: `(hi << 8) + lo`. */
  function Word(hi: Octet, lo: Octet): nat
  {
    hi as nat * 256 + lo as nat
  }

  /** The low three bits of an argument byte: a pin or TCC number. */
  function Low3(a: Octet): (r: nat)
    ensures r < 8
  {
    (a % 8) as nat
  }

  /** `port_begin_cmd` with the command's arguments in `arg`. The new state is
      the command's ExecStatus: ReadCmd (done), Exec (continue with the
      payload) or ExecAsync (wait for an interrupt). */
  function Begin(p: Port, env: Env): (r: (Port, seq<PortAction>))
    requires Shape(p) && EnvOk(env)
    ensures Shape(r.0) && SameChannel(p, r.0)
    ensures r.0.state == Exec <==> CmdOf(p.cmd).Some? && IsPayload(CmdOf(p.cmd).value)
    ensures r.0.state == ExecAsync <==> CmdOf(p.cmd) in {Some(AnalogRead), Some(Start)}
    ensures r.0.state in {ReadCmd, Exec, ExecAsync}
    ensures |p.reply| <= |r.0.reply| <= |p.reply| + 1 && r.0.reply[..|p.reply|] == p.reply
    ensures CmdOf(p.cmd) == None ==> r == (p.(state := ReadCmd), [ChanError])
  {
    match CmdOf(p.cmd)
    case None => (p.(state := ReadCmd), [ChanError])
    case Some(c) => BeginCmd(p, c, env)
  }

  /** `port_begin_cmd` for a byte that names a command. */
  function BeginCmd(p: Port, c: Cmd, env: Env): (r: (Port, seq<PortAction>))
    requires Shape(p) && EnvOk(env)
    ensures Shape(r.0) && SameChannel(p, r.0)
    ensures r.0.state == (if IsPayload(c) then Exec else if c in {AnalogRead, Start} then ExecAsync else ReadCmd)
    ensures |p.reply| <= |r.0.reply| <= |p.reply| + 1 && r.0.reply[..|p.reply|] == p.reply
    ensures c == Flush ==> r == (p.(state := ReadCmd), [ChanError])
  {
    match GroupOf(c)
    case PayloadGroup => BeginPayload(p, c)
    case GpioGroup => BeginGpio(p, c, env)
    case ModeGroup => BeginMode(p, c)
    case OtherGroup => BeginOther(p, c)
  }

  /** ECHO, RX and TXRX queue the DATA reply byte; all four continue. */
  function BeginPayload(p: Port, c: Cmd): (r: (Port, seq<PortAction>))
    requires Shape(p) && IsPayload(c)
    ensures Shape(r.0) && SameChannel(p, r.0) && r.0.state == Exec
    ensures r.0 == p.(reply := r.0.reply, state := Exec)
    ensures c == Tx ==> r == (p.(state := Exec), [])
    ensures c != Tx ==> (r.0.reply == p.reply + [ReplyData] <==> |p.reply| < BufSize)
  {
    if c == Tx then (p.(state := Exec), [])
    else
      var (q, a) := SendStatus(p, ReplyData);
      (q.(state := Exec), a)
  }

  /** The GPIO commands. All act on `port_selected_pin`, except PULL and INT,
      which take the pin from the low three bits. */
  function BeginGpio(p: Port, c: Cmd, env: Env): (r: (Port, seq<PortAction>))
    requires Shape(p) && EnvOk(env)
    requires GroupOf(c) == GpioGroup
    ensures Shape(r.0) && SameChannel(p, r.0) && r.0.state == ReadCmd
    ensures r.0 == p.(reply := r.0.reply, sense := r.0.sense, state := ReadCmd)
    ensures c == GpioIn || c == GpioRawRead ==>
      (r.0.reply == p.reply + [if env.levels[SelectedPin(p)] then ReplyHigh else ReplyLow] <==> |p.reply| < BufSize)
    ensures c != GpioIn && c != GpioRawRead ==> r.0.reply == p.reply
    ensures c != GpioInt ==> r.0.sense == p.sense
  {
    if c == GpioIn then
      var (q, a) := ReportLevel(p, env);
      (q, [Hw(PinIn(SelectedPin(p)))] + a)
    else if c == GpioRawRead then ReportLevel(p, env)
    else if c == GpioInt then
      var (q, a) := ConfigureInterrupt(p, env);
      (q.(state := ReadCmd), a)
    else (p.(state := ReadCmd), PinActions(p, c))
  }

  /** The level of the selected pin as a HIGH or LOW reply. */
  function ReportLevel(p: Port, env: Env): (r: (Port, seq<PortAction>))
    requires Shape(p) && EnvOk(env)
    ensures Shape(r.0) && r.0 == p.(reply := r.0.reply, state := ReadCmd)
    ensures r.0.reply == p.reply + [if env.levels[SelectedPin(p)] then ReplyHigh else ReplyLow] <==> |p.reply| < BufSize
    ensures |p.reply| <= |r.0.reply| <= |p.reply| + 1 && r.0.reply[..|p.reply|] == p.reply
  {
    var (q, a) := SendStatus(p, if env.levels[SelectedPin(p)] then ReplyHigh else ReplyLow);
    (q.(state := ReadCmd), a)
  }

  /** The GPIO commands that only drive pins. */
  function PinActions(p: Port, c: Cmd): seq<PortAction>
    requires Shape(p)
  {
    var pin := SelectedPin(p);
    match c
    case GpioInput => [Hw(PinIn(pin))]
    case GpioHigh => [Hw(PinHigh(pin)), Hw(PinOut(pin))]
    case GpioLow => [Hw(PinLow(pin)), Hw(PinOut(pin))]
    case GpioToggle => [Hw(PinToggle(pin)), Hw(PinOut(pin))]
    case GpioPull => PullActions(p.arg[0])
    case _ => []
  }

  /** CMD_GPIO_PULL: pin in the low three bits, pull mode in the high nibble;
      0 pulls down, 1 up, 2 floats, anything else does nothing. */
  function PullActions(a0: Octet): (r: seq<PortAction>)
    ensures |r| <= 1
  {
    var pin := Low3(a0);
    var mode := a0 / 16;
    if mode == 0 then [Hw(PullDown(pin))]
    else if mode == 1 then [Hw(PullUp(pin))]
    else if mode == 2 then [Hw(Float(pin))]
    else []
  }

  /** CMD_GPIO_INT: pin in the low three bits, EIC sense mode in bits 4..6. An
      interrupt-capable pin gets the sense mode and is muxed to the EIC, or
      back to GPIO for mode 0; any other pin is left alone. */
  function ConfigureInterrupt(p: Port, env: Env): (r: (Port, seq<PortAction>))
    requires Shape(p) && EnvOk(env)
    ensures Shape(r.0) && r.0 == p.(sense := r.0.sense)
    ensures r.0.sense == (if env.canInterrupt[Low3(p.arg[0])] then p.sense[Low3(p.arg[0]) := (p.arg[0] / 16) % 8] else p.sense)
  {
    var pin := Low3(p.arg[0]);
    var mode := (p.arg[0] / 16) % 8;
    if env.canInterrupt[pin] then
      (p.(sense := p.sense[pin := mode]), [Hw(EicConfig(pin, mode)), Hw(if mode != 0 then MuxEic(pin) else PinGpio(pin))])
    else (p, [])
  }

  /** The commands that switch the port's serial unit between SPI, I2C and
      UART. Enabling UART empties the receive ring. */
  function BeginMode(p: Port, c: Cmd): (r: (Port, seq<PortAction>))
    requires Shape(p) && GroupOf(c) == ModeGroup
    ensures Shape(r.0) && r.0 == p.(state := ReadCmd, mode := r.0.mode, uart := r.0.uart)
    ensures r.0.mode == (if c == EnableSpi then SpiMode else if c == EnableI2c then I2cMode
                         else if c == EnableUart then UartMode else NoMode)
    ensures c == EnableUart ==> Contents(r.0.uart) == [] && |r.0.uart.rx| == |p.uart.rx|
    ensures c != EnableUart ==> r.0.uart == p.uart
  {
    var a0 := p.arg[0];
    match c
    case EnableSpi =>
      (p.(state := ReadCmd, mode := SpiMode), [Hw(SpiInit(a0 % 2 == 1, (a0 / 2) % 2 == 1, p.arg[1], p.arg[2]))])
    case DisableSpi => (p.(state := ReadCmd, mode := NoMode), [Hw(SpiOff)])
    case EnableI2c => (p.(state := ReadCmd, mode := I2cMode), [Hw(I2cInit(a0))])
    case DisableI2c => (p.(state := ReadCmd, mode := NoMode), [Hw(I2cOff)])
    case EnableUart =>
      (p.(state := ReadCmd, mode := UartMode, uart := Reset(p.uart)), [Hw(UartInit(Word(a0, p.arg[1])))])
    case DisableUart => (p.(state := ReadCmd, mode := NoMode), [Hw(UartOff)])
  }

  /** The rest: NOP, the analog unit, I2C framing, PWM, and FLUSH, which
      `port_begin_cmd` does not handle. Only START changes the record beyond
      the state, clearing `arg[0]` so that its completion finishes it. */
  function BeginOther(p: Port, c: Cmd): (r: (Port, seq<PortAction>))
    requires Shape(p) && GroupOf(c) == OtherGroup
    ensures Shape(r.0) && r.0 == p.(state := r.0.state, arg := r.0.arg)
    ensures r.0.state == (if c in {AnalogRead, Start} then ExecAsync else ReadCmd)
    ensures r.0.arg == (if c == Start then p.arg[0 := 0] else p.arg)
    ensures c == Flush ==> r.1 == [ChanError]
  {
    var a0 := p.arg[0];
    match c
    case Nop => (p.(state := ReadCmd), [])
    case AnalogRead => (p.(state := ExecAsync), [Hw(AdcRead(SelectedPin(p)))])
    case AnalogWrite => (p.(state := ReadCmd), [Hw(DacWrite(Word(a0, p.arg[1])))])
    case Start => (p.(state := ExecAsync, arg := p.arg[0 := 0]), [Hw(I2cStart(a0, a0 % 2 == 1))])
    case Stop => (p.(state := ReadCmd), [Hw(I2cStop)])
    case PwmDutyCycle => (p.(state := ReadCmd), [Hw(PwmSetDuty(a0 as nat, Word(p.arg[1], p.arg[2])))])
    case PwmPeriod => (p.(state := ReadCmd), [Hw(PwmSetPeriod(Low3(a0), (a0 / 16) as nat, Word(p.arg[1], p.arg[2])))])
    case Flush => (p.(state := ReadCmd), [ChanError])
  }

  /** CMD_ECHO's payload step: the reply gains exactly the command bytes
      consumed, as many as the command buffer holds and the reply buffer
      takes, and `arg[0]` drops by that many; the command ends when `arg[0]`
      reaches 0. */
  function EchoChunk(p: Port): (r: Port)
    requires Shape(p)
    ensures Shape(r) && r == p.(reply := r.reply, cmdPos := r.cmdPos, arg := r.arg, state := r.state)
    ensures p.cmdPos <= r.cmdPos && r.reply == p.reply + p.cmdBuf[p.cmdPos..r.cmdPos]
    ensures r.arg[0] as int == p.arg[0] as int - (r.cmdPos - p.cmdPos) && r.arg[1..] == p.arg[1..]
    ensures r.arg[0] == 0 || r.cmdPos == |p.cmdBuf| || |r.reply| == BufSize
    ensures r.state == (if r.arg[0] == 0 then ReadCmd else Exec)
  {
    var n := TxRxLen(p);
    var arg := Consume(p.arg, n);
    p.(reply := p.reply + p.cmdBuf[p.cmdPos..p.cmdPos + n], cmdPos := p.cmdPos + n, arg := arg,
       state := if arg[0] == 0 then ReadCmd else Exec)
  }

  /** `port_continue_cmd`, called in EXEC with unread command bytes and room
      in the reply (port_step only dispatches then). TX, RX and TXRX start one
      transfer of the payload part at hand and go async; the bytes sent are
      the ones consumed from the command buffer. */
  function Continue(p: Port, env: Env): (r: (Port, seq<PortAction>))
    requires Shape(p) && EnvOk(env) && p.cmdPos < |p.cmdBuf| && |p.reply| < BufSize
    ensures Shape(r.0)
    ensures r.0 == p.(reply := r.0.reply, cmdPos := r.0.cmdPos, arg := r.0.arg, state := r.0.state)
    ensures p.cmdPos <= r.0.cmdPos && |p.reply| <= |r.0.reply| && r.0.reply[..|p.reply|] == p.reply
    ensures r.0.state in {ReadCmd, Exec, ExecAsync}
    ensures r.0.state == Exec ==> r.0.cmdPos > p.cmdPos
    ensures CmdOf(p.cmd).None? ==> r == (p.(state := ReadCmd), [])
  {
    match CmdOf(p.cmd)
    case None => (p.(state := ReadCmd), [])
    case Some(c) => ContinueCmd(p, c, env)
  }

  /** `port_continue_cmd` for a byte that names a command: only the payload
      commands have anything to continue. */
  function ContinueCmd(p: Port, c: Cmd, env: Env): (r: (Port, seq<PortAction>))
    requires Shape(p) && EnvOk(env) && p.cmdPos < |p.cmdBuf| && |p.reply| < BufSize
    ensures Shape(r.0)
    ensures r.0 == p.(reply := r.0.reply, cmdPos := r.0.cmdPos, arg := r.0.arg, state := r.0.state)
    ensures p.cmdPos <= r.0.cmdPos && |p.reply| <= |r.0.reply| && r.0.reply[..|p.reply|] == p.reply
    ensures r.0.state in {ReadCmd, Exec, ExecAsync}
    ensures r.0.state == Exec ==> r.0.cmdPos > p.cmdPos
    ensures c == Echo ==> r == (EchoChunk(p), [])
    ensures c in {Tx, Rx, TxRx} ==> r.0.state == ExecAsync
    ensures !IsPayload(c) ==> r == (p.(state := ReadCmd), [])
  {
    if !IsPayload(c) then (p.(state := ReadCmd), [])
    else
      match c
      case Echo => (EchoChunk(p), [])
      case Tx => ContinueTx(p)
      case Rx => ContinueRx(p, env)
      case TxRx => ContinueTxRx(p, env)
  }

  /** The part of a TX payload at hand, taken from the command buffer:
      as much as is there, at most `arg[0]`, which drops by the amount. */
  function TxChunk(p: Port): (r: (Port, seq<Octet>))
    requires Shape(p)
    ensures Shape(r.0) && r.0 == p.(cmdPos := r.0.cmdPos, arg := r.0.arg)
    ensures p.cmdPos <= r.0.cmdPos && r.1 == p.cmdBuf[p.cmdPos..r.0.cmdPos]
    ensures r.0.arg[0] as int == p.arg[0] as int - |r.1| && r.0.arg[1..] == p.arg[1..]
    ensures r.0.arg[0] == 0 || r.0.cmdPos == |p.cmdBuf|
  {
    var n := TxLen(p);
    (p.(cmdPos := p.cmdPos + n, arg := Consume(p.arg, n)), p.cmdBuf[p.cmdPos..p.cmdPos + n])
  }

  /** TX: SPI and UART send the part of the payload at hand by DMA; I2C
      writes one byte; in any other mode nothing starts. */
  function ContinueTx(p: Port): (r: (Port, seq<PortAction>))
    requires Shape(p) && p.cmdPos < |p.cmdBuf|
    ensures Shape(r.0) && r.0 == p.(cmdPos := r.0.cmdPos, arg := r.0.arg, state := ExecAsync)
    ensures p.cmdPos <= r.0.cmdPos
    ensures p.mode in {SpiMode, UartMode} ==>
      var (q, sent) := TxChunk(p);
      r == (q.(state := ExecAsync), [Hw(if p.mode == SpiMode then SpiTx(sent) else UartTx(sent))])
    ensures p.mode == I2cMode ==> r.0.cmdPos == p.cmdPos + 1 && r.1 == [Hw(I2cWrite(p.cmdBuf[p.cmdPos]))]
    ensures p.mode == NoMode ==> r == (p.(state := ExecAsync), [])
  {
    if p.mode == SpiMode || p.mode == UartMode then
      var (q, sent) := TxChunk(p);
      (q.(state := ExecAsync), [Hw(if p.mode == SpiMode then SpiTx(sent) else UartTx(sent))])
    else if p.mode == I2cMode then
      (p.(cmdPos := p.cmdPos + 1, arg := p.arg[0 := Wrap(p.arg[0] as int - 1)], state := ExecAsync), [Hw(I2cWrite(p.cmdBuf[p.cmdPos]))])
    else (p.(state := ExecAsync), [])
  }

  /** RX: SPI appends the bytes its DMA reads in; I2C appends the data
      register; in any other mode nothing starts. */
  function ContinueRx(p: Port, env: Env): (r: (Port, seq<PortAction>))
    requires Shape(p) && EnvOk(env) && |p.reply| < BufSize
    ensures Shape(r.0) && r.0 == p.(reply := r.0.reply, arg := r.0.arg, state := ExecAsync)
    ensures |p.reply| <= |r.0.reply| && r.0.reply[..|p.reply|] == p.reply
    ensures p.mode == SpiMode ==>
      && r.1 == [Hw(SpiRx(|r.0.reply| - |p.reply|))]
      && r.0.reply == p.reply + env.spiIn[..|r.0.reply| - |p.reply|]
      && r.0.arg[0] as int == p.arg[0] as int - (|r.0.reply| - |p.reply|)
      && (r.0.arg[0] == 0 || |r.0.reply| == BufSize)
    ensures p.mode == I2cMode ==> r.0.reply == p.reply + [env.i2cData] && r.1 == [Hw(I2cReadNext)]
    ensures p.mode in {NoMode, UartMode} ==> r == (p.(state := ExecAsync), [])
  {
    if p.mode == SpiMode then
      var n := RxLen(p);
      (p.(reply := p.reply + env.spiIn[..n], arg := Consume(p.arg, n), state := ExecAsync), [Hw(SpiRx(n))])
    else if p.mode == I2cMode then
      (p.(reply := p.reply + [env.i2cData], arg := p.arg[0 := Wrap(p.arg[0] as int - 1)], state := ExecAsync), [Hw(I2cReadNext)])
    else (p.(state := ExecAsync), [])
  }

  /** TXRX: only in SPI mode, a full-duplex DMA of the part at hand, whose
      bytes read in are appended to the reply. */
  function ContinueTxRx(p: Port, env: Env): (r: (Port, seq<PortAction>))
    requires Shape(p) && EnvOk(env)
    ensures Shape(r.0) && r.0 == p.(reply := r.0.reply, cmdPos := r.0.cmdPos, arg := r.0.arg, state := ExecAsync)
    ensures p.cmdPos <= r.0.cmdPos && |p.reply| <= |r.0.reply| && r.0.reply[..|p.reply|] == p.reply
    ensures p.mode == SpiMode ==>
      var sent := p.cmdBuf[p.cmdPos..r.0.cmdPos];
      && r.1 == [Hw(SpiTxRx(sent))]
      && r.0.reply == p.reply + env.spiIn[..|sent|]
      && r.0.arg[0] as int == p.arg[0] as int - |sent|
    ensures p.mode != SpiMode ==> r == (p.(state := ExecAsync), [])
  {
    if p.mode == SpiMode then
      var n := TxRxLen(p);
      var bytes := p.cmdBuf[p.cmdPos..p.cmdPos + n];
      (p.(reply := p.reply + env.spiIn[..n], cmdPos := p.cmdPos + n, arg := Consume(p.arg, n), state := ExecAsync),
       [Hw(SpiTxRx(bytes))])
    else (p.(state := ExecAsync), [])
  }

  // ---------------------------------------------------------------------------
  // port_step

  /** The transfer requests at the top of each pass of the `port_step` loop:
      a new command buffer once the current one is used up, unless an async
      command still reads it; the reply once it is full, or whenever it holds
      something and no commands are at hand, unless an async command still
      writes it. */
  function Requests(p: Port): (r: (Port, seq<PortAction>))
    ensures r.0 == p.(pendingOut := r.0.pendingOut, pendingIn := r.0.pendingIn)
    ensures r.0.pendingOut <==> p.pendingOut || (p.cmdPos >= |p.cmdBuf| && !(p.state == ExecAsync && TxLocked(p.cmd)))
    ensures r.0.pendingIn <==> p.pendingIn || ((|p.reply| >= BufSize || (r.0.pendingOut && |p.reply| > 0))
                                               && !(p.state == ExecAsync && RxLocked(p.cmd)))
    ensures r.1 == (if r.0.pendingOut && !p.pendingOut then [StartOut] else [])
                   + (if r.0.pendingIn && !p.pendingIn then [StartIn(p.reply)] else [])
  {
    var wantOut := p.cmdPos >= |p.cmdBuf| && !p.pendingOut && !(p.state == ExecAsync && TxLocked(p.cmd));
    var q := if wantOut then p.(pendingOut := true) else p;
    var wantIn := (|q.reply| >= BufSize || (q.pendingOut && |q.reply| > 0))
                  && !q.pendingIn && !(q.state == ExecAsync && RxLocked(q.cmd));
    var q' := if wantIn then q.(pendingIn := true) else q;
    (q', (if wantOut then [StartOut] else []) + (if wantIn then [StartIn(q.reply)] else []))
  }

  /** READ_CMD: take a command byte and look up its argument count. A byte
      that names no command trips `invalid()` and reaches `port_begin_cmd`
      with no arguments, which signals the port error. */
  function ReadCommand(p: Port, env: Env): (r: (Port, seq<PortAction>))
    requires Core(p) && EnvOk(env) && p.state == ReadCmd && p.cmdPos < |p.cmdBuf|
    ensures Core(r.0) && SameBuffers(p, r.0) && r.0.state != Disable
    ensures r.0.cmd == p.cmdBuf[p.cmdPos] && r.0.cmdPos == p.cmdPos + 1
    ensures r.0.state == ReadArg <==> ArgsOf(r.0.cmd) > 0
    ensures r.0.state == ReadArg ==> r.0.argPos == 0 && r.0.argLen == ArgsOf(r.0.cmd)
    ensures CmdOf(r.0.cmd).None? ==> r.0.state == ReadCmd && r.1 == [Invalid, ChanError]
  {
    var q := p.(cmd := p.cmdBuf[p.cmdPos], cmdPos := p.cmdPos + 1, argLen := ArgsOf(p.cmdBuf[p.cmdPos]));
    if q.argLen > 0 then (q.(argPos := 0, state := ReadArg), [])
    else
      var (q', a) := Begin(q, env);
      ((q', (if CmdOf(q.cmd).None? then [Invalid] else []) + a))
  }

  /** The latch of one argument byte in READ_ARG. */
  function LatchArg(p: Port): (q: Port)
    requires Core(p) && p.state == ReadArg && p.cmdPos < |p.cmdBuf|
    ensures Shape(q) && q.argLen == p.argLen - 1 && q.argPos + q.argLen == ArgsOf(q.cmd)
  {
    LatchAll(p, 1)
  }

  /** One argument latch: the next command byte is stored at `argPos`. */
  function LatchOne(p: Port): (q: Port)
    requires Shape(p) && 0 < p.argLen && p.argPos + p.argLen <= 3 && p.cmdPos < |p.cmdBuf|
    ensures Shape(q) && q == p.(arg := q.arg, argPos := q.argPos, cmdPos := q.cmdPos, argLen := q.argLen)
    ensures q.arg == p.arg[p.argPos := p.cmdBuf[p.cmdPos]]
    ensures q.cmdPos == p.cmdPos + 1 && q.argPos == p.argPos + 1 && q.argLen == p.argLen - 1
  {
    p.(arg := p.arg[p.argPos := p.cmdBuf[p.cmdPos]], argPos := p.argPos + 1,
       cmdPos := p.cmdPos + 1, argLen := p.argLen - 1)
  }

  /** `k` successive argument latches. */
  function LatchAll(p: Port, k: nat): (q: Port)
    requires Shape(p) && k <= p.argLen && p.argPos + p.argLen <= 3 && p.cmdPos + k <= |p.cmdBuf|
    ensures Shape(q) && q.cmdPos == p.cmdPos + k && q.argPos == p.argPos + k && q.argLen == p.argLen - k
    decreases k
  {
    if k == 0 then p else LatchAll(LatchOne(p), k - 1)
  }

  /** The argument bytes a command sees are the bytes that follow it in the
      command stream, in order; the earlier ones stay. */
  lemma {:induction false} ArgsLatched(p: Port, k: nat)
    requires Shape(p) && k <= p.argLen && p.argPos + p.argLen <= 3 && p.cmdPos + k <= |p.cmdBuf|
    ensures LatchAll(p, k).arg[..p.argPos + k] == p.arg[..p.argPos] + p.cmdBuf[p.cmdPos..p.cmdPos + k]
    decreases k
  {
    if k > 0 {
      var q := LatchOne(p);
      ArgsLatched(q, k - 1);
      StoreExtends(p.arg, p.argPos, p.cmdBuf[p.cmdPos]);
      SliceSplits(p.cmdBuf, p.cmdPos, k);
    }
  }

  lemma StoreExtends(a: seq<Octet>, i: nat, b: Octet)
    requires i < |a|
    ensures a[i := b][..i + 1] == a[..i] + [b]
  {
  }

  lemma SliceSplits(s: seq<Octet>, i: nat, k: nat)
    requires 0 < k && i + k <= |s|
    ensures s[i..i + k] == [s[i]] + s[i + 1..i + 1 + (k - 1)]
  {
  }

  /** READ_ARG: latch an argument byte; the last one begins the command.
      (The source's guard against a zero `arg_len` here cannot fire: `Core`
      keeps it positive in READ_ARG.) */
  function ReadArgument(p: Port, env: Env): (r: (Port, seq<PortAction>))
    requires Core(p) && EnvOk(env) && p.state == ReadArg && p.cmdPos < |p.cmdBuf|
    ensures Core(r.0) && SameBuffers(p, r.0) && r.0.state != Disable
    ensures r.0.cmdPos == p.cmdPos + 1 && r.0.cmd == p.cmd
    ensures p.argLen > 1 ==> r == (LatchArg(p), [])
    ensures p.argLen == 1 ==> r == Begin(LatchArg(p), env)
  {
    var q := LatchArg(p);
    if q.argLen == 0 then Begin(q, env) else (q, [])
  }

  /** The command buffer and the reply only move forward within a step. */
  predicate SameBuffers(p: Port, q: Port)
  {
    && q.cmdBuf == p.cmdBuf && p.cmdPos <= q.cmdPos
    && |p.reply| <= |q.reply| && q.reply[..|p.reply|] == p.reply
    && q.pendingIn == p.pendingIn && q.pendingOut == p.pendingOut && q.eventsOn == p.eventsOn
  }

  /** One pass of the loop body past the requests, when neither transfer is
      pending and the port is not waiting on an async command: then there
      are unread command bytes and room in the reply. */
  function Advance(p: Port, env: Env): (r: (Port, seq<PortAction>))
    requires Core(p) && EnvOk(env) && p.state in {ReadCmd, ReadArg, Exec}
    requires p.cmdPos < |p.cmdBuf| && |p.reply| < BufSize
    ensures Core(r.0) && SameBuffers(p, r.0) && r.0.state != Disable
    ensures Progress(r.0) < Progress(p)
  {
    if p.state == ReadCmd then ReadCommand(p, env)
    else if p.state == ReadArg then ReadArgument(p, env)
    else Continue(p, env)
  }

  /** The loop's measure: unread command bytes count twice, and EXEC once
      more, since a `port_continue_cmd` that stays in EXEC consumes a byte. */
  function Progress(p: Port): nat
    requires p.cmdPos <= |p.cmdBuf|
  {
    2 * (|p.cmdBuf| - p.cmdPos) + (if p.state == Exec then 1 else 0)
  }

  /** `port_step` past the DISABLE check: requests, then either wait (with
      async events enabled when they are allowed) or advance. It stops only
      with a bridge transfer in flight or an async command running. */
  function Run(p: Port, env: Env): (r: (Port, seq<PortAction>))
    requires Core(p) && EnvOk(env) && !p.eventsOn && p.state != Disable
    requires p.pendingOut ==> p.cmdPos == |p.cmdBuf|
    ensures Inv(r.0) && r.0.state != Disable
    ensures r.0.pendingIn || r.0.pendingOut || r.0.state == ExecAsync
    ensures r.0.eventsOn <==> (r.0.pendingIn || r.0.pendingOut) && AsyncAllowed(r.0)
    ensures r.0.pendingOut ==> r.0.cmdPos == |r.0.cmdBuf|
    ensures (p.pendingIn ==> r.0.pendingIn) && (p.pendingOut ==> r.0.pendingOut)
    ensures r.0.cmdBuf == p.cmdBuf && p.cmdPos <= r.0.cmdPos
    ensures |p.reply| <= |r.0.reply| && r.0.reply[..|p.reply|] == p.reply
    decreases Progress(p)
  {
    var q := Requests(p).0;
    if q.pendingIn || q.pendingOut then
      (q.(eventsOn := AsyncAllowed(q)), Requests(p).1)
    else if q.state == ExecAsync then Requests(p)
    else
      var s := Advance(q, env);
      var t := Run(s.0, env);
      (t.0, Requests(p).1 + s.1 + t.1)
  }

  /** `port_step`: on a disabled port, the port error; otherwise async
      events are disabled and the loop runs. */
  function Step(p: Port, env: Env): (r: (Port, seq<PortAction>))
    requires Core(p) && EnvOk(env) && (p.pendingOut ==> p.cmdPos == |p.cmdBuf|)
    ensures Inv(r.0)
    ensures p.state == Disable ==> r == (p, [ChanError])
    ensures p.state != Disable ==> r.0.state != Disable && (r.0.pendingIn || r.0.pendingOut || r.0.state == ExecAsync)
    ensures |p.reply| <= |r.0.reply| && r.0.reply[..|p.reply|] == p.reply
  {
    if p.state == Disable then (p, [ChanError]) else Run(p.(eventsOn := false), env)
  }

  // ---------------------------------------------------------------------------
  // Lifecycle and bridge completions

  /** `port_init`: the port record starts zeroed (so disabled, with an empty
      UART ring of `uartSize` slots) and its bridge channel is enabled. */
  function Init(uartSize: nat): (r: (Port, seq<PortAction>))
    requires 0 < uartSize
    ensures Inv(r.0) && r.0.state == Disable && r.1 == [ChanEnable]
    ensures |r.0.uart.rx| == uartSize && Contents(r.0.uart) == []
  {
    var ring := Ring(seq(uartSize, _ => 0), 0, 0, 0);
    (Port(Disable, NoMode, 0, [0, 0, 0], 0, 0, [], 0, [], false, false, false, seq(8, _ => 0), ring), [ChanEnable])
  }

  /** `port_enable`: request the first command buffer, clear both buffers,
      wait for commands in no mode, power the port and pull every pin up. */
  function Enable(p: Port): (r: (Port, seq<PortAction>))
    requires Inv(p)
    ensures Inv(r.0) && r.0.state == ReadCmd && r.0.mode == NoMode
    ensures r.0.pendingOut && !r.0.pendingIn && r.0.cmdBuf == [] && r.0.reply == []
    ensures |r.1| == 10 && r.1[0] == StartOut && r.1[1] == Hw(PowerUp)
    ensures forall pin :: 0 <= pin < 8 ==> r.1[pin + 2] == Hw(PullUp(pin))
  {
    (p.(pendingIn := false, pendingOut := true, cmdBuf := [], cmdPos := 0, reply := [],
        state := ReadCmd, mode := NoMode),
     [StartOut, Hw(PowerUp)] + seq(8, pin requires 0 <= pin < 8 => Hw(PullUp(pin))))
  }

  /** `port_disable`: stop everything, unconfigure the interrupt-capable
      pins, float every pin, power down and re-enable the channel. */
  function PortDisable(p: Port, env: Env): (r: (Port, seq<PortAction>))
    requires Inv(p) && EnvOk(env)
    ensures Inv(r.0) && r.0 == p.(state := Disable, eventsOn := false, sense := r.0.sense)
    ensures r.0.sense == ClearSense(p.sense, env)
    ensures r.1 == [Hw(SercomReset), Hw(DmaAbort)] + DisablePins(env, 0) + [Hw(PowerDown), ChanEnable]
  {
    (p.(state := Disable, eventsOn := false, sense := ClearSense(p.sense, env)),
     [Hw(SercomReset), Hw(DmaAbort)] + DisablePins(env, 0) + [Hw(PowerDown), ChanEnable])
  }

  /** The sense configuration after `port_disable`: none on every
      interrupt-capable pin. */
  function ClearSense(sense: seq<Octet>, env: Env): (r: seq<Octet>)
    requires |sense| == 8 && EnvOk(env)
    ensures |r| == 8
    ensures forall pin :: 0 <= pin < 8 ==> r[pin] == if env.canInterrupt[pin] then 0 else sense[pin]
  {
    seq(8, pin requires 0 <= pin < 8 => if env.canInterrupt[pin] then 0 else sense[pin])
  }

  /** The per-pin loop of `port_disable`, from pin `i` on. */
  function DisablePins(env: Env, i: nat): (r: seq<PortAction>)
    requires EnvOk(env) && i <= 8
    ensures forall pin :: i <= pin < 8 ==> Hw(Float(pin)) in r
    ensures forall pin :: 0 <= pin < 8 && Hw(EicConfig(pin, 0)) in r ==> i <= pin && env.canInterrupt[pin]
    decreases 8 - i
  {
    if i == 8 then []
    else
      (if env.canInterrupt[i] then [Hw(EicConfig(i, 0))] else []) + [Hw(Float(i))] + DisablePins(env, i + 1)
  }

  /** `port_bridge_out_completion`: a new command buffer of `data`. */
  function OutCompletion(p: Port, data: seq<Octet>, env: Env): (r: (Port, seq<PortAction>))
    requires Inv(p) && EnvOk(env) && |data| <= BufSize
    ensures Inv(r.0)
    ensures p.state != Disable ==> r.0.cmdBuf == data && r.0.state != Disable
    ensures p.state == Disable ==> r.1 == [ChanError]
  {
    Step(p.(pendingOut := false, cmdBuf := data, cmdPos := 0), env)
  }

  /** `port_bridge_in_completion`: the reply has gone; start a new one. */
  function InCompletion(p: Port, env: Env): (r: (Port, seq<PortAction>))
    requires Inv(p) && EnvOk(env)
    ensures Inv(r.0)
    ensures p.state != Disable && !p.pendingOut && p.state != ExecAsync && p.cmdPos == |p.cmdBuf| ==>
      r.0.reply == [] && r.0.pendingOut && !r.0.pendingIn && r.1 == [StartOut]
    ensures p.state == Disable ==> r.1 == [ChanError]
  {
    Step(p.(pendingIn := false, reply := []), env)
  }

  /** The state an async command finishes in: done when its count is used
      up, else continue. */
  function AfterAsync(p: Port): PortState
    requires |p.arg| == 3
  {
    if p.arg[0] == 0 then ReadCmd else Exec
  }

  /** `port_dma_rx_completion` and `port_dma_tx_completion` (identical): an
      async transfer finished; anywhere but EXEC_ASYNC it is the port error. */
  function DmaCompletion(p: Port, env: Env): (r: (Port, seq<PortAction>))
    requires Inv(p) && EnvOk(env)
    ensures Inv(r.0)
    ensures p.state != ExecAsync ==> r == (p, [ChanError])
    ensures p.state == ExecAsync ==> r == Step(p.(state := AfterAsync(p)), env)
  {
    if p.state == ExecAsync then Step(p.(state := AfterAsync(p)), env) else (p, [ChanError])
  }

  /** `port_exec_async_complete`: finish an async command in state `s`. */
  function ExecAsyncComplete(p: Port, s: PortState, env: Env): (r: (Port, seq<PortAction>))
    requires Inv(p) && EnvOk(env) && s in {ReadCmd, Exec, ExecAsync}
    ensures Inv(r.0)
    ensures p.state != ExecAsync ==> r == (p, [ChanError])
    ensures p.state == ExecAsync ==> r == Step(p.(state := s), env)
  {
    if p.state != ExecAsync then (p, [ChanError]) else Step(p.(state := s), env)
  }

  // ---------------------------------------------------------------------------
  // Interrupt handlers

  /** The UART reply packet `uart_send_data` builds before stepping: the
      async marker, the count as a byte, and that many bytes from the ring,
      oldest first. `None` is the source's port error when the packet would
      not fit in the reply. The count is `buf_len` cut to 8 bits. */
  function UartPack(p: Port): (r: Option<Port>)
    requires Shape(p)
    ensures r.None? <==> p.uart.count % 256 + 2 > BufSize - |p.reply|
    ensures r.Some? ==>
      var k := p.uart.count % 256;
      && Shape(r.value) && r.value == p.(reply := r.value.reply, uart := r.value.uart)
      && r.value.reply == p.reply + [ReplyUartRx, k as Octet] + Contents(p.uart)[..k]
      && Contents(r.value.uart) == Contents(p.uart)[k..] && |r.value.uart.rx| == |p.uart.rx|
  {
    var k := p.uart.count % 256;
    if k + 2 > BufSize - |p.reply| then None
    else
      var (data, ring) := Drain(p.uart, k);
      Some(p.(reply := p.reply + [ReplyUartRx, k as Octet] + data, uart := ring))
  }

  /** `uart_send_data`: with bytes in the ring, pack them into the reply and
      step. */
  function UartSendData(p: Port, env: Env): (r: (Port, seq<PortAction>))
    requires Inv(p) && EnvOk(env)
    ensures Inv(r.0)
    ensures p.uart.count == 0 ==> r == (p, [])
    ensures p.uart.count > 0 && UartPack(p).None? ==> r == (p, [ChanError])
    ensures p.uart.count > 0 && UartPack(p).Some? ==> r == Step(UartPack(p).value, env)
  {
    if p.uart.count == 0 then (p, [])
    else match UartPack(p)
      case None => (p, [ChanError])
      case Some(q) => Step(q, env)
  }

  /** The UART half of `port_handle_sercom_uart_i2c`: a received byte
      restarts the idle timeout and goes into the ring; a nearly full ring
      is flushed at once when async events are allowed. */
  function UartReceive(p: Port, b: Octet, env: Env): (r: (Port, seq<PortAction>))
    requires Inv(p) && EnvOk(env)
    ensures Inv(r.0) && |r.1| > 0 && r.1[0] == Hw(UartTimeoutRestart)
    ensures var q := p.(uart := Push(p.uart, b));
      if q.uart.count > |q.uart.rx| - 4 && AsyncAllowed(q)
      then r.1[1..] == UartSendData(q, env).1 && r.0 == UartSendData(q, env).0
      else r.0 == q && Contents(r.0.uart) == Contents(Push(p.uart, b))
  {
    var q := p.(uart := Push(p.uart, b));
    if q.uart.count > |q.uart.rx| - 4 && AsyncAllowed(q) then
      var t := UartSendData(q, env);
      (t.0, [Hw(UartTimeoutRestart)] + t.1)
    else (q, [Hw(UartTimeoutRestart)])
  }

  /** The I2C half: a bus error is the port error (and handling goes on);
      the interrupt finishes the async command, elsewhere it is the port
      error. */
  function I2cInterrupt(p: Port, busError: bool, env: Env): (r: (Port, seq<PortAction>))
    requires Inv(p) && EnvOk(env)
    ensures Inv(r.0)
    ensures busError ==> |r.1| > 0 && r.1[0] == ChanError
    ensures p.state != ExecAsync ==> r.0 == p && |r.1| > 0 && r.1[|r.1| - 1] == ChanError
    ensures p.state == ExecAsync ==> r.0 == Step(p.(state := AfterAsync(p)), env).0
  {
    var err := if busError then [ChanError] else [];
    if p.state == ExecAsync then
      var t := Step(p.(state := AfterAsync(p)), env);
      (t.0, err + t.1)
    else (p, err + [ChanError])
  }

  /** `port_handle_sercom_uart_i2c`: `rx` is the received byte when the
      UART's receive-complete flag is set, `busError` the I2C error flag. */
  function SercomInterrupt(p: Port, rx: Option<Octet>, busError: bool, env: Env): (r: (Port, seq<PortAction>))
    requires Inv(p) && EnvOk(env)
    ensures Inv(r.0)
    ensures p.mode == UartMode && rx.Some? ==> r == UartReceive(p, rx.value, env)
    ensures p.mode == UartMode && rx.None? ==> r == (p, [])
    ensures p.mode == I2cMode ==> r == I2cInterrupt(p, busError, env)
    ensures p.mode in {NoMode, SpiMode} ==> r == (p, [ChanError])
  {
    if p.mode == UartMode then
      if rx.Some? then UartReceive(p, rx.value, env) else (p, [])
    else if p.mode == I2cMode then I2cInterrupt(p, busError, env)
    else (p, [ChanError])
  }

  /** The async reply byte for a pin change: the pin number, plus 8 when the
      level read is high. */
  function PinChangeByte(pin: nat, high: bool): (b: Octet)
    requires pin < 8
    ensures ReplyPinChange <= b < ReplyUartRx
    ensures (b - ReplyPinChange) as int % 8 == pin && ((b - ReplyPinChange) / 8 == 1 <==> high)
  {
    (ReplyPinChange as int + pin + (if high then 8 else 0)) as Octet
  }

  /** The interrupt-capable pins below `n` whose flag is set, in pin
      order: with `n` = 8, the pins `port_handle_extint` reports. */
  function FiredPins(fired: seq<bool>, env: Env, n: nat): (r: seq<nat>)
    requires |fired| == 8 && EnvOk(env) && n <= 8
    ensures forall i :: 0 <= i < |r| ==> r[i] < n
  {
    if n == 0 then []
    else FiredPins(fired, env, n - 1) + (if env.canInterrupt[n - 1] && fired[n - 1] then [n - 1] else [])
  }

  /** A pin is reported iff it can interrupt and its flag is set. */
  lemma {:induction false} FiredPinsMembers(fired: seq<bool>, env: Env, n: nat, pin: nat)
    requires |fired| == 8 && EnvOk(env) && n <= 8
    ensures pin in FiredPins(fired, env, n) <==> pin < n && env.canInterrupt[pin] && fired[pin]
  {
    if n > 0 {
      FiredPinsMembers(fired, env, n - 1, pin);
    }
  }

  /** Each pin is reported at most once, in increasing order. */
  lemma {:induction false} FiredPinsAscending(fired: seq<bool>, env: Env, n: nat)
    requires |fired| == 8 && EnvOk(env) && n <= 8
    ensures forall i, j :: 0 <= i < j < |FiredPins(fired, env, n)| ==>
      FiredPins(fired, env, n)[i] < FiredPins(fired, env, n)[j]
  {
    if n > 0 {
      FiredPinsAscending(fired, env, n - 1);
    }
  }

  /** The reply bytes for the reported pins, the level bit of each taken
      from `sampled`. */
  function ChangeBytes(pins: seq<nat>, sampled: seq<bool>): (r: seq<Octet>)
    requires |sampled| == 8 && forall i :: 0 <= i < |pins| ==> pins[i] < 8
    ensures |r| == |pins|
  {
    seq(|pins|, i requires 0 <= i < |pins| => PinChangeByte(pins[i], sampled[pins[i]]))
  }

  /** `EIC_CONFIG_SENSE_LEVEL`: the sense modes HIGH (4) and LOW (5). */
  predicate LevelSense(s: Octet)
  {
    (s / 4) % 2 == 1
  }

  /** The body of the per-pin loop of `port_handle_extint`, run over the
      reported pins in order: a reply byte for each (each byte past the
      reply's room is a port error), and a level-sensed pin is switched
      off, since a level interrupt fires only once. */
  function Notify(p: Port, pins: seq<nat>, sampled: seq<bool>): (r: (Port, seq<PortAction>))
    requires Shape(p) && |sampled| == 8 && forall i :: 0 <= i < |pins| ==> pins[i] < 8
    ensures Shape(r.0) && r.0 == p.(reply := r.0.reply, sense := r.0.sense)
    decreases |pins|
  {
    if pins == [] then (p, [])
    else
      var one := NotifyOne(p, pins[0], sampled);
      var rest := Notify(one.0, pins[1..], sampled);
      (rest.0, one.1 + rest.1)
  }

  /** One reported pin. */
  function NotifyOne(p: Port, pin: nat, sampled: seq<bool>): (r: (Port, seq<PortAction>))
    requires Shape(p) && |sampled| == 8 && pin < 8
    ensures Shape(r.0) && r.0 == p.(reply := r.0.reply, sense := r.0.sense)
    ensures r.0.reply == if |p.reply| < BufSize then p.reply + [PinChangeByte(pin, sampled[pin])] else p.reply
    ensures r.0.sense == if LevelSense(p.sense[pin]) then p.sense[pin := 0] else p.sense
  {
    var (q, a) := SendStatus(p, PinChangeByte(pin, sampled[pin]));
    if LevelSense(q.sense[pin]) then (q.(sense := q.sense[pin := 0]), a + [Hw(EicConfig(pin, 0))]) else (q, a)
  }

  /** Appending bytes one at a time while there is room keeps a prefix of
      them. */
  lemma FillStep(reply: seq<Octet>, bytes: seq<Octet>)
    requires |reply| <= BufSize && |bytes| > 0
    ensures var reply' := if |reply| < BufSize then reply + [bytes[0]] else reply;
      reply' + bytes[1..][..Min(|bytes| - 1, BufSize - |reply'|)] == reply + bytes[..Min(|bytes|, BufSize - |reply|)]
  {
    if |reply| < BufSize {
      assert bytes[..Min(|bytes|, BufSize - |reply|)] == [bytes[0]] + bytes[1..][..Min(|bytes| - 1, BufSize - |reply| - 1)];
    }
  }

  /** The reply gains the change bytes of the reported pins, as many as fit. */
  lemma {:induction false} NotifyReply(p: Port, pins: seq<nat>, sampled: seq<bool>)
    requires Shape(p) && |sampled| == 8 && forall i :: 0 <= i < |pins| ==> pins[i] < 8
    ensures var bytes := ChangeBytes(pins, sampled);
      Notify(p, pins, sampled).0.reply == p.reply + bytes[..Min(|bytes|, BufSize - |p.reply|)]
    decreases |pins|
  {
    if pins != [] {
      var q := NotifyOne(p, pins[0], sampled).0;
      NotifyReply(q, pins[1..], sampled);
      var bytes := ChangeBytes(pins, sampled);
      assert ChangeBytes(pins[1..], sampled) == bytes[1..];
      FillStep(p.reply, bytes);
    }
  }

  /** A reported pin whose sense mode is a level is switched off; nothing
      else changes. */
  lemma {:induction false} NotifySense(p: Port, pins: seq<nat>, sampled: seq<bool>, pin: nat)
    requires Shape(p) && |sampled| == 8 && forall i :: 0 <= i < |pins| ==> pins[i] < 8
    requires pin < 8
    ensures Notify(p, pins, sampled).0.sense[pin]
      == if pin in pins && LevelSense(p.sense[pin]) then 0 else p.sense[pin]
    decreases |pins|
  {
    if pins != [] {
      NotifySense(NotifyOne(p, pins[0], sampled).0, pins[1..], sampled, pin);
      assert pin in pins <==> pin == pins[0] || pin in pins[1..];
    }
  }

  /** `port_handle_extint` with the level bit of each reported pin taken
      from `sampled`: only while waiting for commands are pin changes
      expected; anywhere else it is the port error. */
  function ExtIntWith(p: Port, fired: seq<bool>, sampled: seq<bool>, env: Env): (r: (Port, seq<PortAction>))
    requires Inv(p) && EnvOk(env) && |fired| == 8 && |sampled| == 8
    ensures Inv(r.0)
    ensures p.state != ReadCmd ==> r == (p, [ChanError])
    ensures p.state == ReadCmd && |p.reply| + |FiredPins(fired, env, |fired|)| <= BufSize ==>
      var pins := FiredPins(fired, env, |fired|);
      && |p.reply| + |pins| <= |r.0.reply|
      && forall i :: 0 <= i < |pins| ==> r.0.reply[|p.reply| + i] == PinChangeByte(pins[i], sampled[pins[i]])
  {
    if p.state == ReadCmd then
      var pins := FiredPins(fired, env, |fired|);
      NotifiedReply(p, pins, sampled, env);
      var n := Notify(p, pins, sampled);
      var t := Step(n.0, env);
      (t.0, n.1 + t.1)
    else (p, [ChanError])
  }

  /** The pin-change bytes queued for `pins`, followed by the resumed
      command loop, leave those bytes right after the old reply. */
  lemma NotifiedReply(p: Port, pins: seq<nat>, sampled: seq<bool>, env: Env)
    requires Inv(p) && EnvOk(env) && |sampled| == 8 && forall i :: 0 <= i < |pins| ==> pins[i] < 8
    ensures var n := Notify(p, pins, sampled).0;
      Core(n) && (n.pendingOut ==> n.cmdPos == |n.cmdBuf|)
    ensures |p.reply| + |pins| <= BufSize ==>
      var r := Step(Notify(p, pins, sampled).0, env).0;
      && |p.reply| + |pins| <= |r.reply|
      && forall i :: 0 <= i < |pins| ==> r.reply[|p.reply| + i] == PinChangeByte(pins[i], sampled[pins[i]])
  {
    NotifiedCore(p, pins, sampled);
    var n := Notify(p, pins, sampled).0;
    var r := Step(n, env).0;
    NotifyReply(p, pins, sampled);
    var bytes := ChangeBytes(pins, sampled);
    var sent := p.reply + bytes[..Min(|bytes|, BufSize - |p.reply|)];
    assert sent == n.reply;
    assert |sent| <= |r.reply| && r.reply[..|sent|] == sent;
    ChangeBytesAt(p.reply, pins, sampled, r.reply);
  }

  lemma NotifiedCore(p: Port, pins: seq<nat>, sampled: seq<bool>)
    requires Inv(p) && |sampled| == 8 && forall i :: 0 <= i < |pins| ==> pins[i] < 8
    ensures var n := Notify(p, pins, sampled).0;
      Core(n) && (n.pendingOut ==> n.cmdPos == |n.cmdBuf|)
  {
    var n := Notify(p, pins, sampled).0;
    assert n == p.(reply := n.reply, sense := n.sense);
  }

  /** The pin-change handler as intended: each reported pin's own level. */
  function ExtInt(p: Port, fired: seq<bool>, env: Env): (r: (Port, seq<PortAction>))
    requires Inv(p) && EnvOk(env) && |fired| == 8
    ensures Inv(r.0)
    ensures r == ExtIntWith(p, fired, env.levels, env)
  {
    ExtIntWith(p, fired, env.levels, env)
  }

  /** The pin-change handler as written: `port_handle_extint` reads the
      level of `port_selected_pin` (the pin named by the last command's
      first argument) for every reported pin. */
  function ExtIntAsWritten(p: Port, fired: seq<bool>, env: Env): (r: (Port, seq<PortAction>))
    requires Inv(p) && EnvOk(env) && |fired| == 8
    ensures Inv(r.0)
    ensures r == ExtIntWith(p, fired, seq(8, _ => env.levels[SelectedPin(p)]), env)
  {
    ExtIntWith(p, fired, seq(8, _ => env.levels[SelectedPin(p)]), env)
  }

  /** With only `pin`'s flag set, only `pin` is reported. */
  lemma {:induction false} FiredOnly(fired: seq<bool>, env: Env, pin: nat, n: nat)
    requires EnvOk(env) && pin < 8 && n <= 8 && env.canInterrupt[pin]
    requires |fired| == 8 && forall i :: 0 <= i < 8 ==> fired[i] == (i == pin)
    ensures FiredPins(fired, env, n) == if pin < n then [pin] else []
  {
    if n > 0 {
      FiredOnly(fired, env, pin, n - 1);
    }
  }

  /** A reply that starts with the pins' change bytes (as many as fit after
      `base`) holds, when all fit, each pin's change byte in pin order. */
  lemma ChangeBytesAt(base: seq<Octet>, pins: seq<nat>, sampled: seq<bool>, reply: seq<Octet>)
    requires |sampled| == 8 && forall i :: 0 <= i < |pins| ==> pins[i] < 8
    requires |base| <= BufSize
    requires var bytes := ChangeBytes(pins, sampled);
      var sent := base + bytes[..Min(|bytes|, BufSize - |base|)];
      |sent| <= |reply| && reply[..|sent|] == sent
    ensures |base| + |pins| <= BufSize ==>
      && |base| + |pins| <= |reply|
      && forall i :: 0 <= i < |pins| ==> reply[|base| + i] == PinChangeByte(pins[i], sampled[pins[i]])
  {
    if |base| + |pins| <= BufSize {
      var bytes := ChangeBytes(pins, sampled);
      assert bytes[..Min(|bytes|, BufSize - |base|)] == bytes;
      forall i | 0 <= i < |pins|
        ensures reply[|base| + i] == PinChangeByte(pins[i], sampled[pins[i]])
      {
        assert reply[|base| + i] == reply[..|base + bytes|][|base| + i];
      }
    }
  }

  /** The corrected handler reports each fired pin with its own level. */
  lemma ExtIntReportsOwnLevel(p: Port, fired: seq<bool>, env: Env)
    requires Inv(p) && EnvOk(env) && |fired| == 8 && p.state == ReadCmd
    requires |p.reply| + |FiredPins(fired, env, |fired|)| <= BufSize
    ensures var pins := FiredPins(fired, env, |fired|);
      var reply := ExtInt(p, fired, env).0.reply;
      && |p.reply| + |pins| <= |reply|
      && forall i :: 0 <= i < |pins| ==> reply[|p.reply| + i] == PinChangeByte(pins[i], env.levels[pins[i]])
  {
    assert ExtInt(p, fired, env) == ExtIntWith(p, fired, env.levels, env);
  }

  /** The flaw: a single pin fires, yet its change byte carries the level of
      the selected pin, so when the two levels differ the host is told the
      opposite of the pin's level (a rise reported as a fall). */
  lemma ExtIntReportsSelectedLevel(p: Port, env: Env, pin: nat)
    requires Inv(p) && EnvOk(env) && p.state == ReadCmd && |p.reply| < BufSize
    requires pin < 8 && env.canInterrupt[pin] && env.levels[pin] != env.levels[SelectedPin(p)]
    ensures var fired := seq(8, i => i == pin);
      var written := ExtIntAsWritten(p, fired, env).0.reply;
      var intended := ExtInt(p, fired, env).0.reply;
      && |p.reply| < |written| && |p.reply| < |intended|
      && written[|p.reply|] == PinChangeByte(pin, env.levels[SelectedPin(p)])
      && intended[|p.reply|] == PinChangeByte(pin, env.levels[pin])
      && written[|p.reply|] != intended[|p.reply|]
  {
    var fired := seq(8, i => i == pin);
    FiredOnly(fired, env, pin, |fired|);
    var sel := seq(8, _ => env.levels[SelectedPin(p)]);
  }

  /** The ADC reply: DATA, then the 16-bit result low byte first, and the
      async command is done. */
  function AdcReply(p: Port, result: nat): (r: (Port, seq<PortAction>))
    requires Shape(p) && result < 0x1_0000
    ensures Shape(r.0) && r.0 == p.(reply := r.0.reply, state := ReadCmd)
    ensures |p.reply| + 3 <= BufSize ==>
      && |r.0.reply| == |p.reply| + 3 && r.1 == []
      && r.0.reply == p.reply + [ReplyData, r.0.reply[|p.reply| + 1], r.0.reply[|p.reply| + 2]]
      && r.0.reply[|p.reply| + 1] as int + 256 * r.0.reply[|p.reply| + 2] as int == result
  {
    var (q1, a) := SendStatus(p, ReplyData);
    var (q2, b) := SendStatus(q1, Wrap(result));
    var (q3, c) := SendStatus(q2, Wrap(result / 256));
    (q3.(state := ReadCmd), a + b + c)
  }

  /** `port_handle_adcint`: in EXEC_ASYNC, a conversion on one of the
      port's pins (`matched`) is the ANALOG_READ reply; the port steps
      either way. Anywhere else it is the port error. */
  function AdcInterrupt(p: Port, matched: bool, result: nat, env: Env): (r: (Port, seq<PortAction>))
    requires Inv(p) && EnvOk(env) && result < 0x1_0000
    ensures Inv(r.0)
    ensures p.state != ExecAsync ==> r == (p, [ChanError])
    ensures p.state == ExecAsync && !matched ==> r == Step(p, env)
    ensures p.state == ExecAsync && matched ==>
      |AdcReply(p, result).0.reply| <= |r.0.reply| && r.0.reply[..|AdcReply(p, result).0.reply|] == AdcReply(p, result).0.reply
  {
    if p.state != ExecAsync then (p, [ChanError])
    else if matched then
      var n := AdcReply(p, result);
      var t := Step(n.0, env);
      (t.0, n.1 + t.1)
    else Step(p, env)
  }

  // ---------------------------------------------------------------------------
  // End to end

  /** A command buffer holding one ECHO of `data`, received while waiting
      for commands with an empty reply (as right after `port_enable`), comes
      back as DATA followed by `data`; the port then asks for the next
      command buffer and sends the reply. */
  lemma EchoReturnsData(p: Port, data: seq<Octet>, env: Env)
    requires Inv(p) && EnvOk(env) && p.state == ReadCmd && p.pendingOut && !p.pendingIn && p.reply == []
    requires 0 < |data| <= BufSize - 2
    ensures var r := OutCompletion(p, [Code(Echo), |data| as Octet] + data, env);
      && r.1 == [StartOut, StartIn([ReplyData] + data)]
      && r.0.state == ReadCmd && r.0.reply == [ReplyData] + data
  {
    var p0 := EchoStart(p, data);
    var p1 := p0.(cmd := Code(Echo), cmdPos := 1, argLen := 1, argPos := 0, state := ReadArg);
    assert OutCompletion(p, p0.cmdBuf, env) == Run(p0, env);
    EchoPassOne(p0, env);
    assert Core(p1);
    var p3 := p1.(arg := p1.arg[0 := |data| as Octet], argPos := 1, cmdPos := 2, argLen := 0, reply := [ReplyData], state := Exec);
    EchoPassTwo(p1, env);
    assert Core(p3) && p3.cmdBuf[2..] == data;
    var p4 := p3.(reply := [ReplyData] + data, cmdPos := |p0.cmdBuf|, arg := p3.arg[0 := 0], state := ReadCmd);
    EchoPassThree(p3, data, env);
    EchoPassFour(p4, env);
  }

  /** With the buffer used up and a reply queued, both transfers start. */
  lemma EchoPassFour(p4: Port, env: Env)
    requires Core(p4) && EnvOk(env) && p4.state == ReadCmd && !p4.pendingIn && !p4.pendingOut && !p4.eventsOn
    requires p4.cmdPos == |p4.cmdBuf| && |p4.reply| > 0
    ensures Run(p4, env) == (p4.(pendingOut := true, pendingIn := true), [StartOut, StartIn(p4.reply)])
  {
    assert [StartOut] + [StartIn(p4.reply)] == [StartOut, StartIn(p4.reply)];
  }

  /** The port as the ECHO buffer arrives. */
  function EchoStart(p: Port, data: seq<Octet>): (q: Port)
    ensures |data| < 256 ==> q.cmdBuf == [Code(Echo), |data| as Octet] + data
  {
    p.(pendingOut := false, cmdBuf := [Code(Echo), Wrap(|data|)] + data, cmdPos := 0, eventsOn := false)
  }

  lemma EchoPassOne(p0: Port, env: Env)
    requires Core(p0) && EnvOk(env) && p0.state == ReadCmd && !p0.pendingIn && !p0.pendingOut && !p0.eventsOn
    requires p0.cmdPos == 0 && 2 <= |p0.cmdBuf| && p0.cmdBuf[0] == Code(Echo) && p0.reply == []
    ensures Run(p0, env) == Run(p0.(cmd := Code(Echo), cmdPos := 1, argLen := 1, argPos := 0, state := ReadArg), env)
  {
    EchoReadsCommand(p0, env);
    RunPasses(p0, env, p0.(cmd := Code(Echo), cmdPos := 1, argLen := 1, argPos := 0, state := ReadArg), []);
  }

  lemma EchoPassTwo(p1: Port, env: Env)
    requires Core(p1) && EnvOk(env) && p1.state == ReadArg && !p1.pendingIn && !p1.pendingOut && !p1.eventsOn
    requires p1.cmd == Code(Echo) && p1.cmdPos == 1 && p1.argLen == 1 && p1.argPos == 0
    requires 2 < |p1.cmdBuf| && p1.reply == []
    ensures Run(p1, env) == Run(p1.(arg := p1.arg[0 := p1.cmdBuf[1]], argPos := 1, cmdPos := 2, argLen := 0,
                                    reply := [ReplyData], state := Exec), env)
  {
    EchoReadsCount(p1, env);
    RunPasses(p1, env, p1.(arg := p1.arg[0 := p1.cmdBuf[1]], argPos := 1, cmdPos := 2, argLen := 0,
                           reply := [ReplyData], state := Exec), []);
  }

  lemma EchoPassThree(p3: Port, data: seq<Octet>, env: Env)
    requires Core(p3) && EnvOk(env) && p3.state == Exec && !p3.pendingIn && !p3.pendingOut && !p3.eventsOn
    requires p3.cmd == Code(Echo) && p3.cmdPos == 2 && p3.cmdBuf[2..] == data && p3.arg[0] as int == |data|
    requires 0 < |data| <= BufSize - 2 && p3.reply == [ReplyData]
    ensures Run(p3, env) == Run(p3.(reply := [ReplyData] + data, cmdPos := |p3.cmdBuf|, arg := p3.arg[0 := 0], state := ReadCmd), env)
  {
    EchoCopies(p3, data, env);
    RunPasses(p3, env, p3.(reply := [ReplyData] + data, cmdPos := |p3.cmdBuf|, arg := p3.arg[0 := 0], state := ReadCmd), []);
  }

  /** One pass of the loop with nothing to request and something to do. */
  lemma RunPasses(p: Port, env: Env, q: Port, b: seq<PortAction>)
    requires Core(p) && EnvOk(env) && !p.eventsOn && p.state in {ReadCmd, ReadArg, Exec}
    requires p.pendingOut ==> p.cmdPos == |p.cmdBuf|
    requires Requests(p) == (p, []) && !p.pendingIn && !p.pendingOut
    requires Advance(p, env) == (q, b)
    ensures Run(p, env) == (Run(q, env).0, b + Run(q, env).1)
    ensures b == [] ==> Run(p, env) == Run(q, env)
  {
    RunUnfolds(p, env, q, b);
    EmptyPrefix(b);
    EmptyPrefix(Run(q, env).1);
  }

  lemma RunUnfolds(p: Port, env: Env, q: Port, b: seq<PortAction>)
    requires Core(p) && EnvOk(env) && !p.eventsOn && p.state in {ReadCmd, ReadArg, Exec}
    requires p.pendingOut ==> p.cmdPos == |p.cmdBuf|
    requires Requests(p) == (p, []) && !p.pendingIn && !p.pendingOut
    requires Advance(p, env) == (q, b)
    ensures Run(p, env).0 == Run(q, env).0
    ensures Run(p, env).1 == Requests(p).1 + b + Run(q, env).1
  {
  }

  /** READ_CMD takes the ECHO byte and waits for its count. */
  lemma EchoReadsCommand(p0: Port, env: Env)
    requires Core(p0) && EnvOk(env) && p0.state == ReadCmd && !p0.pendingIn && !p0.pendingOut && !p0.eventsOn
    requires p0.cmdPos == 0 && 2 <= |p0.cmdBuf| && p0.cmdBuf[0] == Code(Echo) && p0.reply == []
    ensures Requests(p0) == (p0, [])
    ensures Advance(p0, env) == (p0.(cmd := Code(Echo), cmdPos := 1, argLen := 1, argPos := 0, state := ReadArg), [])
  {
    CmdOfCode(Echo);
  }

  /** READ_ARG latches the count and begins ECHO, which queues DATA. */
  lemma EchoReadsCount(p1: Port, env: Env)
    requires Core(p1) && EnvOk(env) && p1.state == ReadArg && !p1.pendingIn && !p1.pendingOut && !p1.eventsOn
    requires p1.cmd == Code(Echo) && p1.cmdPos == 1 && p1.argLen == 1 && p1.argPos == 0
    requires 2 < |p1.cmdBuf| && p1.reply == []
    ensures Requests(p1) == (p1, [])
    ensures Advance(p1, env) == (p1.(arg := p1.arg[0 := p1.cmdBuf[1]], argPos := 1, cmdPos := 2, argLen := 0,
                                     reply := [ReplyData], state := Exec), [])
  {
    CmdOfCode(Echo);
    var p2 := p1.(arg := p1.arg[0 := p1.cmdBuf[1]], argPos := 1, cmdPos := 2, argLen := 0);
    assert LatchArg(p1) == p2;
    assert Begin(p2, env) == (p2.(reply := [ReplyData], state := Exec), []);
  }

  /** EXEC echoes the whole payload when it is all in the buffer and fits. */
  lemma EchoCopies(p3: Port, data: seq<Octet>, env: Env)
    requires Core(p3) && EnvOk(env) && p3.state == Exec && !p3.pendingIn && !p3.pendingOut && !p3.eventsOn
    requires p3.cmd == Code(Echo) && p3.cmdPos == 2 && p3.cmdBuf[2..] == data && p3.arg[0] as int == |data|
    requires 0 < |data| <= BufSize - 2 && p3.reply == [ReplyData]
    ensures Requests(p3) == (p3, [])
    ensures Advance(p3, env) == (p3.(reply := [ReplyData] + data, cmdPos := |p3.cmdBuf|, arg := p3.arg[0 := 0], state := ReadCmd), [])
  {
    CmdOfCode(Echo);
    assert TxRxLen(p3) == |data|;
    assert EchoChunk(p3) == p3.(reply := [ReplyData] + data, cmdPos := |p3.cmdBuf|, arg := p3.arg[0 := 0], state := ReadCmd);
  }
}
