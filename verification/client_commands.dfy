/** The command encoders of the host library (node/tessel-export.js): what
    each call writes to the port's socket, which reply handler it queues, and
    which calls throw. The byte values of the commands are the firmware's
    (`PortEngine.Code`); the host library's CMD table lists the same values.

    Frequencies and baud rates are whole numbers of hertz and the library's
    floating-point formulas are computed exactly over the rationals. */
module PortCommands {
  import opened Common
  import E = PortEngine
  import opened PortClient

  /** A call that writes `bytes` and leaves the client `c`. */
  datatype Sent = Sent(bytes: seq<Octet>, c: Client)

  /** The bytes `[CMD.ECHO, 1, 0x88]` of `sync`. */
  const SyncBytes: seq<Octet> := [E.Code(E.Echo), 1, 0x88]

  /** `sync(callback)`: only with a callback is an echo of one byte sent and
      a handler for its one-byte answer queued. */
  function Sync(c: Client, cb: Option<nat>): (r: Sent)
    ensures cb.None? ==> r == Sent([], c)
    ensures cb.Some? ==> r == Sent(SyncBytes, Enqueue(c, Entry(1, cb.value)))
  {
    match cb
    case None => Sent([], c)
    case Some(tag) => Sent(SyncBytes, Enqueue(c, Entry(1, tag)))
  }

  /** `command(data, callback)`: the command, then a sync. */
  function Command(c: Client, data: seq<Octet>, cb: Option<nat>): (r: Sent)
    ensures |r.bytes| == |data| + |Sync(c, cb).bytes|
    ensures r.bytes[..|data|] == data && r.bytes[|data|..] == Sync(c, cb).bytes
    ensures r.c == Sync(c, cb).c
  {
    var s := Sync(c, cb);
    Sent(data + s.bytes, s.c)
  }

  /** `status(data, callback)`: the command and a handler for a bare status. */
  function StatusCommand(c: Client, data: seq<Octet>, tag: nat): (r: Sent)
    ensures r == Sent(data, Enqueue(c, Entry(0, tag)))
  {
    Sent(data, Enqueue(c, Entry(0, tag)))
  }

  // ---------------------------------------------------------------------------
  // tx, rx, txrx

  /** The largest transfer one TX, RX or TXRX command can carry. */
  const MaxChunk: nat := 255

  /** The TX commands of `tx`: the data cut into consecutive chunks of at most
      255 bytes, each behind `[CMD.TX, chunk.length]`. */
  function TxCommands(data: seq<Octet>): (r: seq<Octet>)
    decreases |data|
  {
    if |data| == 0 then []
    else if |data| <= MaxChunk then [E.Code(E.Tx), |data| as Octet] + data
    else [E.Code(E.Tx), MaxChunk as Octet] + data[..MaxChunk] + TxCommands(data[MaxChunk..])
  }

  /** Reading TX commands back: each header's length says how many payload
      bytes follow; anything that is not a TX header fails. */
  function TxPayload(s: seq<Octet>): (r: Option<seq<Octet>>)
    decreases |s|
  {
    if s == [] then Some([])
    else if |s| < 2 || s[0] != E.Code(E.Tx) || s[1] == 0 || |s| < 2 + s[1] as int then None
    else
      match TxPayload(s[2 + s[1] as int..])
      case None => None
      case Some(rest) => Some(s[2..2 + s[1] as int] + rest)
  }

  /** Every chunk header announces between 1 and 255 bytes and the payloads,
      in order, are the data. */
  lemma {:induction false} TxCommandsRoundTrip(data: seq<Octet>)
    ensures TxPayload(TxCommands(data)) == Some(data)
    decreases |data|
  {
    if |data| == 0 {
    } else if |data| <= MaxChunk {
      var s := TxCommands(data);
      assert s[1] as int == |data|;
      assert s[2..2 + |data|] == data && s[2 + |data|..] == [];
      assert TxPayload(s[2 + |data|..]) == Some([]);
      assert data + [] == data;
    } else {
      var s := TxCommands(data);
      var rest := TxCommands(data[MaxChunk..]);
      TxCommandsRoundTrip(data[MaxChunk..]);
      assert s[2 + MaxChunk..] == rest;
      assert s[2..2 + MaxChunk] == data[..MaxChunk];
      assert data == data[..MaxChunk] + data[MaxChunk..];
    }
  }

  /** The number of TX commands is the number of 255-byte chunks. */
  function ChunkCount(n: nat): nat
  {
    (n + MaxChunk - 1) / MaxChunk
  }

  lemma {:induction false} TxCommandsLength(data: seq<Octet>)
    ensures |TxCommands(data)| == |data| + 2 * ChunkCount(|data|)
    decreases |data|
  {
    if |data| > MaxChunk {
      TxCommandsLength(data[MaxChunk..]);
      assert ChunkCount(|data|) == ChunkCount(|data| - MaxChunk) + 1;
    }
  }

  /** `tx(data, callback)`: empty data is a RangeError; otherwise the TX
      commands and one sync. */
  function TxCall(c: Client, data: seq<Octet>, cb: Option<nat>): (r: Result<Sent>)
    ensures r.Err? <==> data == []
    ensures r.Ok? ==> r.value.bytes == TxCommands(data) + Sync(c, cb).bytes && r.value.c == Sync(c, cb).c
  {
    if data == [] then Err("Buffer size must be non-zero")
    else
      var s := Sync(c, cb);
      Ok(Sent(TxCommands(data) + s.bytes, s.c))
  }

  /** A length one RX or TXRX command can carry. */
  predicate ChunkLength(n: nat)
  {
    0 < n <= MaxChunk
  }

  /** `rx(len, callback)`: `[CMD.RX, len]` and a handler for `len` bytes. */
  function RxCall(c: Client, len: nat, tag: nat): (r: Result<Sent>)
    ensures r.Err? <==> !ChunkLength(len)
    ensures r.Ok? ==> r.value == Sent([E.Code(E.Rx), len as Octet], Enqueue(c, Entry(len, tag)))
  {
    if !ChunkLength(len) then Err("Buffer size must be within 1-255")
    else Ok(Sent([E.Code(E.Rx), len as Octet], Enqueue(c, Entry(len, tag))))
  }

  /** `txrx(buf, callback)`: `[CMD.TXRX, len]`, the bytes, and a handler for
      as many bytes as were sent. */
  function TxRxCall(c: Client, buf: seq<Octet>, tag: nat): (r: Result<Sent>)
    ensures r.Err? <==> !ChunkLength(|buf|)
    ensures r.Ok? ==> r.value == Sent([E.Code(E.TxRx), |buf| as Octet] + buf, Enqueue(c, Entry(|buf|, tag)))
  {
    if !ChunkLength(|buf|) then Err("Buffer size must be within 1-255")
    else Ok(Sent([E.Code(E.TxRx), |buf| as Octet] + buf, Enqueue(c, Entry(|buf|, tag))))
  }

  // ---------------------------------------------------------------------------
  // Pins

  /** Pins 2, 5, 6 and 7 can interrupt (INT_PINS); pins 2..7 have pull
      resistors (PULL_PINS); pins 5 and 6 drive PWM (PWM_PINS). */
  predicate IntPin(pin: nat) { pin == 2 || pin == 5 || pin == 6 || pin == 7 }
  predicate PullPin(pin: nat) { 2 <= pin <= 7 }
  predicate PwmPin(pin: nat) { pin == 5 || pin == 6 }

  /** ADC_PINS on port A; every pin of port B. */
  predicate AdcPin(pin: nat, portB: bool) { portB || pin == 4 || pin == 7 }

  /** The level modes, which fire once. */
  predicate LevelMode(m: IntMode)
  {
    m == High || m == Low
  }

  /** The event name passed to `addListener`: an interrupt mode, or some
      other name. */
  datatype Listen = ModeEvent(mode: IntMode) | OtherEvent(name: string)

  /** The GPIO_INT argument `pin | INT_MODES[mode] << 4` (mode 0 for none). */
  function IntArg(pin: nat, mode: Option<IntMode>): (b: Octet)
    requires pin < 8
  {
    (pin + 16 * (if mode.Some? then IntModeCode(mode.value) as int else 0)) as Octet
  }

  /** Setting `interruptMode`: rise and fall are kept as change, and a
      GPIO_INT command with the mode as given is sent. */
  function SetInterruptMode(c: Client, pin: nat, mode: Option<IntMode>): (r: Sent)
    requires ClientOk(c) && pin < 8
    ensures ClientOk(r.c) && r.c == c.(modes := r.c.modes)
    ensures r.c.modes == c.modes[pin := if mode == Some(Rise) || mode == Some(Fall) then Some(Change) else mode]
    ensures r.bytes == [E.Code(E.GpioInt), IntArg(pin, mode)]
  {
    var stored := if mode == Some(Rise) || mode == Some(Fall) then Some(Change) else mode;
    Command(c.(modes := c.modes[pin := stored]), [E.Code(E.GpioInt), IntArg(pin, mode)], None)
  }

  /** `addListener(mode, callback)` on pin `pin` (`on` when `once` is false):
      the rules under which it throws, else a reference on the socket and the
      new interrupt mode. */
  function AddListener(c: Client, pin: nat, event: Listen, once: bool): (r: Result<Sent>)
    requires ClientOk(c) && pin < 8
    ensures r.Err? <==>
      || event.OtherEvent?
      || !IntPin(pin)
      || (LevelMode(event.mode) && !once)
      || (c.modes[pin].Some? && (LevelMode(event.mode) || LevelMode(c.modes[pin].value)))
    ensures r.Ok? ==> r.value.c.pending == c.pending + 1
  {
    match event
    case OtherEvent(_) => Err("Invalid pin event mode")
    case ModeEvent(mode) =>
      if !IntPin(pin) then Err("Interrupts are not supported on pin")
      else if LevelMode(mode) && !once then Err("Cannot use \"on\" with level interrupts")
      else if c.modes[pin].Some? && (LevelMode(mode) || LevelMode(c.modes[pin].value)) then
        Err("Cannot set pin interrupt mode")
      else Ok(SetInterruptMode(c.(pending := Ref(c.pending)), pin, Some(mode)))
  }

  /** The firmware reads a GPIO_INT argument back as the pin (`& 7`) and the
      sense mode (`(>> 4) & 7`). */
  lemma IntArgDecodes(pin: nat, mode: Option<IntMode>)
    requires pin < 8
    ensures E.Low3(IntArg(pin, mode)) == pin
    ensures (IntArg(pin, mode) / 16) % 8 == if mode.Some? then IntModeCode(mode.value) else 0
  {
  }

  /** PULL_MODES. */
  datatype PullName = PullDown | PullUp | PullNone | PullOther(name: string)

  /** `pull(pullType, callback)`; a missing type means none. */
  function PullCall(c: Client, pin: nat, pull: Option<PullName>, cb: Option<nat>): (r: Result<Sent>)
    requires pin < 8
    ensures r.Err? <==> !PullPin(pin) || (pull.Some? && pull.value.PullOther?)
    ensures r.Ok? ==> |r.value.bytes| >= 2 && r.value.bytes[..2] == [E.Code(E.GpioPull), PullArg(pin, PullMode(pull))]
  {
    if !PullPin(pin) then Err("Internal pull resistors are not available on this pin")
    else
      var name := if pull.None? then PullNone else pull.value;
      if name.PullOther? then Err("Invalid pull type")
      else Ok(Command(c, [E.Code(E.GpioPull), PullArg(pin, PullMode(pull))], cb))
  }

  /** The PULL_MODES value of a valid pull type. */
  function PullMode(pull: Option<PullName>): (m: nat)
    ensures m <= 2
  {
    match pull
    case None => 2
    case Some(PullDown) => 0
    case Some(PullUp) => 1
    case Some(_) => 2
  }

  function PullArg(pin: nat, mode: nat): Octet
    requires pin < 8 && mode <= 2
  {
    (pin + 16 * mode) as Octet
  }

  /** The firmware turns the argument back into the pull the caller asked for. */
  lemma PullArgDecodes(pin: nat, pull: PullName)
    requires 2 <= pin < 8 && !pull.PullOther?
    ensures E.PullActions(PullArg(pin, PullMode(Some(pull)))) ==
      [E.Hw(match pull case PullDown => E.PullDown(pin) case PullUp => E.PullUp(pin) case _ => E.Float(pin))]
  {
  }

  /** `high`, `low`, `toggle` and `input`: one command and an optional sync. */
  function PinCommand(c: Client, cmd: E.Cmd, pin: nat, cb: Option<nat>): (r: Sent)
    requires cmd in {E.GpioHigh, E.GpioLow, E.GpioToggle, E.GpioInput} && pin < 8
    ensures |r.bytes| >= 2 && r.bytes[..2] == [E.Code(cmd), pin as Octet]
  {
    Command(c, [E.Code(cmd), pin as Octet], cb)
  }

  /** `read` and `rawRead` (`_readPin`): the command and a status handler,
      whose callback receives 1 for HIGH and 0 for anything else. */
  function ReadPin(c: Client, raw: bool, pin: nat, tag: nat): (r: Sent)
    requires pin < 8
    ensures r == Sent([E.Code(if raw then E.GpioRawRead else E.GpioIn), pin as Octet], Enqueue(c, Entry(0, tag)))
  {
    Sent([E.Code(if raw then E.GpioRawRead else E.GpioIn), pin as Octet], Enqueue(c, Entry(0, tag)))
  }

  function PinValue(status: Octet): (v: nat)
    ensures v == 1 <==> status == E.ReplyHigh
  {
    if status == E.ReplyHigh then 1 else 0
  }

  // ---------------------------------------------------------------------------
  // Analog

  /** `analogRead`: a handler for two bytes, which its callback reads as
      `data[0] + (data[1] << 8)` (then scaled by the resolution). */
  function AnalogReadCall(c: Client, pin: nat, portB: bool, tag: nat): (r: Result<Sent>)
    requires pin < 8
    ensures r.Err? <==> !AdcPin(pin, portB)
    ensures r.Ok? ==> r.value == Sent([E.Code(E.AnalogRead), pin as Octet], Enqueue(c, Entry(2, tag)))
  {
    if !AdcPin(pin, portB) then Err("pin.analogRead is not supported on this pin")
    else Ok(Sent([E.Code(E.AnalogRead), pin as Octet], Enqueue(c, Entry(2, tag))))
  }

  function AnalogValue(data: seq<Octet>): nat
    requires |data| == 2
  {
    data[0] as nat + data[1] as nat * 256
  }

  /** `analogWrite` with `level` the scaled value `val * 0x3ff`, a whole
      number here: only pin 7 of port B, only levels 0..0x3ff. */
  function AnalogWriteCall(pin: nat, portB: bool, level: int): (r: Result<seq<Octet>>)
    ensures r.Err? <==> !portB || pin != 7 || level < 0 || level > 0x3ff
    ensures r.Ok? ==> |r.value| == 3 && r.value[0] == E.Code(E.AnalogWrite)
    ensures r.Ok? ==> E.Word(r.value[1], r.value[2]) == level
  {
    if !portB || pin != 7 then Err("Analog write can only be used on Pin 7 (G3) of Port B.")
    else if level > 0x3ff || level < 0 then Err("Analog write must be between 0 and 1")
    else Ok([E.Code(E.AnalogWrite), (level / 256) as Octet, (level % 256) as Octet])
  }

  // ---------------------------------------------------------------------------
  // PWM

  /** PWM_PRESCALARS. */
  const Prescalars: seq<nat> := [1, 2, 4, 8, 16, 64, 256, 1024]

  const TicksPerSecond: nat := 48_000_000
  const MaxPeriod: nat := 0xFFFF

  /** The period, in ticks, of `frequency` with prescalar `i`. */
  function PeriodWith(i: nat, frequency: nat): nat
    requires i < |Prescalars| && frequency > 0
  {
    var d := Prescalars[i] * frequency;
    MulLe(1, Prescalars[i], frequency);
    DivAtLeast(TicksPerSecond, d, 0);
    TicksPerSecond / d
  }

  /** `determineDutyCycleAndPrescalar`: the first prescalar whose period
      fits in 16 bits; an error if none does. */
  method DeterminePrescalar(frequency: nat) returns (r: Result<(nat, nat)>)
    requires frequency > 0
    ensures r.Ok? ==> var (i, period) := r.value;
      && i < |Prescalars| && period == PeriodWith(i, frequency) && period <= MaxPeriod
      && forall j :: 0 <= j < i ==> PeriodWith(j, frequency) > MaxPeriod
    ensures r.Err? <==> forall j :: 0 <= j < |Prescalars| ==> PeriodWith(j, frequency) > MaxPeriod
  {
    var i := 0;
    var period := PeriodWith(0, frequency);
    while period > MaxPeriod
      invariant 0 <= i < |Prescalars| && period == PeriodWith(i, frequency)
      invariant forall j :: 0 <= j < i ==> PeriodWith(j, frequency) > MaxPeriod
      decreases |Prescalars| - i
    {
      i := i + 1;
      if i == |Prescalars| {
        return Err("Unable to find prescalar/duty cycle parameter match for frequency");
      }
      period := PeriodWith(i, frequency);
    }
    return Ok((i, period));
  }

  const MinFrequency: nat := 1
  const MaxFrequency: nat := 5000

  /** With the largest prescalar every allowed frequency fits. */
  lemma AllowedFrequencyFits(frequency: nat)
    requires MinFrequency <= frequency
    ensures PeriodWith(7, frequency) <= MaxPeriod
  {
    MulLe(1, frequency, 1024);
    DivAtMost(TicksPerSecond, 1024 * frequency, MaxPeriod);
  }

  /** The PWM_PERIOD command `[28, prescalar << 4 | tcc 0, period BE]`. */
  function PeriodCommand(i: nat, period: nat): (r: seq<Octet>)
    requires i < |Prescalars| && period <= MaxPeriod
    ensures |r| == 4
  {
    [E.Code(E.PwmPeriod), (i * 16) as Octet, (period / 256) as Octet, (period % 256) as Octet]
  }

  /** `pwmFrequency(frequency)`: out-of-range frequencies are a RangeError;
      otherwise the bank's settings and the PWM_PERIOD command. */
  method PwmFrequency(frequency: nat) returns (r: Result<(nat, nat, seq<Octet>)>)
    ensures r.Err? <==> frequency < MinFrequency || frequency > MaxFrequency
    ensures r.Ok? ==> var (i, period, bytes) := r.value;
      && i < |Prescalars| && period == PeriodWith(i, frequency) && period <= MaxPeriod
      && (forall j :: 0 <= j < i ==> PeriodWith(j, frequency) > MaxPeriod)
      && bytes == PeriodCommand(i, period)
  {
    if frequency < MinFrequency || frequency > MaxFrequency {
      return Err("PWM Frequency value must be between 1 and 5000");
    }
    AllowedFrequencyFits(frequency);
    var found := DeterminePrescalar(frequency);
    match found {
      case Err(_) =>
        assert false;
        return Err("unreachable");
      case Ok((i, period)) =>
        return Ok((i, period, PeriodCommand(i, period)));
    }
  }

  /** The firmware reads the PWM_PERIOD command back as TCC 0, the prescalar
      index and the period. */
  lemma PeriodCommandDecodes(i: nat, period: nat)
    requires i < |Prescalars| && period <= MaxPeriod
    ensures var b := PeriodCommand(i, period);
      E.Low3(b[1]) == 0 && (b[1] / 16) as nat == i && E.Word(b[2], b[3]) == period
  {
  }

  /** `pwmDutyCycle(num / den)`: only PWM pins, only duty cycles in [0, 1],
      only after a frequency was set; the duty in ticks is
      `floor(duty * period)`. */
  function DutyCycleCall(pin: nat, num: int, den: nat, period: nat): (r: Result<seq<Octet>>)
    requires pin < 8 && den > 0 && period <= MaxPeriod
    ensures r.Err? <==> !PwmPin(pin) || num < 0 || num > den || period == 0
    ensures r.Ok? ==> |r.value| == 4 && r.value[..2] == [E.Code(E.PwmDutyCycle), pin as Octet]
    ensures r.Ok? ==> E.Word(r.value[2], r.value[3]) == num * period / den <= period
  {
    if !PwmPin(pin) then Err("PWM can only be used on TX (pin 5) and RX (pin 6) of either module port.")
    else if num < 0 || num > den then Err("PWM duty cycle must be a number between 0 and 1")
    else if period == 0 then Err("PWM Frequency is not configured.")
    else
      var ticks := num * period / den;
      assert 0 <= ticks <= period by {
        MulLe(num, den, period);
        DivAtMost(num * period, den, period);
        DivAtLeast(num * period, den, 0);
      }
      Ok([E.Code(E.PwmDutyCycle), pin as Octet, (ticks / 256) as Octet, (ticks % 256) as Octet])
  }

  // ---------------------------------------------------------------------------
  // SPI

  /** JavaScript's `value || fallback` on an optional number: an absent
      value and 0 both give the fallback. */
  function OrDefault(v: Option<nat>, fallback: nat): (r: nat)
    ensures r == fallback || (v.Some? && r == v.value != 0)
  {
    if v.None? || v.value == 0 then fallback else v.value
  }

  const MinSpiClock: nat := 368
  const MaxSpiClock: nat := 24_000_000
  const DefaultSpiClock: nat := 2_000_000

  /** `clockSpeed = params.clockSpeed || 2e6` and its range check: an absent
      or zero speed is the 2 MHz default, and a speed out of range is a
      RangeError. */
  function SpiClock(speed: Option<nat>): (r: Result<(nat, nat)>)
    ensures var s := OrDefault(speed, DefaultSpiClock);
      && (r.Err? <==> s < MinSpiClock || s > MaxSpiClock)
      && (r.Ok? ==> r.value == SpiDivisors(s))
  {
    var s := OrDefault(speed, DefaultSpiClock);
    if s < MinSpiClock || s > MaxSpiClock then Err("SPI clock must be between 368Hz and 24MHz")
    else Ok(SpiDivisors(s))
  }

  /** The SPI baud register and clock divider for `speed` Hz; the firmware
      clocks at `48 MHz / (2 * (reg + 1) * div)`. The register alone is used
      when it fits in a byte, else the register at its maximum and the divider
      that makes up the rest. The library has a third case, for a divider
      above 255, which only speeds below 368 Hz reach. The result is never
      slower than asked for, and with the register alone it is the slowest
      such setting. */
  function SpiDivisors(speed: nat): (r: (nat, nat))
    requires MinSpiClock <= speed <= MaxSpiClock
    ensures r.0 <= 255 && 1 <= r.1 <= 254
    ensures 2 * (r.0 + 1) * r.1 * speed <= TicksPerSecond
    ensures r.0 < 255 ==> r.1 == 1 && TicksPerSecond < 2 * (r.0 + 2) * speed
  {
    var q := TicksPerSecond / (2 * speed);
    DivAtLeast(TicksPerSecond, 2 * speed, 1);
    DivFloor(TicksPerSecond, 2 * speed);
    var reg := q - 1;
    if reg > 255 then
      var div := TicksPerSecond / (speed * 512);
      DivisorFits(speed, q);
      if div > 255 then
        assert false; SlowestSpi
      else
        DivFloor(TicksPerSecond, speed * 512);
        assert 2 * (255 + 1) * div * speed == div * (speed * 512);
        (255, div)
    else
      (reg, 1)
  }

  const SlowestSpi: (nat, nat) := (255, 255)

  /** Above 368 Hz and with the register out of range, the divider is
      between 1 and 254. */
  lemma DivisorFits(speed: nat, q: nat)
    requires MinSpiClock <= speed && q == TicksPerSecond / (2 * speed) && q > 256
    ensures 1 <= TicksPerSecond / (speed * 512) <= 254
  {
    DivFloor(TicksPerSecond, 2 * speed);
    MulLe(257, q, 2 * speed);
    DivAtLeast(TicksPerSecond, speed * 512, 1);
    MulLe(368, speed, 512);
    DivAtMost(TicksPerSecond, speed * 512, 254);
  }

  /** Examples from the library's tests. */
  lemma SpiClockExamples()
    ensures SpiClock(Some(1_000_000)) == Ok((23, 1))
    ensures SpiClock(Some(368)) == Ok((255, 254))
    ensures SpiClock(Some(92_770)) == Ok((255, 1))
    ensures SpiClock(Some(367)).Err? && SpiClock(Some(24_000_001)).Err?
  {
  }

  /** A port created without a clock speed, or with 0, clocks at 2 MHz:
      register 11 and divider 1. */
  lemma SpiClockDefault()
    ensures SpiClock(None) == Ok((11, 1)) && SpiClock(Some(0)) == Ok((11, 1))
    ensures SpiClock(None) == SpiClock(Some(DefaultSpiClock))
  {
  }

  /** A clock-polarity or -phase option: a string, a number, or absent. */
  datatype Param = Text(s: string) | Num(n: int) | Absent

  /** SPI options; `dataMode`, when a number, overrides cpol and cpha. */
  datatype SpiOptions = SpiOptions(dataMode: Option<nat>, cpol: Param, cpha: Param, clockSpeed: Option<nat>)

  /** `params.cpol = dataMode & 1; params.cpha = dataMode & 2` and then
      `cpol === 1` / `cpha === 1`, as written: `dataMode & 2` is 0 or 2, never
      1, so the phase bit is always 0. */
  function SpiModeAsWritten(o: SpiOptions): (r: (bool, bool))
  {
    var cpol := if o.dataMode.Some? then Num(o.dataMode.value % 2) else o.cpol;
    var cpha := if o.dataMode.Some? then Num(2 * ((o.dataMode.value / 2) % 2)) else o.cpha;
    (cpol == Text("high") || cpol == Num(1), cpha == Text("second") || cpha == Num(1))
  }

  /** The intended reading: bit 0 of dataMode is the polarity, bit 1 the phase. */
  function SpiMode(o: SpiOptions): (r: (bool, bool))
    ensures o.dataMode.Some? ==> r == (o.dataMode.value % 2 == 1, (o.dataMode.value / 2) % 2 == 1)
    ensures o.dataMode.None? ==> r == SpiModeAsWritten(o)
  {
    if o.dataMode.Some? then (o.dataMode.value % 2 == 1, (o.dataMode.value / 2) % 2 == 1)
    else SpiModeAsWritten(o)
  }

  /** The ENABLE_SPI command `[10, cpol + (cpha << 1), reg, div]`. */
  function SpiEnable(mode: (bool, bool), reg: nat, div: nat): (r: seq<Octet>)
    requires reg <= 255 && div <= 255
  {
    [E.Code(E.EnableSpi), ((if mode.0 then 1 else 0) + (if mode.1 then 2 else 0)) as Octet, reg as Octet, div as Octet]
  }

  /** The firmware decodes the ENABLE_SPI arguments back into the polarity,
      the phase, the register and the divider. */
  lemma SpiEnableDecodes(mode: (bool, bool), reg: nat, div: nat)
    requires reg <= 255 && div <= 255
    ensures var b := SpiEnable(mode, reg, div);
      && (b[1] % 2 == 1 <==> mode.0) && ((b[1] / 2) % 2 == 1 <==> mode.1)
      && b[2] as nat == reg && b[3] as nat == div
  {
  }

  /** The flaw: SPI modes 2 and 3 reach the firmware with the phase bit
      clear. */
  lemma SpiModeLosesPhase(o: SpiOptions)
    requires o.dataMode == Some(2) || o.dataMode == Some(3)
    ensures !SpiModeAsWritten(o).1 && SpiMode(o).1
  {
  }

  /** The SPI constructor: the clock speed or its default, then ENABLE_SPI
      with the mode bits, the register and the divider. */
  function SpiCreate(o: SpiOptions): (r: Result<seq<Octet>>)
    ensures r.Err? <==> SpiClock(o.clockSpeed).Err?
    ensures r.Ok? ==> |r.value| == 4 && E.CmdOf(r.value[0]) == Some(E.EnableSpi)
    ensures r.Ok? ==> var mode := SpiMode(o);
      && (r.value[1] % 2 == 1 <==> mode.0) && ((r.value[1] / 2) % 2 == 1 <==> mode.1)
      && (r.value[2] as nat, r.value[3] as nat) == SpiClock(o.clockSpeed).value
  {
    match SpiClock(o.clockSpeed)
    case Err(e) => Err(e)
    case Ok(d) =>
      E.CmdOfCode(E.EnableSpi);
      SpiEnableDecodes(SpiMode(o), d.0, d.1);
      Ok(SpiEnable(SpiMode(o), d.0, d.1))
  }

  /** `SPI.disable()` as written sends `[CMD.CMD_DISABLE_SPI]`, a property
      the CMD table lacks; the undefined value becomes byte 0, a NOP. */
  function SpiDisableAsWritten(): (r: seq<Octet>)
    ensures r == [E.Code(E.Nop)]
  {
    [0]
  }

  /** The intended command, DISABLE_SPI. */
  function SpiDisable(): (r: seq<Octet>)
    ensures |r| == 1 && E.CmdOf(r[0]) == Some(E.DisableSpi)
  {
    E.CmdOfCode(E.DisableSpi);
    [E.Code(E.DisableSpi)]
  }

  /** What the firmware does with each: the byte written reads as NOP, which
      leaves the serial unit as it is. */
  lemma SpiDisableIsNop()
    ensures E.CmdOf(SpiDisableAsWritten()[0]) == Some(E.Nop)
    ensures E.CmdOf(SpiDisable()[0]) == Some(E.DisableSpi)
  {
    E.CmdOfCode(E.Nop);
  }

  // ---------------------------------------------------------------------------
  // UART

  const MinBaud: nat := 9600
  const MaxBaud: nat := 230_400

  /** `floor(65536 * (1 - 16 * baud / 48e6))`, the 16x-oversampling
      arithmetic baud register. */
  function BaudRegister(baud: nat): (r: nat)
    requires MinBaud <= baud <= MaxBaud
    ensures r < 0x1_0000
  {
    var x := 65536 * TicksPerSecond - 16 * 65536 * baud;
    DivAtMost(x, TicksPerSecond, 0xFFFF);
    x / TicksPerSecond
  }

  /** The `baudrate` setter: out-of-range rates throw and change nothing;
      otherwise the rate is kept and `[ENABLE_UART, reg >> 8, reg & 0xFF]`
      is sent. */
  function SetBaud(current: nat, baud: nat): (r: Result<(nat, seq<Octet>)>)
    ensures r.Err? <==> baud < MinBaud || baud > MaxBaud
    ensures r.Ok? ==> r.value.0 == baud && |r.value.1| == 3 && r.value.1[0] == E.Code(E.EnableUart)
    ensures r.Ok? ==> E.Word(r.value.1[1], r.value.1[2]) == BaudRegister(baud)
  {
    if baud < MinBaud || baud > MaxBaud then Err("UART baudrate must be between 9600 and 230400")
    else
      var reg := BaudRegister(baud);
      Ok((baud, [E.Code(E.EnableUart), (reg / 256) as Octet, (reg % 256) as Octet]))
  }

  lemma BaudExample()
    ensures SetBaud(9600, 9600) == Ok((9600, [14, 255, 46]))
  {
  }

  const DefaultBaud: nat := 9600

  /** The UART constructor: `baudrate = options.baudrate || 9600` through
      the setter, so an absent or zero rate enables the UART at 9600 baud. */
  function UartCreate(baudrate: Option<nat>): (r: Result<(nat, seq<Octet>)>)
    ensures baudrate.None? || baudrate == Some(0) ==> r == Ok((9600, [14, 255, 46]))
    ensures baudrate.Some? && baudrate.value != 0 ==> r == SetBaud(DefaultBaud, baudrate.value)
  {
    SetBaud(DefaultBaud, OrDefault(baudrate, DefaultBaud))
  }

  /** `UART.disable()`: `[DISABLE_UART, 0, 0]`, and the reference taken when
      the UART was created is released. */
  function UartDisable(c: Client): (r: Sent)
    ensures r.bytes == [E.Code(E.DisableUart), 0, 0] && r.c.pending == Unref(c.pending)
  {
    Sent([E.Code(E.DisableUart), 0, 0], c.(pending := Unref(c.pending), hasUart := false))
  }

  // ---------------------------------------------------------------------------
  // I2C

  /** `floor((48e6 / f - 48e6 * 15 ns) / 2 - 5)`, the baud value for which
      the bus clock `48e6 / (2 * (5 + baud) + 48e6 * 15 ns)` is the slowest
      that is not slower than `f`. */
  function I2cBaudExact(frequency: nat): (b: int)
    requires frequency > 0
    ensures frequency * (200 * (b + 5) + 72) <= 4_800_000_000 < frequency * (200 * (b + 6) + 72)
  {
    var d := 200 * frequency;
    MulLe(1, 200, frequency);
    var q := (4_800_000_000 - 72 * frequency) / d;
    DivFloor(4_800_000_000 - 72 * frequency, d);
    assert frequency * (200 * (q + 5) + 72) == q * d + 1000 * frequency + 72 * frequency;
    q - 5
  }

  /** `I2C.computeBaud`: the exact value clamped to a byte. */
  function I2cBaud(frequency: nat): (r: nat)
    requires frequency > 0
    ensures r <= 255
    ensures 0 <= I2cBaudExact(frequency) <= 255 ==> r == I2cBaudExact(frequency)
    ensures I2cBaudExact(frequency) < 0 ==> r == 0
    ensures I2cBaudExact(frequency) > 255 ==> r == 255
  {
    var b := I2cBaudExact(frequency);
    if b < 0 then 0 else if b > 255 then 255 else b
  }

  const DefaultI2cFrequency: nat := 100_000

  /** The constructor: a missing address throws; the frequency, or 100 kHz
      when it is absent or zero, goes through the setter's check; then
      ENABLE_I2C with the baud value is sent unless the port's I2C bus is
      already enabled. */
  function I2cEnable(enabled: bool, address: Option<nat>, frequency: Option<nat>): (r: Result<seq<Octet>>)
    ensures address.None? ==> r.Err?
    ensures address.Some? ==> (r.Err? <==> SetI2cFrequency(OrDefault(frequency, DefaultI2cFrequency)).Err?)
    ensures r.Ok? && enabled ==> r.value == []
    ensures r.Ok? && !enabled ==>
      r.value == [E.Code(E.EnableI2c), I2cBaud(OrDefault(frequency, DefaultI2cFrequency)) as Octet]
  {
    var f := OrDefault(frequency, DefaultI2cFrequency);
    if address.None? then Err("I2C expected an address")
    else if SetI2cFrequency(f).Err? then Err("I2C frequency must be 100kHz or 400kHz")
    else if enabled then Ok([])
    else Ok([E.Code(E.EnableI2c), I2cBaud(f) as Octet])
  }

  lemma I2cBaudExamples()
    ensures I2cBaud(100_000) == 234 && I2cBaud(400_000) == 54
  {
    assert I2cBaudExact(100_000) == 234;
    assert I2cBaudExact(400_000) == 54;
  }

  /** A device created with an address and no frequency, or frequency 0,
      enables the bus at 100 kHz: `[ENABLE_I2C, 234]`; one without an
      address is refused whatever its frequency. */
  lemma I2cEnableDefault(address: nat, frequency: Option<nat>)
    ensures I2cEnable(false, Some(address), None) == Ok([12, 234])
    ensures I2cEnable(false, Some(address), Some(0)) == Ok([12, 234])
    ensures I2cEnable(false, None, frequency).Err?
  {
    I2cBaudExamples();
  }

  /** The I2C frequency setter accepts 100 kHz and 400 kHz only. */
  function SetI2cFrequency(frequency: nat): (r: Result<nat>)
    ensures r.Ok? <==> frequency == 100_000 || frequency == 400_000
    ensures r.Ok? ==> r.value == frequency
  {
    if frequency != 100_000 && frequency != 400_000 then Err("I2C frequency must be 100kHz or 400kHz")
    else Ok(frequency)
  }

  /** The address byte of START: `address << 1`, with the read bit. */
  function AddressByte(address: nat, read: bool): Octet
  {
    Wrap(2 * address + (if read then 1 else 0))
  }

  /** `I2C.send(data, callback)`: START for writing, the data as TX commands,
      STOP and a sync for the callback. */
  function I2cSend(c: Client, address: nat, data: seq<Octet>, cb: Option<nat>): (r: Result<Sent>)
    ensures r.Err? <==> data == []
    ensures r.Ok? ==> (r.value.bytes ==
      [E.Code(E.Start), AddressByte(address, false)] + TxCommands(data) + [E.Code(E.Stop)] + Sync(c, cb).bytes)
  {
    var start := Command(c, [E.Code(E.Start), AddressByte(address, false)], None);
    match TxCall(start.c, data, None)
    case Err(e) => Err(e)
    case Ok(tx) =>
      var stop := Command(tx.c, [E.Code(E.Stop)], cb);
      Ok(Sent(start.bytes + tx.bytes + stop.bytes, stop.c))
  }

  /** `I2C.read(length, callback)`: START for reading, RX with the handler,
      STOP. */
  function I2cRead(c: Client, address: nat, len: nat, tag: nat): (r: Result<Sent>)
    ensures r.Err? <==> !ChunkLength(len)
    ensures r.Ok? ==> (r.value.bytes ==
      [E.Code(E.Start), AddressByte(address, true), E.Code(E.Rx), len as Octet, E.Code(E.Stop)])
    ensures r.Ok? ==> r.value.c.queue == c.queue + [Entry(len, tag)]
  {
    var start := Command(c, [E.Code(E.Start), AddressByte(address, true)], None);
    match RxCall(start.c, len, tag)
    case Err(e) => Err(e)
    case Ok(rx) =>
      var stop := Command(rx.c, [E.Code(E.Stop)], None);
      Ok(Sent(start.bytes + rx.bytes + stop.bytes, stop.c))
  }

  /** `I2C.transfer(txbuf, rxlen, callback)`: the write phase only when
      there is something to write, then a repeated START for reading, RX with
      the handler, STOP. */
  function I2cTransfer(c: Client, address: nat, txbuf: seq<Octet>, len: nat, tag: nat): (r: Result<Sent>)
    ensures r.Err? <==> !ChunkLength(len)
    ensures r.Ok? && txbuf == [] ==> I2cRead(c, address, len, tag).Ok? && r.value == I2cRead(c, address, len, tag).value
    ensures r.Ok? && txbuf != [] ==> (r.value.bytes ==
      [E.Code(E.Start), AddressByte(address, false)] + TxCommands(txbuf)
      + [E.Code(E.Start), AddressByte(address, true), E.Code(E.Rx), len as Octet, E.Code(E.Stop)])
    ensures r.Ok? ==> r.value.c.queue == c.queue + [Entry(len, tag)]
  {
    if txbuf == [] then I2cRead(c, address, len, tag)
    else
      var start := Command(c, [E.Code(E.Start), AddressByte(address, false)], None);
      var tx := TxCall(start.c, txbuf, None).value;
      match I2cRead(tx.c, address, len, tag)
      case Err(e) => Err(e)
      case Ok(rd) => Ok(Sent(start.bytes + tx.bytes + rd.bytes, rd.c))
  }

  // ---------------------------------------------------------------------------
  // Arithmetic used above

  lemma MulLe(x: int, y: int, z: nat)
    requires x <= y
    ensures x * z <= y * z
  {
  }

  lemma DivFloor(a: int, b: int)
    requires b > 0
    ensures (a / b) * b <= a < (a / b) * b + b
  {
  }

  lemma DivAtMost(a: int, b: int, k: int)
    requires b > 0 && a < (k + 1) * b
    ensures a / b <= k
  {
    DivFloor(a, b);
    if a / b > k {
      MulLe(k + 1, a / b, b);
    }
  }

  lemma DivAtLeast(a: int, b: int, k: int)
    requires b > 0 && k * b <= a
    ensures a / b >= k
  {
    DivFloor(a, b);
    if a / b < k {
      MulLe(a / b + 1, k, b);
    }
  }
}
