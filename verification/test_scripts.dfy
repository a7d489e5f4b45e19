/** The two line-oriented test drivers: scripts/port_test/port_test.rs talks
    to a port through the bridge daemon's socket, and
    scripts/usbdaemon_test/usbdaemon_test.rs plays the SoC side of the USB
    exec daemon. Both read a script whose `<` lines are bytes to send and
    whose `>` lines are bytes to expect, one token per byte; they differ
    only in their mnemonic tables. */
module TestScripts {
  import opened Common
  import E = PortEngine

  /** Which driver's mnemonic table applies. */
  datatype Dialect = PortTest | DaemonTest

  // ---------------------------------------------------------------------
  // Mnemonics

  /** The named tokens of port_test's parse_op. */
  function PortMnemonic(s: string): Option<Octet>
  {
    if s == "NOP" then Some(0) else if s == "FLUSH" then Some(1)
    else if s == "ECHO" then Some(2) else if s == "GPIO_IN" then Some(3)
    else if s == "GPIO_HIGH" then Some(4) else if s == "GPIO_LOW" then Some(5)
    else if s == "GPIO_TOGGLE" then Some(21) else if s == "GPIO_CFG" then Some(6)
    else if s == "GPIO_WAIT" then Some(7) else if s == "GPIO_INT" then Some(8)
    else if s == "ENABLE_SPI" then Some(10) else if s == "DISABLE_SPI" then Some(11)
    else if s == "ENABLE_I2C" then Some(12) else if s == "DISABLE_I2C" then Some(13)
    else if s == "ENABLE_UART" then Some(14) else if s == "DISABLE_UART" then Some(15)
    else if s == "TX" then Some(16) else if s == "RX" then Some(17)
    else if s == "TXRX" then Some(18) else if s == "START" then Some(19)
    else if s == "STOP" then Some(20)
    else if s == "ACK" then Some(0x80) else if s == "NACK" then Some(0x81)
    else if s == "HIGH" then Some(0x82) else if s == "LOW" then Some(0x83)
    else if s == "DATA" then Some(0x84)
    else None
  }

  /** The named tokens of usbdaemon_test's parse_op. */
  function DaemonMnemonic(s: string): Option<Octet>
  {
    if s == "CMD_RESET" then Some(0x00) else if s == "CMD_OPEN" then Some(0x01)
    else if s == "CMD_CLOSE" then Some(0x02) else if s == "CMD_KILL" then Some(0x03)
    else if s == "CMD_EXIT_STATUS" then Some(0x05) else if s == "CMD_CLOSE_ACK" then Some(0x06)
    else if s == "CMD_WRITE_CONTROL" then Some(0x10) else if s == "CMD_WRITE_STDIN" then Some(0x11)
    else if s == "CMD_WRITE_STDOUT" then Some(0x12) else if s == "CMD_WRITE_STDERR" then Some(0x13)
    else if s == "CMD_ACK_CONTROL" then Some(0x20) else if s == "CMD_ACK_STDIN" then Some(0x21)
    else if s == "CMD_ACK_STDOUT" then Some(0x22) else if s == "CMD_ACK_STDERR" then Some(0x23)
    else if s == "CMD_CLOSE_CONTROL" then Some(0x30) else if s == "CMD_CLOSE_STDIN" then Some(0x31)
    else if s == "CMD_CLOSE_STDOUT" then Some(0x32) else if s == "CMD_CLOSE_STDERR" then Some(0x33)
    else None
  }

  function Mnemonic(d: Dialect, s: string): Option<Octet>
  {
    match d
    case PortTest => PortMnemonic(s)
    case DaemonTest => DaemonMnemonic(s)
  }

  /** The port_test name of each port command that has one. */
  function PortCommandName(c: E.Cmd): Option<string>
  {
    match c
    case Nop => Some("NOP") case Flush => Some("FLUSH") case Echo => Some("ECHO")
    case GpioIn => Some("GPIO_IN") case GpioHigh => Some("GPIO_HIGH") case GpioLow => Some("GPIO_LOW")
    case GpioToggle => Some("GPIO_TOGGLE") case GpioCfg => Some("GPIO_CFG")
    case GpioWait => Some("GPIO_WAIT") case GpioInt => Some("GPIO_INT")
    case EnableSpi => Some("ENABLE_SPI") case DisableSpi => Some("DISABLE_SPI")
    case EnableI2c => Some("ENABLE_I2C") case DisableI2c => Some("DISABLE_I2C")
    case EnableUart => Some("ENABLE_UART") case DisableUart => Some("DISABLE_UART")
    case Tx => Some("TX") case Rx => Some("RX") case TxRx => Some("TXRX")
    case Start => Some("START") case Stop => Some("STOP")
    case _ => None
  }

  /** port_test's numbers are the firmware's: each command mnemonic parses
      to its PortCmd code. */
  lemma PortCommandMnemonics(c: E.Cmd)
    ensures PortCommandName(c).Some? ==> Mnemonic(PortTest, PortCommandName(c).value) == Some(E.Code(c))
  {
    GpioMnemonics(c);
    BusMnemonics(c);
  }

  predicate IsBusCmd(c: E.Cmd)
  {
    c in {E.EnableSpi, E.DisableSpi, E.EnableI2c, E.DisableI2c, E.EnableUart, E.DisableUart,
          E.Tx, E.Rx, E.TxRx, E.Start, E.Stop}
  }

  lemma GpioMnemonics(c: E.Cmd)
    ensures !IsBusCmd(c) && PortCommandName(c).Some? ==> Mnemonic(PortTest, PortCommandName(c).value) == Some(E.Code(c))
  {
    match c
    case Nop => case Flush => case Echo => case GpioIn => case GpioHigh => case GpioLow =>
    case GpioToggle => case GpioCfg => case GpioWait => case GpioInt =>
    case _ =>
  }

  lemma BusMnemonics(c: E.Cmd)
    ensures IsBusCmd(c) ==> Mnemonic(PortTest, PortCommandName(c).value) == Some(E.Code(c))
  {
    match c
    case EnableSpi => case DisableSpi => case EnableI2c => case DisableI2c =>
    case EnableUart => case DisableUart => case Tx => case Rx => case TxRx =>
    case Start => case Stop =>
    case _ =>
  }

  /** The commands the script's table leaves out (GPIO_PULL, GPIO_INPUT,
      GPIO_RAW_READ, the analog and PWM commands) have no mnemonic and are
      written as numbers. */
  lemma UnnamedPortCommands(c: E.Cmd)
    ensures PortCommandName(c).None? <==>
      c in {E.GpioPull, E.GpioInput, E.GpioRawRead, E.AnalogRead, E.AnalogWrite, E.PwmDutyCycle, E.PwmPeriod}
  {
    match c
    case Nop => case Flush => case Echo => case GpioIn => case GpioHigh => case GpioLow =>
    case GpioToggle => case GpioCfg => case GpioWait => case GpioInt =>
    case EnableSpi => case DisableSpi => case EnableI2c => case DisableI2c =>
    case EnableUart => case DisableUart => case Tx => case Rx => case TxRx =>
    case Start => case Stop =>
    case _ =>
  }

  /** Each reply mnemonic parses to its PortReply code. */
  lemma PortReplyMnemonics()
    ensures Mnemonic(PortTest, "ACK") == Some(E.ReplyAck)
    ensures Mnemonic(PortTest, "NACK") == Some(E.ReplyNack)
  {
  }

  lemma PortLevelMnemonics()
    ensures Mnemonic(PortTest, "HIGH") == Some(E.ReplyHigh)
    ensures Mnemonic(PortTest, "LOW") == Some(E.ReplyLow)
    ensures Mnemonic(PortTest, "DATA") == Some(E.ReplyData)
  {
  }

  /** The exec daemon's command codes (the enum of soc/usbexecd.c). */
  datatype ExecCmd =
    | Reset | Open | Close | Kill | ExitStatus
    | WriteControl | WriteStdin | WriteStdout | WriteStderr
    | AckControl | AckStdin | AckStdout | AckStderr
    | CloseControl | CloseStdin | CloseStdout | CloseStderr

  function ExecCode(c: ExecCmd): Octet
  {
    match c
    case Reset => 0x00 case Open => 0x01 case Close => 0x02 case Kill => 0x03
    case ExitStatus => 0x05
    case WriteControl => 0x10 case WriteStdin => 0x11 case WriteStdout => 0x12 case WriteStderr => 0x13
    case AckControl => 0x20 case AckStdin => 0x21 case AckStdout => 0x22 case AckStderr => 0x23
    case CloseControl => 0x30 case CloseStdin => 0x31 case CloseStdout => 0x32 case CloseStderr => 0x33
  }

  /** The usbdaemon_test name of each daemon command. */
  function ExecName(c: ExecCmd): string
  {
    match c
    case Reset => "CMD_RESET" case Open => "CMD_OPEN" case Close => "CMD_CLOSE" case Kill => "CMD_KILL"
    case ExitStatus => "CMD_EXIT_STATUS"
    case WriteControl => "CMD_WRITE_CONTROL" case WriteStdin => "CMD_WRITE_STDIN"
    case WriteStdout => "CMD_WRITE_STDOUT" case WriteStderr => "CMD_WRITE_STDERR"
    case AckControl => "CMD_ACK_CONTROL" case AckStdin => "CMD_ACK_STDIN"
    case AckStdout => "CMD_ACK_STDOUT" case AckStderr => "CMD_ACK_STDERR"
    case CloseControl => "CMD_CLOSE_CONTROL" case CloseStdin => "CMD_CLOSE_STDIN"
    case CloseStdout => "CMD_CLOSE_STDOUT" case CloseStderr => "CMD_CLOSE_STDERR"
  }

  /** Every daemon command's mnemonic parses to that command's code. */
  lemma DaemonMnemonicsAgree(c: ExecCmd)
    ensures Mnemonic(DaemonTest, ExecName(c)) == Some(ExecCode(c))
  {
    match c
    case Reset => case Open => case Close => case Kill => case ExitStatus =>
    case WriteControl => case WriteStdin => case WriteStdout => case WriteStderr =>
    case AckControl => case AckStdin => case AckStdout => case AckStderr =>
    case CloseControl => case CloseStdin => case CloseStdout => case CloseStderr =>
  }

  /** The one other mnemonic, CMD_CLOSE_ACK, stands for 0x06, which is no
      daemon command's code. */
  lemma CloseAckHasNoCounterpart(c: ExecCmd)
    ensures Mnemonic(DaemonTest, "CMD_CLOSE_ACK") == Some(0x06)
    ensures ExecCode(c) != 0x06 && ExecName(c) != "CMD_CLOSE_ACK"
  {
  }

  // ---------------------------------------------------------------------
  // Numeric literals

  /** The value of a digit in the given radix (10 or 16, either case). */
  function DigitValue(c: char, radix: nat): (r: Option<nat>)
    ensures r.Some? ==> r.value < radix
  {
    if '0' <= c <= '9' && (c as int - '0' as int) < radix then Some(c as int - '0' as int)
    else if radix == 16 && 'a' <= c <= 'f' then Some(c as int - 'a' as int + 10)
    else if radix == 16 && 'A' <= c <= 'F' then Some(c as int - 'A' as int + 10)
    else None
  }

  /** The number a digit string denotes, most significant digit first;
      None for the empty string or a non-digit. */
  function Digits(s: string, radix: nat): (r: Option<nat>)
  {
    if s == [] then None
    else
      var d := DigitValue(s[|s| - 1], radix);
      if d.None? then None
      else if |s| == 1 then d
      else match Digits(s[..|s| - 1], radix)
        case None => None
        case Some(hi) => Some(hi * radix + d.value)
  }

  /** `u8::from_str_radix` and `str::parse::<u8>`: the digits' value when it
      fits in a byte, an error (a panic in the drivers) otherwise. Rust
      checks for overflow digit by digit, which rejects exactly the strings
      whose value exceeds 255. */
  function ParseU8(s: string, radix: nat): (r: Result<Octet>)
    ensures r.Ok? <==> Digits(s, radix).Some? && Digits(s, radix).value < 256
    ensures r.Ok? ==> r.value as int == Digits(s, radix).value
  {
    match Digits(s, radix)
    case Some(v) => if v < 256 then Ok(v as Octet) else Err("Invalid literal")
    case None => Err("Invalid literal")
  }

  /** parse_op: `_` is the wildcard, then the mnemonics, then `0x` hex, then
      decimal. An Err stands for the driver's panic. */
  function ParseOp(d: Dialect, s: string): (r: Result<Option<Octet>>)
    ensures s == "_" ==> r == Ok(None)
    ensures s != "_" && Mnemonic(d, s).Some? ==> r == Ok(Mnemonic(d, s))
    ensures r.Ok? && r.value.None? ==> s == "_"
  {
    if s == "_" then Ok(None)
    else match Mnemonic(d, s)
      case Some(v) => Ok(Some(v))
      case None =>
        var n := if |s| >= 2 && s[..2] == "0x" then ParseU8(s[2..], 16) else ParseU8(s, 10);
        match n
        case Ok(v) => Ok(Some(v))
        case Err(e) => Err(e)
  }

  function DecChar(v: nat): char
    requires v < 10
  {
    ('0' as int + v) as char
  }

  function HexChar(v: nat): char
    requires v < 16
  {
    if v < 10 then DecChar(v) else ('a' as int + v - 10) as char
  }

  /** The decimal spelling of a byte, without leading zeros. */
  function DecText(v: Octet): (r: string)
  {
    var n := v as int;
    if n < 10 then [DecChar(n)]
    else if n < 100 then [DecChar(n / 10), DecChar(n % 10)]
    else [DecChar(n / 100), DecChar(n / 10 % 10), DecChar(n % 10)]
  }

  /** `0x` and two lower-case hex digits. */
  function HexText(v: Octet): (r: string)
  {
    "0x" + [HexChar(v as int / 16), HexChar(v as int % 16)]
  }

  lemma DecCharValue(k: nat)
    requires k < 10
    ensures DigitValue(DecChar(k), 10) == Some(k) && DigitValue(DecChar(k), 16) == Some(k)
    ensures '0' <= DecChar(k) <= '9'
  {
  }

  lemma HexCharValue(k: nat)
    requires k < 16
    ensures DigitValue(HexChar(k), 16) == Some(k)
    ensures HexChar(k) != 'x'
  {
    if k < 10 {
      DecCharValue(k);
    }
  }

  lemma DecDigitsThree(v: Octet)
    requires v as int >= 100
    ensures Digits(DecText(v), 10) == Some(v as int)
  {
    var n := v as int;
    var t := DecText(v);
    DecCharValue(n / 100);
    DecCharValue(n / 10 % 10);
    DecCharValue(n % 10);
    var t2 := t[..2];
    assert t2 == [DecChar(n / 100), DecChar(n / 10 % 10)];
    assert t2[..1] == [DecChar(n / 100)];
    assert Digits(t2, 10) == Some(n / 100 * 10 + n / 10 % 10);
    assert (n / 100 * 10 + n / 10 % 10) * 10 + n % 10 == n;
  }

  lemma DecDigits(v: Octet)
    ensures Digits(DecText(v), 10) == Some(v as int)
  {
    var n := v as int;
    var t := DecText(v);
    if n < 10 {
      DecCharValue(n);
    } else if n < 100 {
      DecCharValue(n / 10);
      DecCharValue(n % 10);
      assert t[..1] == [DecChar(n / 10)];
    } else {
      DecDigitsThree(v);
    }
  }

  lemma HexDigits(v: Octet)
    ensures Digits(HexText(v)[2..], 16) == Some(v as int)
  {
    var n := v as int;
    var h := HexText(v)[2..];
    assert h == [HexChar(n / 16), HexChar(n % 16)];
    HexCharValue(n / 16);
    HexCharValue(n % 16);
    assert h[..1] == [HexChar(n / 16)];
  }

  /** Every byte written in decimal or in `0x` hex parses back to itself in
      either driver. */
  lemma LiteralsRoundTrip(d: Dialect, v: Octet)
    ensures ParseOp(d, DecText(v)) == Ok(Some(v))
    ensures ParseOp(d, HexText(v)) == Ok(Some(v))
  {
    var n := v as int;
    var t := DecText(v);
    DecCharValue(if n < 10 then n else if n < 100 then n / 10 else n / 100);
    NoMnemonicStartsWithDigit(d, t);
    if |t| >= 2 {
      DecCharValue(if n < 100 then n % 10 else n / 10 % 10);
      assert t[1] != 'x';
      assert t[..2] != "0x";
    }
    DecDigits(v);
    var h := HexText(v);
    DecCharValue(0);
    NoMnemonicStartsWithDigit(d, h);
    assert h[..2] == "0x";
    HexDigits(v);
  }

  /** The mnemonics all start with a letter. */
  lemma NoMnemonicStartsWithDigit(d: Dialect, s: string)
    requires |s| > 0 && '0' <= s[0] <= '9'
    ensures Mnemonic(d, s).None? && s != "_"
  {
  }

  /** A value out of byte range panics rather than wrapping. */
  lemma OutOfRangeDecimalPanics(d: Dialect)
    ensures ParseOp(d, "256").Err?
  {
    assert "256"[..2] == "25" && "25"[..1] == "2";
  }

  lemma OutOfRangeHexPanics(d: Dialect)
    ensures ParseOp(d, "0x100").Err?
  {
    assert "0x100"[..2] == "0x" && "0x100"[2..] == "100";
    assert "100"[..2] == "10" && "10"[..1] == "1";
  }

  /** An empty token is neither a name nor a number. */
  lemma EmptyTokenPanics(d: Dialect)
    ensures ParseOp(d, "").Err?
  {
  }

  // ---------------------------------------------------------------------
  // Tokenising a line

  /** Where `trim_matches(' ')` cuts: the start and end of the string
      without its leading and trailing spaces. */
  function TrimBounds(s: string): (r: (nat, nat))
    ensures r.0 <= r.1 <= |s|
    decreases |s|
  {
    if |s| > 0 && s[0] == ' ' then
      var (i, j) := TrimBounds(s[1..]);
      (i + 1, j + 1)
    else if |s| > 0 && s[|s| - 1] == ' ' then TrimBounds(s[..|s| - 1])
    else (0, |s|)
  }

  function TrimSpaces(s: string): string
  {
    var (i, j) := TrimBounds(s);
    s[i..j]
  }

  /** Everything cut off is a space and the rest neither starts nor ends
      with one. */
  lemma {:induction false} TrimSpacesSpec(s: string)
    ensures var (i, j) := TrimBounds(s);
      (forall k :: 0 <= k < i ==> s[k] == ' ')
      && (forall k :: j <= k < |s| ==> s[k] == ' ')
      && (i < j ==> s[i] != ' ' && s[j - 1] != ' ')
    decreases |s|
  {
    if |s| > 0 && s[0] == ' ' {
      TrimSpacesSpec(s[1..]);
    } else if |s| > 0 && s[|s| - 1] == ' ' {
      TrimSpacesSpec(s[..|s| - 1]);
    }
  }

  /** `split(' ')`: the pieces between single spaces, empty pieces
      included, so a line's tokens are separated by exactly one space. */
  function Split(s: string): (r: seq<string>)
    ensures |r| > 0
    decreases |s|
  {
    if ' ' !in s then [s]
    else
      var i := FirstSpace(s);
      [s[..i]] + Split(s[i + 1..])
  }

  /** No piece holds a space, and joining the pieces with single spaces
      gives the string back. */
  lemma {:induction false} SplitSpec(s: string)
    ensures forall k :: 0 <= k < |Split(s)| ==> ' ' !in Split(s)[k]
    ensures Join(Split(s)) == s
    decreases |s|
  {
    if ' ' in s {
      var i := FirstSpace(s);
      SplitSpec(s[i + 1..]);
      assert s == s[..i] + " " + s[i + 1..];
      assert Split(s)[1..] == Split(s[i + 1..]);
    }
  }

  function FirstSpace(s: string): (i: nat)
    requires ' ' in s
    ensures i < |s| && s[i] == ' ' && ' ' !in s[..i]
  {
    if s[0] == ' ' then 0
    else
      var i := FirstSpace(s[1..]);
      assert s[..i + 1] == [s[0]] + s[1..][..i];
      i + 1
  }

  /** The pieces joined back with single spaces. */
  function Join(pieces: seq<string>): string
    requires |pieces| > 0
  {
    if |pieces| == 1 then pieces[0] else pieces[0] + " " + Join(pieces[1..])
  }

  /** The tokens of a script line after its first character. */
  function Tokens(line: string): (r: seq<string>)
    requires |line| > 0
    ensures |r| > 0
  {
    Split(TrimSpaces(line[1..]))
  }

  /** Parses every token; the first bad one panics. */
  function ParseAll(d: Dialect, toks: seq<string>): (r: Result<seq<Option<Octet>>>)
    ensures r.Ok? ==> |r.value| == |toks|
  {
    if toks == [] then Ok([])
    else match ParseOp(d, toks[0])
      case Err(e) => Err(e)
      case Ok(op) =>
        match ParseAll(d, toks[1..])
        case Err(e) => Err(e)
        case Ok(ops) => Ok([op] + ops)
  }

  /** A line parses exactly when each of its tokens does, token by token. */
  lemma {:induction false} ParseAllTokens(d: Dialect, toks: seq<string>)
    ensures ParseAll(d, toks).Ok? <==> forall k :: 0 <= k < |toks| ==> ParseOp(d, toks[k]).Ok?
    ensures ParseAll(d, toks).Ok? ==> forall k :: 0 <= k < |toks| ==> ParseAll(d, toks).value[k] == ParseOp(d, toks[k]).value
  {
    if toks != [] {
      ParseAllTokens(d, toks[1..]);
      assert forall k :: 1 <= k < |toks| ==> toks[1..][k - 1] == toks[k];
    }
  }

  /** An empty `<` or `>` line yields one empty token, which no parse
      accepts, so the driver panics on it. */
  lemma EmptyLinePanics(d: Dialect)
    ensures Tokens("<") == [""] && Tokens(">") == [""]
    ensures ParseAll(d, [""]).Err?
  {
    assert "<"[1..] == "" && ">"[1..] == "";
    assert TrimSpaces("") == "";
    EmptyTokenPanics(d);
  }

  /** Two spaces between tokens also yield an empty token. */
  lemma DoubleSpaceMakesEmptyToken()
    ensures Split("1  2") == ["1", "", "2"]
  {
    assert FirstSpace("1  2") == 1;
    assert "1  2"[..1] == "1" && "1  2"[2..] == " 2";
    assert FirstSpace(" 2") == 0;
    assert " 2"[..0] == "" && " 2"[1..] == "2";
  }

  // ---------------------------------------------------------------------
  // Sending and expecting

  /** The bytes a `<` line writes: `_` is sent as 0. */
  function SendBytes(ops: seq<Option<Octet>>): (r: seq<Octet>)
    ensures |r| == |ops|
    ensures forall k :: 0 <= k < |ops| ==> r[k] == (if ops[k].Some? then ops[k].value else 0)
  {
    seq(|ops|, k requires 0 <= k < |ops| => if ops[k].Some? then ops[k].value else 0)
  }

  /** The reference for a `>` line: every non-wildcard token equals the byte
      read at its position. */
  predicate Matches(ops: seq<Option<Octet>>, got: seq<Octet>)
    requires |got| == |ops|
  {
    forall k :: 0 <= k < |ops| ==> ops[k].Some? ==> got[k] == ops[k].value
  }

  /** The zip loop of run_test over one `>` line: every mismatch clears
      `success`, and the loop always runs to the end of the line. */
  method CompareLine(ops: seq<Option<Octet>>, got: seq<Octet>) returns (success: bool, mismatches: nat)
    requires |got| == |ops|
    ensures success <==> Matches(ops, got)
    ensures mismatches <= |ops| && (success <==> mismatches == 0)
  {
    success := true;
    mismatches := 0;
    var k := 0;
    while k < |ops|
      invariant 0 <= k <= |ops| && mismatches <= k
      invariant success <==> forall j :: 0 <= j < k ==> ops[j].Some? ==> got[j] == ops[j].value
      invariant success <==> mismatches == 0
    {
      if ops[k].Some? && got[k] != ops[k].value {
        success := false;
        mismatches := mismatches + 1;
      }
      k := k + 1;
    }
  }

  datatype LineKind = SendLine | ExpectLine | Skipped

  /** `<` sends, `>` expects, anything else is skipped. */
  function KindOf(line: string): (r: LineKind)
    ensures r != Skipped ==> |line| > 0
  {
    if |line| > 0 && line[0] == '<' then SendLine
    else if |line| > 0 && line[0] == '>' then ExpectLine
    else Skipped
  }

  /** A `<` or `>` line with its parsed tokens. */
  datatype Line = Send(ops: seq<Option<Octet>>) | Expect(ops: seq<Option<Octet>>)

  /** The script's `<` and `>` lines, parsed; skipped lines drop out. */
  function ParseScript(d: Dialect, lines: seq<string>): (r: Result<seq<Line>>)
    decreases |lines|
  {
    if lines == [] then Ok([])
    else
      var line := lines[0];
      var kind := KindOf(line);
      if kind == Skipped then ParseScript(d, lines[1..])
      else match ParseAll(d, Tokens(line))
        case Err(e) => Err(e)
        case Ok(ops) =>
          match ParseScript(d, lines[1..])
          case Err(e) => Err(e)
          case Ok(rest) => Ok([if kind == SendLine then Send(ops) else Expect(ops)] + rest)
  }

  /** What running a script did: the bytes written to the socket, how many
      bytes it read, and whether every expectation held. */
  datatype Outcome = Outcome(sent: seq<Octet>, consumed: nat, success: bool)

  /** The loop of run_test over parsed lines, given the bytes the peer
      sends: a `<` line writes its bytes, a `>` line reads as many bytes as
      it has tokens (a panic when the peer has fewer to give) and compares
      them, and a mismatch does not stop the run. */
  function Exec(script: seq<Line>, incoming: seq<Octet>): (r: Result<Outcome>)
    decreases |script|
  {
    if script == [] then Ok(Outcome([], 0, true))
    else match script[0]
      case Send(ops) =>
        (match Exec(script[1..], incoming)
         case Err(e) => Err(e)
         case Ok(o) => Ok(Outcome(SendBytes(ops) + o.sent, o.consumed, o.success)))
      case Expect(ops) =>
        if |incoming| < |ops| then Err("failed to read whole buffer")
        else match Exec(script[1..], incoming[|ops|..])
          case Err(e) => Err(e)
          case Ok(o) => Ok(Outcome(o.sent, |ops| + o.consumed, Matches(ops, incoming[..|ops|]) && o.success))
  }

  /** run_test: an Err is a panic, from a bad token anywhere in the script
      or from the peer closing before a `>` line's bytes arrived. */
  function Run(d: Dialect, lines: seq<string>, incoming: seq<Octet>): Result<Outcome>
  {
    match ParseScript(d, lines)
    case Err(e) => Err(e)
    case Ok(script) => Exec(script, incoming)
  }

  /** The reference: the tokens of every `<` line, and of every `>` line, in
      script order. */
  function SendOps(script: seq<Line>): seq<Option<Octet>>
  {
    if script == [] then [] else (if script[0].Send? then script[0].ops else []) + SendOps(script[1..])
  }

  function ExpectOps(script: seq<Line>): seq<Option<Octet>>
  {
    if script == [] then [] else (if script[0].Expect? then script[0].ops else []) + ExpectOps(script[1..])
  }

  /** What a run that did not panic means, in terms of the reference. */
  predicate Meaning(script: seq<Line>, incoming: seq<Octet>)
    requires Exec(script, incoming).Ok?
  {
    var o := Exec(script, incoming).value;
    var expected := ExpectOps(script);
    o.sent == SendBytes(SendOps(script))
    && o.consumed == |expected| <= |incoming|
    && (o.success <==> Matches(expected, incoming[..o.consumed]))
  }

  /** A script sends the `<` tokens in order with `_` as 0, reads exactly as
      many bytes as there are `>` tokens, and succeeds exactly when every
      non-wildcard `>` token equals the byte at its position in the stream.
      It panics on reading exactly when the peer sends fewer bytes than the
      `>` lines hold. */
  lemma {:induction false} ExecMeaning(script: seq<Line>, incoming: seq<Octet>)
    ensures Exec(script, incoming).Ok? <==> |ExpectOps(script)| <= |incoming|
    ensures Exec(script, incoming).Ok? ==> Meaning(script, incoming)
    decreases |script|
  {
    if script != [] {
      match script[0]
      case Send(ops) =>
        ExecMeaning(script[1..], incoming);
        if Exec(script, incoming).Ok? {
          SendBytesAppend(ops, SendOps(script[1..]));
        }
      case Expect(ops) =>
        if |incoming| >= |ops| {
          var rest := incoming[|ops|..];
          ExecMeaning(script[1..], rest);
          if Exec(script, incoming).Ok? {
            ExpectStep(script, incoming);
          }
        }
    }
  }

  /** One `>` line reads its bytes, then the rest of the script runs on
      what follows them. */
  lemma ExpectUnfolds(script: seq<Line>, incoming: seq<Octet>)
    requires script != [] && script[0].Expect? && |script[0].ops| <= |incoming|
    requires Exec(script[1..], incoming[|script[0].ops|..]).Ok?
    ensures Exec(script, incoming).Ok?
    ensures Exec(script, incoming).value.sent == Exec(script[1..], incoming[|script[0].ops|..]).value.sent
    ensures Exec(script, incoming).value.consumed
      == |script[0].ops| + Exec(script[1..], incoming[|script[0].ops|..]).value.consumed
    ensures Exec(script, incoming).value.success
      == (Matches(script[0].ops, incoming[..|script[0].ops|]) && Exec(script[1..], incoming[|script[0].ops|..]).value.success)
  {
  }

  /** A leading `>` line contributes its tokens to the expected bytes and
      nothing to the sent ones. */
  lemma ExpectOpsStep(script: seq<Line>)
    requires script != [] && script[0].Expect?
    ensures ExpectOps(script) == script[0].ops + ExpectOps(script[1..])
    ensures SendOps(script) == SendOps(script[1..])
  {
  }

  lemma TakeSplit(s: seq<Octet>, n: nat, c: nat)
    requires n + c <= |s|
    ensures s[..n + c] == s[..n] + s[n..][..c]
  {
  }

  /** Matching two lines' tokens against a stream is matching the first
      against its prefix and the second against what follows. */
  lemma MatchesSplit(ops: seq<Option<Octet>>, tail: seq<Option<Octet>>, incoming: seq<Octet>)
    requires |ops| + |tail| <= |incoming|
    ensures Matches(ops + tail, incoming[..|ops| + |tail|])
      <==> Matches(ops, incoming[..|ops|]) && Matches(tail, incoming[|ops|..][..|tail|])
  {
    TakeSplit(incoming, |ops|, |tail|);
    MatchesAppend(ops, tail, incoming[..|ops|], incoming[|ops|..][..|tail|]);
  }

  lemma ExpectStep(script: seq<Line>, incoming: seq<Octet>)
    requires script != [] && script[0].Expect? && |script[0].ops| <= |incoming|
    requires var rest := incoming[|script[0].ops|..];
      Exec(script[1..], rest).Ok? && Meaning(script[1..], rest)
    ensures Exec(script, incoming).Ok? && Meaning(script, incoming)
  {
    ExpectUnfolds(script, incoming);
    ExpectOpsStep(script);
    MatchesSplit(script[0].ops, ExpectOps(script[1..]), incoming);
  }

  /** The same for a whole run from the script's text. */
  lemma RunMeaning(d: Dialect, lines: seq<string>, incoming: seq<Octet>)
    requires Run(d, lines, incoming).Ok?
    ensures ParseScript(d, lines).Ok? && Meaning(ParseScript(d, lines).value, incoming)
  {
    ExecMeaning(ParseScript(d, lines).value, incoming);
  }

  /** The script parses exactly when every `<` and `>` line does, and
      parsing keeps those lines, in order, with their tokens. */
  lemma {:induction false} ParseScriptLines(d: Dialect, lines: seq<string>)
    ensures ParseScript(d, lines).Ok? <==>
      forall k :: 0 <= k < |lines| && KindOf(lines[k]) != Skipped ==> ParseAll(d, Tokens(lines[k])).Ok?
    decreases |lines|
  {
    if lines != [] {
      ParseScriptLines(d, lines[1..]);
      assert forall k :: 1 <= k < |lines| ==> lines[1..][k - 1] == lines[k];
    }
  }

  /** A line that starts with neither `<` nor `>` changes nothing. */
  lemma SkippedLineIgnored(d: Dialect, line: string, lines: seq<string>, incoming: seq<Octet>)
    requires KindOf(line) == Skipped
    ensures Run(d, [line] + lines, incoming) == Run(d, lines, incoming)
  {
    assert ([line] + lines)[1..] == lines;
  }

  lemma SendBytesAppend(a: seq<Option<Octet>>, b: seq<Option<Octet>>)
    ensures SendBytes(a + b) == SendBytes(a) + SendBytes(b)
  {
  }

  lemma MatchesAppend(a: seq<Option<Octet>>, b: seq<Option<Octet>>, x: seq<Octet>, y: seq<Octet>)
    requires |x| == |a| && |y| == |b|
    ensures Matches(a + b, x + y) <==> Matches(a, x) && Matches(b, y)
  {
    if Matches(a + b, x + y) {
      forall k | 0 <= k < |a| && a[k].Some?
        ensures x[k] == a[k].value
      {
        assert (a + b)[k] == a[k] && (x + y)[k] == x[k];
      }
      forall k | 0 <= k < |b| && b[k].Some?
        ensures y[k] == b[k].value
      {
        assert (a + b)[|a| + k] == b[k] && (x + y)[|a| + k] == y[k];
      }
    }
    if Matches(a, x) && Matches(b, y) {
      forall k | 0 <= k < |a + b| && (a + b)[k].Some?
        ensures (x + y)[k] == (a + b)[k].value
      {
        if k < |a| {
          assert (a + b)[k] == a[k] && (x + y)[k] == x[k];
        } else {
          assert (a + b)[k] == b[k - |a|] && (x + y)[k] == y[k - |a|];
        }
      }
    }
  }

  /** A `>` line of wildcards accepts whatever bytes arrive. */
  lemma WildcardsMatchAnything(n: nat, got: seq<Octet>)
    requires |got| == n
    ensures Matches(seq(n, _ => None), got)
  {
  }
}
