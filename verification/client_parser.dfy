/** The host side of a module port (node/tessel-export.js, class `Port`):
    the reply-stream parser that runs whenever the port's socket becomes
    readable, and the FIFO reply queue it serves. Every command that expects
    an answer pushes an entry `{size, callback}` on the queue; the firmware's
    replies come back in the same order, interleaved with asynchronous bytes
    (pin changes, received UART data) that need no entry.

    A callback is identified by a tag; what the callbacks then do is not part
    of the model. */
module PortClient {
  import opened Common
  import E = PortEngine

  /** REPLY.MIN_ASYNC: bytes from here up need no queue entry. */
  const MinAsync: Octet := 0xA0

  /** INT_MODES, with the value each mode has in a GPIO_INT command. */
  datatype IntMode = Rise | Fall | Change | High | Low

  function IntModeCode(m: IntMode): (r: Octet)
    ensures 1 <= r <= 5
  {
    match m
    case Rise => 1
    case Fall => 2
    case Change => 3
    case High => 4
    case Low => 5
  }

  /** A queued reply handler: `size` data bytes are expected (0 for a bare
      HIGH/LOW status), `tag` names the callback. */
  datatype Entry = Entry(size: nat, tag: nat)

  /** The parser's state: `buf` is `replyBuf`, `pending` the count of tasks
      holding the socket open, `modes[i]` the `interruptMode` of pin `i` and
      `hasUart` whether a UART object exists. */
  datatype Client = Client(buf: seq<Octet>, queue: seq<Entry>, pending: nat,
                           modes: seq<Option<IntMode>>, hasUart: bool)

  predicate ClientOk(c: Client)
  {
    |c.modes| == 8
  }

  /** What the parser makes happen: a callback receiving data or a status
      byte, bytes pushed into the UART stream, events emitted on a pin or on
      the port, and a command written to the socket. */
  datatype Event =
    | Replied(tag: nat, data: seq<Octet>)
    | Status(tag: nat, status: Octet)
    | UartRx(data: seq<Octet>)
    | LevelFired(pin: nat, mode: IntMode)
    | PinChanged(pin: nat, high: bool)
    | PinEdge(pin: nat, rising: bool)
    | AsyncEvent(code: Octet)
    | Wrote(bytes: seq<Octet>)

  datatype ParseError = NoCommandPending(byte: Octet) | UnexpectedData | UnexpectedReply(byte: Octet)

  /** One pass of the parser's loop: it consumes a prefix of the buffer
      (`Next`), stops to wait for more bytes (`Wait`) or throws (`Threw`). */
  datatype Step = Next(c: Client, out: seq<Event>) | Wait | Threw(err: ParseError)

  /** `ref()` and `unref()` on the count of pending tasks. */
  function Ref(n: nat): nat { n + 1 }

  function Unref(n: nat): (r: nat)
    ensures r == if n == 0 then 0 else n - 1
  {
    if n > 0 then n - 1 else 0
  }

  /** `enqueue`: a new reply handler goes to the back and holds the socket. */
  function Enqueue(c: Client, e: Entry): (r: Client)
    ensures r.queue == c.queue + [e] && r.pending == c.pending + 1
    ensures r.buf == c.buf && r.modes == c.modes && r.hasUart == c.hasUart
  {
    c.(queue := c.queue + [e], pending := Ref(c.pending))
  }

  /** `dequeue`: the oldest handler leaves the queue and releases the socket. */
  function Dequeue(c: Client): (r: Client)
    requires c.queue != []
    ensures r.queue == c.queue[1..] && r.pending == Unref(c.pending)
    ensures r.buf == c.buf && r.modes == c.modes && r.hasUart == c.hasUart
  {
    c.(queue := c.queue[1..], pending := Unref(c.pending))
  }

  /** The pin and the value bit of a pin-change byte `0xC0..0xCF`:
      `(byte - 0xC0) & ~8` and `(byte >> 3) & 1`. */
  function ChangedPin(b: Octet): (pin: nat)
    requires E.ReplyPinChange <= b < E.ReplyUartRx
    ensures pin < 8
    ensures b as nat == E.ReplyPinChange as nat + pin + (if ChangedHigh(b) then 8 else 0)
  {
    ((b - E.ReplyPinChange) % 8) as nat
  }

  predicate ChangedHigh(b: Octet)
  {
    (b / 8) % 2 == 1
  }

  /** A byte below MIN_ASYNC that is neither DATA nor HIGH/LOW. */
  predicate OtherReply(b: Octet)
  {
    b < MinAsync && b != E.ReplyData && b != E.ReplyHigh && b != E.ReplyLow
  }

  /** One pass of the loop in the `readable` handler
      (node/tessel-export.js:354-470), with a byte that no branch accepts
      rejected as an unexpected reply; `LoopBody` is the pass as written. */
  function ParseStep(c: Client): (r: Step)
    requires ClientOk(c) && c.buf != []
    ensures r.Next? ==> ClientOk(r.c) && |r.c.buf| < |c.buf| && c.buf[|c.buf| - |r.c.buf|..] == r.c.buf
    ensures r.Next? ==> r.c.hasUart == c.hasUart
  {
    var b := c.buf[0];
    if b == E.ReplyUartRx then
      if |c.buf| >= 2 && |c.buf| >= 2 + c.buf[1] as int then
        var n := c.buf[1] as int;
        Next(c.(buf := c.buf[2 + n..]), if c.hasUart then [UartRx(c.buf[2..2 + n])] else [])
      else Wait
    else if b >= MinAsync then
      if E.ReplyPinChange <= b < E.ReplyUartRx then
        var pin := ChangedPin(b);
        var high := ChangedHigh(b);
        var m := c.modes[pin];
        if m == Some(High) || m == Some(Low) then
          // the level mode fires once: the mode is cleared (which sends
          // GPIO_INT with mode 0) and the socket released
          Next(c.(buf := c.buf[1..], modes := c.modes[pin := None], pending := Unref(c.pending)),
               [LevelFired(pin, m.value), Wrote([E.Code(E.GpioInt), pin as Octet])])
        else Next(c.(buf := c.buf[1..]), [PinChanged(pin, high), PinEdge(pin, high)])
      else Next(c.(buf := c.buf[1..]), [AsyncEvent(b)])
    else if c.queue == [] then Threw(NoCommandPending(b))
    else if b == E.ReplyData then
      var e := c.queue[0];
      if e.size == 0 then Threw(UnexpectedData)
      else if |c.buf| >= 1 + e.size then
        Next(Dequeue(c).(buf := c.buf[1 + e.size..]), [Replied(e.tag, c.buf[1..1 + e.size])])
      else Wait
    else if b == E.ReplyHigh || b == E.ReplyLow then
      Next(Dequeue(c).(buf := c.buf[1..]), [Status(c.queue[0].tag, b)])
    else Threw(UnexpectedReply(b))
  }

  /** The pass as written: a byte below MIN_ASYNC other than DATA, HIGH and
      LOW, with a handler queued, falls through every branch and the pass
      ends with nothing consumed. */
  function LoopBody(c: Client): (r: Step)
    requires ClientOk(c) && c.buf != []
    ensures OtherReply(c.buf[0]) && c.queue != [] ==> r == Next(c, [])
    ensures !(OtherReply(c.buf[0]) && c.queue != []) ==> r == ParseStep(c)
  {
    if OtherReply(c.buf[0]) && c.queue != [] then Next(c, []) else ParseStep(c)
  }

  /** How a run of the loop ends: the buffer is used up or waits for more
      bytes, or an exception is thrown. `out` is everything that happened
      before. */
  datatype Outcome = Idle(c: Client, out: seq<Event>) | Failed(err: ParseError, out: seq<Event>)

  /** The whole `readable` handler on the bytes buffered so far: passes run
      while the buffer is not empty. */
  function Parse(c: Client): (r: Outcome)
    requires ClientOk(c)
    ensures r.Idle? ==> ClientOk(r.c) && r.c.hasUart == c.hasUart
    decreases |c.buf|
  {
    if c.buf == [] then Idle(c, [])
    else
      match ParseStep(c)
      case Wait => Idle(c, [])
      case Threw(e) => Failed(e, [])
      case Next(c1, o) =>
        match Parse(c1)
        case Idle(c2, o2) => Idle(c2, o + o2)
        case Failed(e, o2) => Failed(e, o + o2)
  }

  /** `readable`: the bytes read are appended to the buffer, then parsed. */
  function Receive(c: Client, bytes: seq<Octet>): (r: Outcome)
    requires ClientOk(c)
  {
    Parse(c.(buf := c.buf + bytes))
  }

  // ---------------------------------------------------------------------------
  // The replies

  /** A DATA reply for a handler expecting `size > 0` bytes hands exactly the
      next `size` bytes to that handler and removes it; bytes after the reply
      stay buffered. */
  lemma DataReplyDelivers(c: Client, data: seq<Octet>, more: seq<Octet>)
    requires ClientOk(c) && c.queue != [] && c.queue[0].size == |data| > 0
    requires c.buf == [E.ReplyData] + data + more
    ensures ParseStep(c) == Next(Dequeue(c).(buf := more), [Replied(c.queue[0].tag, data)])
  {
    assert c.buf[1..1 + |data|] == data;
    assert c.buf[1 + |data|..] == more;
  }

  /** A DATA reply whose bytes have not all arrived leaves the buffer and
      the queue as they are. */
  lemma DataReplyWaits(c: Client)
    requires ClientOk(c) && c.buf != [] && c.buf[0] == E.ReplyData
    requires c.queue != [] && c.queue[0].size > 0 && |c.buf| < 1 + c.queue[0].size
    ensures ParseStep(c) == Wait && Parse(c) == Idle(c, [])
  {
  }

  /** A status byte answers the oldest handler, whatever size it expects. */
  lemma StatusReplyDelivers(c: Client, high: bool)
    requires ClientOk(c) && c.queue != [] && c.buf != []
    requires c.buf[0] == if high then E.ReplyHigh else E.ReplyLow
    ensures ParseStep(c) == Next(Dequeue(c).(buf := c.buf[1..]), [Status(c.queue[0].tag, c.buf[0])])
  {
  }

  /** Errors: a reply byte with nothing queued, and a DATA reply for a handler
      that expects no data. */
  lemma ReplyWithoutHandler(c: Client)
    requires ClientOk(c) && c.buf != [] && c.buf[0] < MinAsync && c.queue == []
    ensures ParseStep(c) == Threw(NoCommandPending(c.buf[0]))
    ensures Parse(c) == Failed(NoCommandPending(c.buf[0]), [])
  {
  }

  lemma DataForStatusHandler(c: Client)
    requires ClientOk(c) && c.buf != [] && c.buf[0] == E.ReplyData && c.queue != [] && c.queue[0].size == 0
    ensures ParseStep(c) == Threw(UnexpectedData)
  {
  }

  /** Bytes at or above MIN_ASYNC never touch the queue. */
  lemma AsyncKeepsQueue(c: Client)
    requires ClientOk(c) && c.buf != [] && c.buf[0] >= MinAsync
    ensures ParseStep(c).Wait? || ParseStep(c).Next?
    ensures ParseStep(c).Next? ==> ParseStep(c).c.queue == c.queue
  {
  }

  // ---------------------------------------------------------------------------
  // Whole reply streams

  /** A reply as the firmware sends it for one queued handler: DATA with the
      bytes, or a status byte. */
  datatype Reply = DataReply(data: seq<Octet>) | LevelReply(high: bool)

  function ReplyBytes(r: Reply): (b: seq<Octet>)
    ensures |b| > 0
  {
    match r
    case DataReply(data) => [E.ReplyData] + data
    case LevelReply(high) => [if high then E.ReplyHigh else E.ReplyLow]
  }

  function StreamBytes(rs: seq<Reply>): seq<Octet>
  {
    if rs == [] then [] else ReplyBytes(rs[0]) + StreamBytes(rs[1..])
  }

  /** Replies fit their handlers: a data reply has exactly the non-zero
      number of bytes its handler expects. */
  predicate Answers(rs: seq<Reply>, q: seq<Entry>)
  {
    |rs| <= |q| &&
    forall i :: 0 <= i < |rs| ==> (rs[i].DataReply? ==> |rs[i].data| == q[i].size > 0)
  }

  /** What each handler receives. */
  function Deliveries(rs: seq<Reply>, q: seq<Entry>): (out: seq<Event>)
    requires |rs| <= |q|
    ensures |out| == |rs|
  {
    seq(|rs|, i requires 0 <= i < |rs| =>
      match rs[i]
      case DataReply(data) => Replied(q[i].tag, data)
      case LevelReply(high) => Status(q[i].tag, if high then E.ReplyHigh else E.ReplyLow))
  }

  /** The reply stream of a run of commands is taken apart in order: every
      handler gets exactly its own reply, the answered handlers leave the
      queue and the buffer is used up. */
  lemma {:induction false} ParseReplies(c: Client, rs: seq<Reply>)
    requires ClientOk(c) && c.buf == StreamBytes(rs) && Answers(rs, c.queue)
    ensures Parse(c).Idle? && Parse(c).out == Deliveries(rs, c.queue)
    ensures Parse(c).c.buf == [] && Parse(c).c.queue == c.queue[|rs|..]
    ensures Parse(c).c.modes == c.modes
    decreases |rs|
  {
    if rs != [] {
      var c1 := Dequeue(c).(buf := StreamBytes(rs[1..]));
      AnswersTail(rs, c.queue);
      var d := Deliveries(rs, c.queue);
      ReplyStep(c, rs[0], StreamBytes(rs[1..]));
      ParseReplies(c1, rs[1..]);
      ParseAfterNext(c, c1, [d[0]]);
      DeliveriesTail(rs, c.queue);
      assert c1.queue[|rs| - 1..] == c.queue[|rs|..];
    }
  }

  /** The replies after the first fit the handlers after the first. */
  lemma AnswersTail(rs: seq<Reply>, q: seq<Entry>)
    requires rs != [] && Answers(rs, q)
    ensures Answers(rs[1..], q[1..])
  {
    forall i | 0 <= i < |rs| - 1
      ensures rs[1..][i].DataReply? ==> |rs[1..][i].data| == q[1..][i].size > 0
    {
      assert rs[1..][i] == rs[i + 1] && q[1..][i] == q[i + 1];
    }
  }

  lemma DeliveriesTail(rs: seq<Reply>, q: seq<Entry>)
    requires rs != [] && |rs| <= |q|
    ensures Deliveries(rs, q) == [Deliveries(rs, q)[0]] + Deliveries(rs[1..], q[1..])
  {
    var d := Deliveries(rs, q);
    var t := Deliveries(rs[1..], q[1..]);
    forall i | 1 <= i < |rs|
      ensures d[i] == t[i - 1]
    {
      assert rs[1..][i - 1] == rs[i] && q[1..][i - 1] == q[i];
    }
  }

  /** One reply at the head of the buffer answers the oldest handler. */
  lemma ReplyStep(c: Client, r: Reply, more: seq<Octet>)
    requires ClientOk(c) && c.buf == ReplyBytes(r) + more && c.queue != []
    requires r.DataReply? ==> |r.data| == c.queue[0].size > 0
    ensures ParseStep(c) == Next(Dequeue(c).(buf := more), [Deliveries([r], c.queue)[0]])
  {
    match r
    case DataReply(data) =>
      DataReplyDelivers(c, data, more);
    case LevelReply(high) =>
      assert c.buf[1..] == more;
      StatusReplyDelivers(c, high);
  }

  /** A pass that consumes bytes is followed by the rest of the run. */
  lemma ParseAfterNext(c: Client, c1: Client, o: seq<Event>)
    requires ClientOk(c) && c.buf != [] && ParseStep(c) == Next(c1, o)
    ensures Parse(c1).Idle? ==> Parse(c) == Idle(Parse(c1).c, o + Parse(c1).out)
    ensures Parse(c1).Failed? ==> Parse(c) == Failed(Parse(c1).err, o + Parse(c1).out)
  {
  }

  // ---------------------------------------------------------------------------
  // The flaw in the loop as written

  /** Running `n` passes of the loop as written. */
  function Passes(c: Client, n: nat): (r: Client)
    requires ClientOk(c)
    ensures ClientOk(r)
    decreases n
  {
    if n == 0 || c.buf == [] then c
    else
      match LoopBody(c)
      case Next(c1, _) => Passes(c1, n - 1)
      case _ => c
  }

  /** With a handler queued, a byte such as ACK (0x80) at the head of the
      buffer is consumed by no branch, so every later pass sees the same state:
      the loop never ends and the process hangs. */
  lemma {:induction false} OtherReplyHangs(c: Client, n: nat)
    requires ClientOk(c) && c.buf != [] && OtherReply(c.buf[0]) && c.queue != []
    ensures Passes(c, n) == c && LoopBody(c) == Next(c, [])
  {
    if n > 0 {
      OtherReplyHangs(c, n - 1);
    }
  }

  /** The intended pass rejects it, as it rejects a reply byte that arrives
      with nothing queued. */
  lemma OtherReplyRejected(c: Client)
    requires ClientOk(c) && c.buf != [] && OtherReply(c.buf[0])
    ensures ParseStep(c).Threw?
    ensures Parse(c).Failed? && Parse(c).out == []
  {
  }
}
