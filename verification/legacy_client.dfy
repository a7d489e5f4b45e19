/** The earlier host library (node/tessel.js): every command is written to
    the port's socket, and replies are handed out purely by length. Each
    command that expects an answer queues `{size, callback}`; each `data`
    event appends to a read buffer and, while the head of the queue is
    satisfied, gives it the next `size` bytes. Nothing in the reply bytes
    themselves is looked at.

    The socket's `cork`/`uncork` are modelled as a count: bytes written
    while it is corked are held back and go out, in order, when the count
    returns to zero. */
module LegacyClient {
  import opened Common
  import E = PortEngine

  // ---------------------------------------------------------------------------
  // The socket

  datatype Sock = Sock(corked: nat, held: seq<Octet>, sent: seq<Octet>)

  /** Nothing is held back while the socket is not corked. */
  predicate SockOk(s: Sock)
  {
    s.corked == 0 ==> s.held == []
  }

  /** Everything written so far, in order. */
  function Written(s: Sock): seq<Octet>
  {
    s.sent + s.held
  }

  function Cork(s: Sock): (r: Sock)
    requires SockOk(s)
    ensures SockOk(r) && r.corked == s.corked + 1 && Written(r) == Written(s) && r.sent == s.sent
  {
    s.(corked := s.corked + 1)
  }

  /** `uncork` undoes one `cork`; the last one sends what was held back. */
  function Uncork(s: Sock): (r: Sock)
    requires SockOk(s)
    ensures SockOk(r) && Written(r) == Written(s)
    ensures r.corked == if s.corked == 0 then 0 else s.corked - 1
    ensures r.corked == 0 ==> r.sent == Written(s)
    ensures r.corked > 0 ==> r.sent == s.sent
  {
    if s.corked == 0 then s
    else if s.corked == 1 then Sock(0, [], s.sent + s.held)
    else s.(corked := s.corked - 1)
  }

  function Write(s: Sock, b: seq<Octet>): (r: Sock)
    requires SockOk(s)
    ensures SockOk(r) && r.corked == s.corked && Written(r) == Written(s) + b
    ensures s.corked > 0 ==> r.sent == s.sent
    ensures s.corked == 0 ==> r.sent == s.sent + b
  {
    if s.corked > 0 then s.(held := s.held + b) else s.(sent := s.sent + b)
  }

  // ---------------------------------------------------------------------------
  // The port

  /** A queued `{size, callback}`; `tag` names the callback, if any. */
  datatype Pending = Pending(size: nat, tag: Option<nat>)

  datatype Legacy = Legacy(sock: Sock, queue: seq<Pending>, buf: seq<Octet>)

  predicate LegacyOk(l: Legacy)
  {
    SockOk(l.sock)
  }

  /** A callback called with the bytes given to it. */
  datatype Delivery = Delivery(tag: nat, data: seq<Octet>)

  /** The loop of the `data` handler: while a reply is queued and enough
      bytes are buffered, the head is removed and given its bytes. */
  function Dispatch(buf: seq<Octet>, q: seq<Pending>): (r: (seq<Octet>, seq<Pending>, seq<Delivery>))
    ensures |r.1| <= |q|
    ensures r.1 == [] || |r.0| < r.1[0].size
    decreases |q|
  {
    if q == [] || |buf| < q[0].size then (buf, q, [])
    else
      var d := if q[0].tag.Some? then [Delivery(q[0].tag.value, buf[..q[0].size])] else [];
      var r := Dispatch(buf[q[0].size..], q[1..]);
      (r.0, r.1, d + r.2)
  }

  /** What is left is what follows the delivered bytes, and the handlers
      still queued are the last ones queued. */
  lemma {:induction false} DispatchConsumes(buf: seq<Octet>, q: seq<Pending>)
    ensures var r := Dispatch(buf, q);
      && |r.0| <= |buf| && buf[|buf| - |r.0|..] == r.0
      && r.1 == q[|q| - |Dispatch(buf, q).1|..]
    decreases |q|
  {
    if q == [] || |buf| < q[0].size {
      assert buf[|buf| - |buf|..] == buf && q[|q| - |q|..] == q;
    } else {
      var n := q[0].size;
      var r := Dispatch(buf[n..], q[1..]);
      DispatchConsumes(buf[n..], q[1..]);
      assert buf[n..][|buf[n..]| - |r.0|..] == buf[|buf| - |r.0|..];
      assert q[1..][|q[1..]| - |r.1|..] == q[|q| - |r.1|..];
    }
  }

  /** A `data` event. */
  function Receive(l: Legacy, d: seq<Octet>): (r: (Legacy, seq<Delivery>))
    ensures r.0.sock == l.sock
  {
    var (buf, q, out) := Dispatch(l.buf + d, l.queue);
    (l.(buf := buf, queue := q), out)
  }

  /** How the bytes arrive does not matter: whatever the first part leaves
      buffered and queued, the second part continues from there exactly as
      if both had come in one event. */
  lemma {:induction false} DispatchAppend(buf: seq<Octet>, q: seq<Pending>, more: seq<Octet>)
    ensures var r := Dispatch(buf, q);
      var s := Dispatch(r.0 + more, r.1);
      Dispatch(buf + more, q) == (s.0, s.1, r.2 + s.2)
    decreases |q|
  {
    if q == [] || |buf| < q[0].size {
      assert Dispatch(buf, q) == (buf, q, []);
      EmptyPrefix(Dispatch(buf + more, q).2);
    } else {
      var n := q[0].size;
      var d := if q[0].tag.Some? then [Delivery(q[0].tag.value, buf[..n])] else [];
      var r1 := Dispatch(buf[n..], q[1..]);
      var s := Dispatch(r1.0 + more, r1.1);
      DispatchAppend(buf[n..], q[1..], more);
      SliceAppend(buf, more, n);
      var t := Dispatch(buf[n..] + more, q[1..]);
      DispatchTakes(buf, q);
      DispatchTakes(buf + more, q);
      AppendAssoc(d, r1.2, s.2);
    }
  }

  /** The first handler takes its bytes when they are all there. */
  lemma DispatchTakes(buf: seq<Octet>, q: seq<Pending>)
    requires q != [] && q[0].size <= |buf|
    ensures var n := q[0].size;
      var d := if q[0].tag.Some? then [Delivery(q[0].tag.value, buf[..n])] else [];
      var r := Dispatch(buf[n..], q[1..]);
      Dispatch(buf, q) == (r.0, r.1, d + r.2)
  {
  }

  /** Replies that exactly match the queue, in order and each of its
      handler's size, go to those handlers in order. */
  function Concat(chunks: seq<seq<Octet>>): seq<Octet>
  {
    if chunks == [] then [] else chunks[0] + Concat(chunks[1..])
  }

  function Expected(chunks: seq<seq<Octet>>, q: seq<Pending>): (out: seq<Delivery>)
    requires |chunks| <= |q|
    decreases |chunks|
  {
    if chunks == [] then []
    else (if q[0].tag.Some? then [Delivery(q[0].tag.value, chunks[0])] else []) + Expected(chunks[1..], q[1..])
  }

  lemma {:induction false} DispatchInOrder(chunks: seq<seq<Octet>>, q: seq<Pending>)
    requires |chunks| <= |q| && forall i :: 0 <= i < |chunks| ==> |chunks[i]| == q[i].size
    requires |chunks| == |q| || q[|chunks|].size > 0
    ensures Dispatch(Concat(chunks), q) == ([], q[|chunks|..], Expected(chunks, q))
    decreases |chunks|
  {
    if chunks == [] {
      assert q[0..] == q;
    } else {
      var buf := Concat(chunks);
      var n := q[0].size;
      assert buf[..n] == chunks[0] && buf[n..] == Concat(chunks[1..]);
      DispatchInOrder(chunks[1..], q[1..]);
      assert q[1..][|chunks| - 1..] == q[|chunks|..];
    }
  }

  // ---------------------------------------------------------------------------
  // Commands

  /** The bytes `sync(cb)` writes. */
  function SyncBytes(cb: Option<nat>): seq<Octet>
  {
    if cb.Some? then [E.Code(E.Echo), 1, 0x88] else []
  }

  /** `sync(cb)`: with a callback, an ECHO of 0x88 and a one-byte reply. */
  function Sync(l: Legacy, cb: Option<nat>): (r: Legacy)
    requires LegacyOk(l)
    ensures LegacyOk(r) && r.sock.corked == l.sock.corked && r.buf == l.buf
    ensures Written(r.sock) == Written(l.sock) + SyncBytes(cb)
    ensures cb.None? ==> r == l
    ensures cb.Some? ==> r.queue == l.queue + [Pending(1, cb)]
  {
    if cb.None? then l
    else l.(sock := Write(l.sock, [E.Code(E.Echo), 1, 0x88]), queue := l.queue + [Pending(1, cb)])
  }

  /** `_simple_cmd(buf, cb)`: the command and a sync, sent together. */
  function SimpleCmd(l: Legacy, cmd: seq<Octet>, cb: Option<nat>): (r: Legacy)
    requires LegacyOk(l)
    ensures LegacyOk(r) && r.buf == l.buf
    ensures r.sock.corked == l.sock.corked
    ensures Written(r.sock) == Written(l.sock) + cmd + SyncBytes(cb)
    ensures l.sock.corked == 0 ==> r.sock.sent == Written(r.sock)
    ensures l.sock.corked > 0 ==> r.sock.sent == l.sock.sent
    ensures r.queue == if cb.Some? then l.queue + [Pending(1, cb)] else l.queue
  {
    var s := Sync(l.(sock := Write(Cork(l.sock), cmd)), cb);
    s.(sock := Uncork(s.sock))
  }

  /** A call that may throw: the state it leaves and the error, if any. */
  datatype Outcome = Outcome(l: Legacy, err: Option<string>)

  /** Lengths `_tx`, `_rx` and `_txrx` accept. */
  predicate LegacyLength(n: nat)
  {
    0 < n <= 255
  }

  /** `_tx(buf, cb)`: TX with the bytes, then a sync, sent together. */
  function Tx(l: Legacy, data: seq<Octet>, cb: Option<nat>): (r: Outcome)
    requires LegacyOk(l)
    ensures LegacyOk(r.l)
    ensures r.err.Some? <==> !LegacyLength(|data|)
    ensures r.err.Some? ==> r.l == l
    ensures r.err.None? ==> r.l == SimpleCmd(l, [E.Code(E.Tx), |data| as Octet] + data, cb)
  {
    if |data| == 0 then Outcome(l, Some("Length must be non-zero"))
    else if |data| > 255 then Outcome(l, Some("Buffer size must be less than 255"))
    else
      // cork, the header, the bytes, sync, uncork: the same writes as one
      // `_simple_cmd` of header and bytes
      Outcome(SimpleCmd(l, [E.Code(E.Tx), |data| as Octet] + data, cb), None)
  }

  /** `_rx(len, cb)`: RX and a handler for `len` bytes. */
  function Rx(l: Legacy, len: nat, tag: Option<nat>): (r: Outcome)
    requires LegacyOk(l)
    ensures LegacyOk(r.l)
    ensures r.err.Some? <==> !LegacyLength(len)
    ensures r.err.Some? ==> r.l == l
    ensures r.err.None? ==> (Written(r.l.sock) == Written(l.sock) + [E.Code(E.Rx), len as Octet]
      && r.l.queue == l.queue + [Pending(len, tag)] && r.l.sock.corked == l.sock.corked)
  {
    if len == 0 then Outcome(l, Some("Length must be non-zero"))
    else if len > 255 then Outcome(l, Some("Buffer size must be less than 255"))
    else Outcome(l.(sock := Write(l.sock, [E.Code(E.Rx), len as Octet]), queue := l.queue + [Pending(len, tag)]), None)
  }

  /** `_status_cmd(buf, cb)`: the command and a handler for no bytes. */
  function StatusCmd(l: Legacy, cmd: seq<Octet>, tag: Option<nat>): (r: Legacy)
    requires LegacyOk(l)
    ensures LegacyOk(r) && Written(r.sock) == Written(l.sock) + cmd && r.queue == l.queue + [Pending(0, tag)]
  {
    l.(sock := Write(l.sock, cmd), queue := l.queue + [Pending(0, tag)])
  }

  /** `_txrx(buf, cb)` as written: after the header and the bytes are
      written inside a cork, `buf.length()` calls a number and throws a
      TypeError; no handler is queued and the cork is never undone. */
  function TxRxAsWritten(l: Legacy, data: seq<Octet>): (r: Outcome)
    requires LegacyOk(l)
    ensures LegacyOk(r.l)
  {
    if |data| == 0 then Outcome(l, Some("Length must be non-zero"))
    else if |data| > 255 then Outcome(l, Some("Buffer size must be less than 255"))
    else
      var s := Write(Write(Cork(l.sock), [E.Code(E.TxRx), |data| as Octet]), data);
      Outcome(l.(sock := s), Some("TypeError: buf.length is not a function"))
  }

  /** `_txrx` as intended: a handler for as many bytes as were sent. */
  function TxRx(l: Legacy, data: seq<Octet>, tag: Option<nat>): (r: Outcome)
    requires LegacyOk(l)
    ensures LegacyOk(r.l)
    ensures r.err.Some? <==> !LegacyLength(|data|)
    ensures r.err.Some? ==> r.l == l
    ensures r.err.None? ==> (Written(r.l.sock) == Written(l.sock) + [E.Code(E.TxRx), |data| as Octet] + data
      && r.l.queue == l.queue + [Pending(|data|, tag)] && r.l.sock.corked == l.sock.corked
      && (l.sock.corked == 0 ==> r.l.sock.sent == Written(r.l.sock)))
  {
    if |data| == 0 then Outcome(l, Some("Length must be non-zero"))
    else if |data| > 255 then Outcome(l, Some("Buffer size must be less than 255"))
    else
      var s := Write(Write(Cork(l.sock), [E.Code(E.TxRx), |data| as Octet]), data);
      Outcome(l.(sock := Uncork(s), queue := l.queue + [Pending(|data|, tag)]), None)
  }

  /** As written, every accepted buffer makes `_txrx` throw: its reply has
      no handler, and the socket stays corked, so neither this command nor
      any later one is sent. */
  lemma TxRxThrows(l: Legacy, data: seq<Octet>)
    requires LegacyOk(l) && l.sock.corked == 0 && LegacyLength(|data|)
    ensures var r := TxRxAsWritten(l, data);
      && r.err.Some? && r.l.queue == l.queue
      && r.l.sock.corked == 1 && r.l.sock.sent == l.sock.sent
      && forall cmd, cb :: SimpleCmd(r.l, cmd, cb).sock.sent == l.sock.sent
  {
  }

  /** As intended, the command goes out and its reply reaches the callback. */
  lemma TxRxAnswered(l: Legacy, data: seq<Octet>, tag: nat, reply: seq<Octet>)
    requires LegacyOk(l) && l.sock.corked == 0 && l.queue == [] && l.buf == [] && LegacyLength(|data|)
    requires |reply| == |data|
    ensures var r := TxRx(l, data, Some(tag));
      && r.err.None? && r.l.sock.sent == l.sock.sent + [E.Code(E.TxRx), |data| as Octet] + data
      && Receive(r.l, reply).1 == [Delivery(tag, reply)]
  {
    var r := TxRx(l, data, Some(tag));
    assert r.l.buf + reply == reply;
    assert reply[..|data|] == reply && reply[|data|..] == [];
    var q := [Pending(|data|, Some(tag))];
    assert q[1..] == [];
    assert Dispatch(reply[|data|..], q[1..]) == ([], [], []);
    assert [Delivery(tag, reply[..|data|])] + [] == [Delivery(tag, reply)];
    assert Dispatch(reply, q) == ([], [], [Delivery(tag, reply)]);
  }

  /** The legacy dispatcher predates the DATA byte the firmware now puts in
      front of a reply: the sync callback is given that byte, and the echoed
      0x88 stays buffered for whichever handler comes next. */
  lemma SyncReplyMisread(l: Legacy, tag: nat)
    requires LegacyOk(l) && l.queue == [] && l.buf == []
    ensures var r := Receive(Sync(l, Some(tag)), [E.ReplyData, 0x88]);
      r.1 == [Delivery(tag, [E.ReplyData])] && r.0.buf == [0x88] && r.0.queue == []
  {
    var s := Sync(l, Some(tag));
    var bytes: seq<Octet> := [E.ReplyData, 0x88];
    assert s.queue == [Pending(1, Some(tag))];
    EmptyPrefix(bytes);
    DispatchOne(bytes, Pending(1, Some(tag)));
    assert bytes[..1] == [E.ReplyData] && bytes[1..] == [0x88];
  }

  /** One handler with enough bytes buffered takes its bytes; the rest stays
      buffered. */
  lemma DispatchOne(buf: seq<Octet>, p: Pending)
    requires p.tag.Some? && p.size <= |buf|
    ensures Dispatch(buf, [p]) == (buf[p.size..], [], [Delivery(p.tag.value, buf[..p.size])])
  {
    assert [p][1..] == [];
    assert Dispatch(buf[p.size..], []) == (buf[p.size..], [], []);
    assert [Delivery(p.tag.value, buf[..p.size])] + [] == [Delivery(p.tag.value, buf[..p.size])];
  }

  // ---------------------------------------------------------------------------
  // Pins and I2C

  /** `high`, `low` and `toggle`. */
  function PinCmd(l: Legacy, cmd: E.Cmd, pin: nat, cb: Option<nat>): (r: Legacy)
    requires LegacyOk(l) && pin < 8 && (cmd == E.GpioHigh || cmd == E.GpioLow || cmd == E.GpioToggle)
    ensures LegacyOk(r) && Written(r.sock) == Written(l.sock) + [E.Code(cmd), pin as Octet] + SyncBytes(cb)
  {
    SimpleCmd(l, [E.Code(cmd), pin as Octet], cb)
  }

  /** `output(initialValue, cb)`: `high` when truthy, else `low`. */
  function Output(l: Legacy, pin: nat, initial: bool, cb: Option<nat>): (r: Legacy)
    requires LegacyOk(l) && pin < 8
    ensures LegacyOk(r)
    ensures Written(r.sock) == Written(l.sock) + [E.Code(if initial then E.GpioHigh else E.GpioLow), pin as Octet] + SyncBytes(cb)
  {
    if initial then PinCmd(l, E.GpioHigh, pin, cb) else PinCmd(l, E.GpioLow, pin, cb)
  }

  /** `Port.I2C(addr)`: ENABLE_I2C with baud value 0. */
  function I2cEnable(l: Legacy): (r: Legacy)
    requires LegacyOk(l)
    ensures LegacyOk(r) && Written(r.sock) == Written(l.sock) + [E.Code(E.EnableI2c), 0] && r.queue == l.queue
  {
    SimpleCmd(l, [E.Code(E.EnableI2c), 0], None)
  }

  function AddressByte(addr: nat, read: bool): Octet
  {
    Wrap(2 * addr + (if read then 1 else 0))
  }

  /** `I2C.send(data, cb)`: START, TX, STOP and a sync, corked together; an
      unacceptable length throws from `_tx` with START already written and
      the outer cork in place. */
  function I2cSend(l: Legacy, addr: nat, data: seq<Octet>, cb: Option<nat>): (r: Outcome)
    requires LegacyOk(l)
    ensures LegacyOk(r.l)
    ensures r.err.Some? <==> !LegacyLength(|data|)
    ensures r.err.None? ==> (Written(r.l.sock) == Written(l.sock)
      + [E.Code(E.Start), AddressByte(addr, false), E.Code(E.Tx), |data| as Octet] + data + [E.Code(E.Stop)]
      + SyncBytes(cb))
    ensures r.err.None? ==> r.l.sock.corked == l.sock.corked
    ensures r.err.Some? ==> r.l.sock.corked == l.sock.corked + 1
  {
    var l1 := l.(sock := Cork(l.sock));
    var l2 := SimpleCmd(l1, [E.Code(E.Start), AddressByte(addr, false)], None);
    var t := Tx(l2, data, None);
    if t.err.Some? then t
    else
      var l3 := SimpleCmd(t.l, [E.Code(E.Stop)], cb);
      Outcome(l3.(sock := Uncork(l3.sock)), None)
  }

  /** `I2C.read(length, cb)`: START for reading, RX with the callback,
      STOP, corked together. */
  function I2cRead(l: Legacy, addr: nat, len: nat, tag: Option<nat>): (r: Outcome)
    requires LegacyOk(l)
    ensures LegacyOk(r.l)
    ensures r.err.Some? <==> !LegacyLength(len)
    ensures r.err.None? ==> (Written(r.l.sock) == Written(l.sock)
      + [E.Code(E.Start), AddressByte(addr, true), E.Code(E.Rx), len as Octet, E.Code(E.Stop)]
      && r.l.queue == l.queue + [Pending(len, tag)] && r.l.sock.corked == l.sock.corked)
  {
    var l1 := l.(sock := Cork(l.sock));
    var l2 := SimpleCmd(l1, [E.Code(E.Start), AddressByte(addr, true)], None);
    var t := Rx(l2, len, tag);
    if t.err.Some? then t
    else
      var l3 := SimpleCmd(t.l, [E.Code(E.Stop)], None);
      Outcome(l3.(sock := Uncork(l3.sock)), None)
  }

  /** `I2C.transfer(txbuf, rxlen, cb)`: the write phase when there is
      something to write, then the read phase. */
  function I2cTransfer(l: Legacy, addr: nat, txbuf: seq<Octet>, len: nat, tag: Option<nat>): (r: Outcome)
    requires LegacyOk(l)
    ensures LegacyOk(r.l)
    ensures r.err.None? <==> (txbuf == [] || LegacyLength(|txbuf|)) && LegacyLength(len)
    ensures r.err.None? ==> r.l.queue == l.queue + [Pending(len, tag)] && r.l.sock.corked == l.sock.corked
  {
    var l1 := l.(sock := Cork(l.sock));
    var w := if txbuf == [] then Outcome(l1, None)
             else Tx(SimpleCmd(l1, [E.Code(E.Start), AddressByte(addr, false)], None), txbuf, None);
    if w.err.Some? then w
    else
      var l2 := SimpleCmd(w.l, [E.Code(E.Start), AddressByte(addr, true)], None);
      var t := Rx(l2, len, tag);
      if t.err.Some? then t
      else
        var l3 := SimpleCmd(t.l, [E.Code(E.Stop)], None);
        Outcome(l3.(sock := Uncork(l3.sock)), None)
  }

  /** SPI and UART objects are not implemented: creating one throws. */
  function SpiOrUart(l: Legacy): (r: Outcome)
    ensures r.err == Some("Unimplemented") && r.l == l
  {
    Outcome(l, Some("Unimplemented"))
  }
}
