/** The UART receive ring of a module port (`uart_buf` in firmware/port.c):
    `rx` is the storage (its length is UART_RX_SIZE), `head` the next slot to
    write, `tail` the oldest unread byte and `count` (`buf_len`) the number of
    unread bytes. The ring is read only through `Contents`, the unread bytes
    oldest first. */
module PortRing {
  import opened Common

  datatype Ring = Ring(rx: seq<Octet>, head: nat, tail: nat, count: nat)

  /** The slot `i` places after slot `t` in a ring of `n` slots. */
  function At(t: nat, i: nat, n: nat): nat
  {
    if t + i < n then t + i else t + i - n
  }

  /** `head` is always `count` slots after `tail`. */
  predicate RingOk(r: Ring)
  {
    0 < |r.rx| && r.tail < |r.rx| && r.count <= |r.rx| && r.head == At(r.tail, r.count, |r.rx|)
  }

  /** The unread bytes, oldest first. */
  function Contents(r: Ring): (s: seq<Octet>)
    requires RingOk(r)
    ensures |s| == r.count
  {
    seq(r.count, i requires 0 <= i < r.count => r.rx[At(r.tail, i, |r.rx|)])
  }

  /** An empty ring of `n` slots, as after `CMD_ENABLE_UART`. */
  function Reset(r: Ring): (e: Ring)
    requires 0 < |r.rx|
    ensures RingOk(e) && Contents(e) == [] && |e.rx| == |r.rx|
  {
    r.(head := 0, tail := 0, count := 0)
  }

  /** `(i + 1) % n`, the C advance of an index, is the next slot. */
  lemma ModNext(i: nat, n: nat)
    requires i < n
    ensures (i + 1) % n == if i + 1 == n then 0 else i + 1
  {
    if i + 1 == n {
      assert (i + 1) % n == n % n == 0;
    } else {
      assert (i + 1) / n == 0;
    }
  }

  lemma AtAfterNext(t: nat, i: nat, n: nat)
    requires t < n && i < n
    ensures At((t + 1) % n, i, n) == At(t, i + 1, n)
  {
    ModNext(t, n);
  }

  lemma AtDistinct(t: nat, i: nat, j: nat, n: nat)
    requires t < n && i < n && j < n && i != j
    ensures At(t, i, n) != At(t, j, n)
  {
  }

  /** One received byte (the RXC branch of `port_handle_sercom_uart_i2c`):
      it is written at `head`; when the ring is full the oldest byte is
      dropped by advancing `tail`. The ring behaves as a bounded FIFO. */
  function Push(r: Ring, b: Octet): (r': Ring)
    requires RingOk(r)
    ensures RingOk(r') && |r'.rx| == |r.rx|
    ensures r'.count == if r.count < |r.rx| then r.count + 1 else r.count
    ensures Contents(r') == if r.count < |r.rx| then Contents(r) + [b] else Contents(r)[1..] + [b]
  {
    var n := |r.rx|;
    var rx := r.rx[r.head := b];
    var head := (r.head + 1) % n;
    ModNext(r.head, n);
    if r.count < n then
      var r' := Ring(rx, head, r.tail, r.count + 1);
      PushKeeps(r, b, r');
      r'
    else
      var r' := Ring(rx, head, (r.tail + 1) % n, r.count);
      PushDrops(r, b, r');
      r'
  }

  lemma PushKeeps(r: Ring, b: Octet, r': Ring)
    requires RingOk(r) && r.count < |r.rx|
    requires r' == Ring(r.rx[r.head := b], (r.head + 1) % |r.rx|, r.tail, r.count + 1)
    ensures RingOk(r') && Contents(r') == Contents(r) + [b]
  {
    var n := |r.rx|;
    ModNext(r.head, n);
    assert r'.head == At(r.tail, r.count + 1, n);
    forall i | 0 <= i < r.count
      ensures Contents(r')[i] == Contents(r)[i]
    {
      AtDistinct(r.tail, i, r.count, n);
    }
  }

  lemma PushDrops(r: Ring, b: Octet, r': Ring)
    requires RingOk(r) && r.count == |r.rx|
    requires r' == Ring(r.rx[r.head := b], (r.head + 1) % |r.rx|, (r.tail + 1) % |r.rx|, r.count)
    ensures RingOk(r') && Contents(r') == Contents(r)[1..] + [b]
  {
    var n := |r.rx|;
    ModNext(r.head, n);
    ModNext(r.tail, n);
    assert r.head == r.tail;
    forall i | 0 <= i < n
      ensures Contents(r')[i] == (Contents(r)[1..] + [b])[i]
    {
      AtAfterNext(r.tail, i, n);
      if i + 1 < n {
        AtDistinct(r.tail, i + 1, 0, n);
      }
    }
  }

  /** Reading the oldest byte: it is taken from `tail`, which advances. */
  function Pop(r: Ring): (res: (Octet, Ring))
    requires RingOk(r) && r.count > 0
    ensures RingOk(res.1) && |res.1.rx| == |r.rx|
    ensures res.0 == Contents(r)[0] && Contents(res.1) == Contents(r)[1..]
  {
    var n := |r.rx|;
    var r' := r.(tail := (r.tail + 1) % n, count := r.count - 1);
    ModNext(r.tail, n);
    AtAfterNext(r.tail, r.count - 1, n);
    assert forall i :: 0 <= i < r'.count ==> Contents(r')[i] == Contents(r)[i + 1] by {
      forall i | 0 <= i < r'.count
        ensures Contents(r')[i] == Contents(r)[i + 1]
      {
        AtAfterNext(r.tail, i, n);
      }
    }
    (r.rx[r.tail], r')
  }

  /** The copy loop of `uart_send_data`: `k` bytes taken from `tail` onwards. */
  function Drain(r: Ring, k: nat): (res: (seq<Octet>, Ring))
    requires RingOk(r) && k <= r.count
    ensures RingOk(res.1) && |res.1.rx| == |r.rx|
    ensures res.0 == Contents(r)[..k] && Contents(res.1) == Contents(r)[k..]
    decreases k
  {
    if k == 0 then ([], r)
    else
      var (b, r1) := Pop(r);
      var (rest, r2) := Drain(r1, k - 1);
      assert Contents(r)[..k] == [b] + Contents(r1)[..k - 1];
      assert Contents(r)[k..] == Contents(r1)[k - 1..];
      ([b] + rest, r2)
  }
}
