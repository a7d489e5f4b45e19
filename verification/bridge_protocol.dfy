/** The wire protocol shared by the MCU bridge engine (firmware/bridge.c) and
    the SoC bridge daemon (soc/spid.c): the fixed-size control header, the rule
    that selects the data-phase transfers from a pair of headers, and the
    byte-level meaning of a chain of SPI segments. */
module BridgeProtocol {
  import opened Common

  /** BRIDGE_NUM_CHAN / N_CHANNEL: 0 = USB pass-through, 1 = port A, 2 = port B. */
  const NumChan: nat := 3
  /** BRIDGE_BUF_SIZE / BUFSIZE: the largest payload one channel moves per cycle. */
  const BufSize: nat := 255
  /** `cmd` of a header sent by the SoC. */
  const CmdRequest: Byte := 0x53
  /** `cmd` of a header sent by the MCU. */
  const CmdAck: Byte := 0xCA
  /** sizeof(ControlPkt): cmd, status, one size byte per channel. */
  const HeaderLen: nat := 2 + NumChan

  /** ControlPkt. `status` holds the ready-to-receive bits 0..NumChan-1 and, in the
      SoC's header, the open bits 4..4+NumChan-1. `sizes[c]` is the sender's
      pending outgoing length on channel c. */
  datatype ControlPkt = ControlPkt(cmd: Byte, status: Byte, sizes: seq<Byte>)

  predicate WellFormed(p: ControlPkt)
  {
    |p.sizes| == NumChan
  }

  /** The packed in-memory layout of a ControlPkt, byte by byte. */
  function Encode(p: ControlPkt): (r: seq<Byte>)
    requires WellFormed(p)
    ensures |r| == HeaderLen
    ensures r[0] == p.cmd && r[1] == p.status
    ensures forall c :: 0 <= c < NumChan ==> r[2 + c] == p.sizes[c]
  {
    [p.cmd, p.status] + p.sizes
  }

  /** Reading a header back from exactly HeaderLen bytes. */
  function Decode(b: seq<Byte>): (r: Option<ControlPkt>)
    ensures r.Some? <==> |b| == HeaderLen
    ensures r.Some? ==> WellFormed(r.value) && Encode(r.value) == b
  {
    if |b| == HeaderLen then Some(ControlPkt(b[0], b[1], b[2..])) else None
  }

  lemma DecodeEncode(p: ControlPkt)
    requires WellFormed(p)
    ensures Decode(Encode(p)) == Some(p)
  {
    assert Encode(p)[2..] == p.sizes;
  }

  // ---------------------------------------------------------------------------
  // The transfer-selection rule

  /** ToMcu: the SoC sends and the MCU receives; ToSoc: the other way round. */
  datatype Direction = ToMcu | ToSoc

  /** One data-phase transfer: `len` bytes on channel `chan` in direction `dir`. */
  datatype Descriptor = Descriptor(chan: nat, dir: Direction, len: Byte)

  /** The declared length of the sender of direction `d` on channel `c`.
      `soc` is the header the SoC sent, `mcu` the header the MCU sent. */
  function SenderSize(soc: ControlPkt, mcu: ControlPkt, c: nat, d: Direction): Byte
    requires WellFormed(soc) && WellFormed(mcu) && c < NumChan
  {
    if d == ToMcu then soc.sizes[c] else mcu.sizes[c]
  }

  /** The receiver of direction `d` has announced a posted buffer on channel `c`. */
  predicate ReceiverReady(soc: ControlPkt, mcu: ControlPkt, c: nat, d: Direction)
    requires c < NumChan
  {
    if d == ToMcu then HasBit(mcu.status, c) else HasBit(soc.status, c)
  }

  /** A transfer happens iff the sender's declared size is positive and the
      receiver's ready bit is set, both read from the one exchanged header pair. */
  predicate Selected(soc: ControlPkt, mcu: ControlPkt, c: nat, d: Direction)
    requires WellFormed(soc) && WellFormed(mcu) && c < NumChan
  {
    ReceiverReady(soc, mcu, c, d) && SenderSize(soc, mcu, c, d) > 0
  }

  /** The position of a (channel, direction) pair in a plan: channels in
      increasing order, and on one channel SoC-to-MCU before MCU-to-SoC. */
  function Rank(c: nat, d: Direction): nat
  {
    2 * c + (if d == ToMcu then 0 else 1)
  }

  function RankOf(x: Descriptor): nat
  {
    Rank(x.chan, x.dir)
  }

  lemma RankInjective(c: nat, d: Direction, c': nat, d': Direction)
    requires Rank(c, d) == Rank(c', d')
    ensures c == c' && d == d'
  {
  }

  /** Every descriptor of `plan` is a selected transfer of the sender's declared length. */
  predicate Sound(soc: ControlPkt, mcu: ControlPkt, plan: seq<Descriptor>)
    requires WellFormed(soc) && WellFormed(mcu)
  {
    forall i :: 0 <= i < |plan| ==>
      && plan[i].chan < NumChan
      && Selected(soc, mcu, plan[i].chan, plan[i].dir)
      && plan[i].len == SenderSize(soc, mcu, plan[i].chan, plan[i].dir)
  }

  /** Ranks strictly increase along `plan`. */
  predicate Ordered(plan: seq<Descriptor>)
  {
    forall i, j :: 0 <= i < j < |plan| ==> RankOf(plan[i]) < RankOf(plan[j])
  }

  predicate Listed(plan: seq<Descriptor>, c: nat, d: Direction)
  {
    exists i :: 0 <= i < |plan| && plan[i].chan == c && plan[i].dir == d
  }

  /** Every selected transfer of rank at least `lo` is listed. */
  predicate CompleteFrom(soc: ControlPkt, mcu: ControlPkt, plan: seq<Descriptor>, lo: nat)
    requires WellFormed(soc) && WellFormed(mcu)
  {
    forall c: nat, d: Direction :: c < NumChan && lo <= Rank(c, d) && Selected(soc, mcu, c, d) ==> Listed(plan, c, d)
  }

  /** `plan` lists exactly the selected transfers, each once, in rank order. */
  predicate IsPlanFor(soc: ControlPkt, mcu: ControlPkt, plan: seq<Descriptor>)
    requires WellFormed(soc) && WellFormed(mcu)
  {
    Sound(soc, mcu, plan) && Ordered(plan) && CompleteFrom(soc, mcu, plan, 0)
  }

  /** A plan for the transfers of rank `lo` and above: sound, ordered, complete
      above `lo`, and listing nothing below `lo`. */
  predicate PlanAbove(soc: ControlPkt, mcu: ControlPkt, plan: seq<Descriptor>, lo: nat)
    requires WellFormed(soc) && WellFormed(mcu)
  {
    && Sound(soc, mcu, plan) && Ordered(plan) && CompleteFrom(soc, mcu, plan, lo)
    && forall i :: 0 <= i < |plan| ==> RankOf(plan[i]) >= lo
  }

  /** The reference definition of one channel's part of a plan: the selected
      transfers of channel `c`, SoC-to-MCU first. */
  function Block(soc: ControlPkt, mcu: ControlPkt, c: nat): (r: seq<Descriptor>)
    requires WellFormed(soc) && WellFormed(mcu) && c < NumChan
    ensures |r| <= 2
  {
    (if Selected(soc, mcu, c, ToMcu) then [Descriptor(c, ToMcu, SenderSize(soc, mcu, c, ToMcu))] else [])
    + (if Selected(soc, mcu, c, ToSoc) then [Descriptor(c, ToSoc, SenderSize(soc, mcu, c, ToSoc))] else [])
  }

  /** Nothing has rank `2 * NumChan` or more, so the empty plan is the plan above it. */
  lemma EmptyPlanAbove(soc: ControlPkt, mcu: ControlPkt)
    requires WellFormed(soc) && WellFormed(mcu)
    ensures PlanAbove(soc, mcu, [], 2 * NumChan)
  {
  }

  /** Putting channel `c`'s block in front of a plan for the higher channels gives
      a plan for channel `c` and above. Both sides build their plans this way. */
  lemma BlockThenPlan(soc: ControlPkt, mcu: ControlPkt, c: nat, tail: seq<Descriptor>, plan: seq<Descriptor>)
    requires WellFormed(soc) && WellFormed(mcu) && c < NumChan
    requires PlanAbove(soc, mcu, tail, 2 * (c + 1))
    requires plan == Block(soc, mcu, c) + tail
    ensures PlanAbove(soc, mcu, plan, 2 * c)
  {
    var b := Block(soc, mcu, c);
    BlockFacts(soc, mcu, c);
    BlockThenPlanSound(soc, mcu, c, b, tail);
    BlockThenPlanComplete(soc, mcu, c, b, tail);
  }

  lemma BlockFacts(soc: ControlPkt, mcu: ControlPkt, c: nat)
    requires WellFormed(soc) && WellFormed(mcu) && c < NumChan
    ensures var b := Block(soc, mcu, c);
      && (forall i :: 0 <= i < |b| ==> b[i].chan == c)
      && Sound(soc, mcu, b)
      && (|b| == 2 ==> b[0].dir == ToMcu && b[1].dir == ToSoc)
      && (Selected(soc, mcu, c, ToMcu) ==> |b| > 0 && b[0].dir == ToMcu)
      && (Selected(soc, mcu, c, ToSoc) ==> |b| > 0 && b[|b| - 1].dir == ToSoc)
  {
  }

  lemma BlockThenPlanSound(soc: ControlPkt, mcu: ControlPkt, c: nat, b: seq<Descriptor>, tail: seq<Descriptor>)
    requires WellFormed(soc) && WellFormed(mcu) && c < NumChan
    requires Sound(soc, mcu, b) && |b| <= 2 && (forall i :: 0 <= i < |b| ==> b[i].chan == c)
    requires |b| == 2 ==> b[0].dir == ToMcu && b[1].dir == ToSoc
    requires PlanAbove(soc, mcu, tail, 2 * (c + 1))
    ensures Sound(soc, mcu, b + tail) && Ordered(b + tail)
    ensures forall i :: 0 <= i < |b + tail| ==> RankOf((b + tail)[i]) >= 2 * c
  {
    var p := b + tail;
    assert forall i :: 0 <= i < |tail| ==> p[|b| + i] == tail[i];
    assert forall i :: 0 <= i < |b| ==> p[i] == b[i];
    assert forall i :: 0 <= i < |b| ==> 2 * c <= RankOf(p[i]) < 2 * c + 2;
  }

  lemma BlockThenPlanComplete(soc: ControlPkt, mcu: ControlPkt, c: nat, b: seq<Descriptor>, tail: seq<Descriptor>)
    requires WellFormed(soc) && WellFormed(mcu) && c < NumChan
    requires Selected(soc, mcu, c, ToMcu) ==> |b| > 0 && b[0].chan == c && b[0].dir == ToMcu
    requires Selected(soc, mcu, c, ToSoc) ==> |b| > 0 && b[|b| - 1].chan == c && b[|b| - 1].dir == ToSoc
    requires CompleteFrom(soc, mcu, tail, 2 * c + 2)
    ensures CompleteFrom(soc, mcu, b + tail, 2 * c)
  {
    var p := b + tail;
    forall c': nat, d: Direction | c' < NumChan && 2 * c <= Rank(c', d) && Selected(soc, mcu, c', d)
      ensures Listed(p, c', d)
    {
      if c' == c {
        if d == ToMcu {
          assert p[0] == b[0];
        } else {
          assert p[|b| - 1] == b[|b| - 1];
        }
      } else {
        assert Listed(tail, c', d);
        var a :| 0 <= a < |tail| && tail[a].chan == c' && tail[a].dir == d;
        assert p[|b| + a] == tail[a];
      }
    }
  }

  /** A plan lists a (channel, direction) pair iff the pair is selected, and
      every descriptor carries the sender's declared size. */
  lemma PlanListsSelected(soc: ControlPkt, mcu: ControlPkt, plan: seq<Descriptor>)
    requires WellFormed(soc) && WellFormed(mcu) && IsPlanFor(soc, mcu, plan)
    ensures forall c: nat, d: Direction :: c < NumChan ==> (Listed(plan, c, d) <==> Selected(soc, mcu, c, d))
    ensures forall c: nat, d: Direction, n: Byte :: Descriptor(c, d, n) in plan <==>
      (c < NumChan && Selected(soc, mcu, c, d) && n == SenderSize(soc, mcu, c, d))
  {
    forall c: nat, d: Direction | c < NumChan && Listed(plan, c, d)
      ensures Selected(soc, mcu, c, d)
    {
      var i :| 0 <= i < |plan| && plan[i].chan == c && plan[i].dir == d;
    }
    forall c: nat, d: Direction, n: Byte | c < NumChan && Selected(soc, mcu, c, d) && n == SenderSize(soc, mcu, c, d)
      ensures Descriptor(c, d, n) in plan
    {
      assert Listed(plan, c, d);
      var i :| 0 <= i < |plan| && plan[i].chan == c && plan[i].dir == d;
      assert plan[i] == Descriptor(c, d, n);
    }
  }

  /** There are at most two transfers per channel. */
  lemma PlanBound(soc: ControlPkt, mcu: ControlPkt, plan: seq<Descriptor>)
    requires WellFormed(soc) && WellFormed(mcu)
    requires Sound(soc, mcu, plan) && Ordered(plan)
    ensures |plan| <= 2 * NumChan
  {
    if |plan| > 0 {
      RanksGrow(plan, |plan| - 1);
    }
  }

  lemma {:induction false} RanksGrow(plan: seq<Descriptor>, k: nat)
    requires Ordered(plan) && k < |plan|
    ensures RankOf(plan[k]) >= k
  {
    if k > 0 {
      RanksGrow(plan, k - 1);
    }
  }

  /** In a complete, ordered plan every listed rank lies at or above `lo`, and the
      first element has the least rank of all selected transfers at or above `lo`. */
  lemma HeadIsLeast(soc: ControlPkt, mcu: ControlPkt, p: seq<Descriptor>, lo: nat, c: nat, d: Direction)
    requires WellFormed(soc) && WellFormed(mcu)
    requires Ordered(p) && CompleteFrom(soc, mcu, p, lo)
    requires c < NumChan && lo <= Rank(c, d) && Selected(soc, mcu, c, d)
    ensures |p| > 0 && RankOf(p[0]) <= Rank(c, d)
  {
    assert Listed(p, c, d);
    var a :| 0 <= a < |p| && p[a].chan == c && p[a].dir == d;
    assert a == 0 || RankOf(p[0]) < RankOf(p[a]);
  }

  /** Dropping the head of an ordered complete plan leaves a plan complete above the head's rank. */
  lemma TailComplete(soc: ControlPkt, mcu: ControlPkt, p: seq<Descriptor>, lo: nat)
    requires WellFormed(soc) && WellFormed(mcu)
    requires |p| > 0 && Ordered(p) && CompleteFrom(soc, mcu, p, lo) && lo <= RankOf(p[0])
    ensures CompleteFrom(soc, mcu, p[1..], RankOf(p[0]) + 1)
  {
    forall c: nat, d: Direction | c < NumChan && RankOf(p[0]) + 1 <= Rank(c, d) && Selected(soc, mcu, c, d)
      ensures Listed(p[1..], c, d)
    {
      assert Listed(p, c, d);
      var a :| 0 <= a < |p| && p[a].chan == c && p[a].dir == d;
      assert a != 0;
      assert p[1..][a - 1] == p[a];
    }
  }

  /** Two sound, ordered plans that are complete above the same rank and
      start at or above it are equal. */
  lemma {:induction false} PlansAgreeFrom(soc: ControlPkt, mcu: ControlPkt, p: seq<Descriptor>, q: seq<Descriptor>, lo: nat)
    requires WellFormed(soc) && WellFormed(mcu)
    requires Sound(soc, mcu, p) && Ordered(p) && CompleteFrom(soc, mcu, p, lo)
    requires Sound(soc, mcu, q) && Ordered(q) && CompleteFrom(soc, mcu, q, lo)
    requires forall i :: 0 <= i < |p| ==> RankOf(p[i]) >= lo
    requires forall i :: 0 <= i < |q| ==> RankOf(q[i]) >= lo
    ensures p == q
    decreases |p| + |q|
  {
    if |p| == 0 && |q| == 0 {
    } else if |p| == 0 {
      HeadIsLeast(soc, mcu, p, lo, q[0].chan, q[0].dir);
    } else if |q| == 0 {
      HeadIsLeast(soc, mcu, q, lo, p[0].chan, p[0].dir);
    } else {
      HeadIsLeast(soc, mcu, q, lo, p[0].chan, p[0].dir);
      HeadIsLeast(soc, mcu, p, lo, q[0].chan, q[0].dir);
      RankInjective(p[0].chan, p[0].dir, q[0].chan, q[0].dir);
      var r := RankOf(p[0]);
      TailComplete(soc, mcu, p, lo);
      TailComplete(soc, mcu, q, lo);
      PlansAgreeFrom(soc, mcu, p[1..], q[1..], r + 1);
    }
  }

  /** The selection rule determines the plan: any two plans for the same
      header pair are the same sequence. */
  lemma PlanUnique(soc: ControlPkt, mcu: ControlPkt, p: seq<Descriptor>, q: seq<Descriptor>)
    requires WellFormed(soc) && WellFormed(mcu)
    requires IsPlanFor(soc, mcu, p) && IsPlanFor(soc, mcu, q)
    ensures p == q
  {
    PlansAgreeFrom(soc, mcu, p, q, 0);
  }

  // ---------------------------------------------------------------------------
  // SPI segments

  /** One segment of one side's view of an SPI exchange: `len` bytes during
      which this side shifts out `tx` (filler when None) and keeps what it
      shifts in iff `keep`. The MCU's paired DMA descriptors and one
      `spi_ioc_transfer` of the SoC are both segments. */
  datatype Segment = Segment(len: nat, tx: Option<seq<Byte>>, keep: bool)

  predicate ChainOk(chain: seq<Segment>)
  {
    forall i :: 0 <= i < |chain| ==> chain[i].tx.Some? ==> |chain[i].tx.value| == chain[i].len
  }

  function TotalLen(chain: seq<Segment>): nat
  {
    if |chain| == 0 then 0 else chain[0].len + TotalLen(chain[1..])
  }

  /** The bytes one segment shifts out, filler being zero bytes. */
  function Sent(seg: Segment): (r: seq<Byte>)
    requires seg.tx.Some? ==> |seg.tx.value| == seg.len
    ensures |r| == seg.len
  {
    if seg.tx.Some? then seg.tx.value else Zeros(seg.len)
  }

  /** The bytes this side shifts out over the whole chain. */
  function Outgoing(chain: seq<Segment>): (r: seq<Byte>)
    requires ChainOk(chain)
    ensures |r| == TotalLen(chain)
  {
    if |chain| == 0 then [] else Sent(chain[0]) + Outgoing(chain[1..])
  }

  /** What this side keeps of the bytes `wire` it shifts in: one slice per kept segment. */
  function Kept(chain: seq<Segment>, wire: seq<Byte>): seq<seq<Byte>>
    requires |wire| == TotalLen(chain)
  {
    if |chain| == 0 then []
    else (if chain[0].keep then [wire[..chain[0].len]] else []) + Kept(chain[1..], wire[chain[0].len..])
  }

  /** Two chains clocked together segment by segment: same number of
      segments, same length each. */
  predicate Aligned(a: seq<Segment>, b: seq<Segment>)
  {
    |a| == |b| && forall i :: 0 <= i < |a| ==> a[i].len == b[i].len
  }

  /** Segment-wise reference for what `a` keeps when `b` drives the wire: the
      bytes `b` sends in each segment `a` keeps. */
  function Receives(a: seq<Segment>, b: seq<Segment>): seq<seq<Byte>>
    requires |a| == |b| && ChainOk(b)
  {
    if |a| == 0 then []
    else (if a[0].keep then [Sent(b[0])] else []) + Receives(a[1..], b[1..])
  }

  /** Over a full-duplex link each side shifts in what the other shifts out.
      For aligned chains both sides clock the same number of bytes, and what a
      side keeps is, segment by segment, what the other side sent. */
  lemma {:induction false} KeptLockstep(a: seq<Segment>, b: seq<Segment>)
    requires Aligned(a, b) && ChainOk(b)
    ensures TotalLen(a) == TotalLen(b)
    ensures Kept(a, Outgoing(b)) == Receives(a, b)
  {
    if |a| > 0 {
      assert Aligned(a[1..], b[1..]);
      KeptLockstep(a[1..], b[1..]);
      var w := Outgoing(b);
      assert w == Sent(b[0]) + Outgoing(b[1..]);
      assert w[..a[0].len] == Sent(b[0]);
      assert w[a[0].len..] == Outgoing(b[1..]);
    }
  }

  /** Every descriptor this side sends for names a buffer that holds its bytes. */
  predicate BufsCover(plan: seq<Descriptor>, out: Direction, bufs: seq<seq<Byte>>)
  {
    forall i :: 0 <= i < |plan| && plan[i].dir == out ==>
      plan[i].chan < |bufs| && plan[i].len as int <= |bufs[plan[i].chan]|
  }

  /** One side's segment for one descriptor: in direction `out` it shifts
      out the first `len` bytes of the channel's buffer and discards what
      comes in; otherwise it shifts out filler and keeps what comes in. */
  function DescSegment(d: Descriptor, out: Direction, bufs: seq<seq<Byte>>): (r: Segment)
    requires d.dir == out ==> d.chan < |bufs| && d.len as int <= |bufs[d.chan]|
    ensures r.len == d.len as int && (r.keep <==> d.dir != out)
    ensures r.tx.Some? ==> |r.tx.value| == r.len
  {
    if d.dir == out then Segment(d.len as int, Some(bufs[d.chan][..d.len]), false)
    else Segment(d.len as int, None, true)
  }

  /** One side's chain for a data plan, one segment per descriptor. */
  function PlanChain(plan: seq<Descriptor>, out: Direction, bufs: seq<seq<Byte>>): (r: seq<Segment>)
    requires BufsCover(plan, out, bufs)
    ensures ChainOk(r) && |r| == |plan|
    ensures forall i :: 0 <= i < |plan| ==> r[i].len == plan[i].len as int && (r[i].keep <==> plan[i].dir != out)
  {
    seq(|plan|, i requires 0 <= i < |plan| => DescSegment(plan[i], out, bufs))
  }

  /** `bytes` travel on channel `chan`: the sender takes them from its
      buffer for `chan` and the receiver's DMA or driver puts them in its own
      buffer for `chan`. */
  datatype Transfer = Transfer(chan: nat, bytes: seq<Byte>)

  function Bytes(ts: seq<Transfer>): (r: seq<seq<Byte>>)
    ensures |r| == |ts| && forall k :: 0 <= k < |ts| ==> r[k] == ts[k].bytes
  {
    seq(|ts|, k requires 0 <= k < |ts| => ts[k].bytes)
  }

  /** The first `n` bytes of buffer `c`; a buffer too short (which a covered
      plan never meets) gives what there is. */
  function Take(bufs: seq<seq<Byte>>, c: nat, n: Byte): (r: seq<Byte>)
    ensures c < |bufs| && n as int <= |bufs[c]| ==> r == bufs[c][..n]
  {
    if c >= |bufs| then [] else if n as int <= |bufs[c]| then bufs[c][..n] else bufs[c]
  }

  /** The transfers the descriptors in direction `out` carry, in plan order. */
  function Payloads(plan: seq<Descriptor>, out: Direction, bufs: seq<seq<Byte>>): (r: seq<Transfer>)
    ensures |r| <= |plan|
  {
    if |plan| == 0 then []
    else
      var d := plan[0];
      (if d.dir == out then [Transfer(d.chan, Take(bufs, d.chan, d.len))] else []) + Payloads(plan[1..], out, bufs)
  }

  /** When both sides build their chains from the same plan, each keeps
      exactly the payloads the other sends, in plan order. A receive
      descriptor of one side is a send descriptor of the other, so the k-th
      kept slice lands in the buffer of the channel the k-th transfer names. */
  lemma {:induction false} PlanChainsExchange(plan: seq<Descriptor>, mine: Direction, myBufs: seq<seq<Byte>>,
                                              theirs: Direction, theirBufs: seq<seq<Byte>>)
    requires mine != theirs
    requires BufsCover(plan, mine, myBufs) && BufsCover(plan, theirs, theirBufs)
    ensures Aligned(PlanChain(plan, mine, myBufs), PlanChain(plan, theirs, theirBufs))
    ensures Receives(PlanChain(plan, mine, myBufs), PlanChain(plan, theirs, theirBufs)) == Bytes(Payloads(plan, theirs, theirBufs))
  {
    if |plan| > 0 {
      var rest := plan[1..];
      var a := PlanChain(plan, mine, myBufs);
      var b := PlanChain(plan, theirs, theirBufs);
      PlanChainCons(plan, mine, myBufs);
      PlanChainCons(plan, theirs, theirBufs);
      PlanChainsExchange(rest, mine, myBufs, theirs, theirBufs);
      ReceivesCons(a, b);
      HeadReceives(plan[0], mine, myBufs, theirs, theirBufs);
      PayloadsCons(plan, theirs, theirBufs);
      var d := plan[0];
      BytesAppend(if d.dir == theirs then [Transfer(d.chan, Take(theirBufs, d.chan, d.len))] else [],
                  Payloads(rest, theirs, theirBufs));
    }
  }

  /** A plan's chain is its first descriptor's segment, then the chain of the rest. */
  lemma PlanChainCons(plan: seq<Descriptor>, out: Direction, bufs: seq<seq<Byte>>)
    requires |plan| > 0 && BufsCover(plan, out, bufs)
    ensures BufsCover(plan[1..], out, bufs)
    ensures PlanChain(plan, out, bufs)[0] == DescSegment(plan[0], out, bufs)
    ensures PlanChain(plan, out, bufs)[1..] == PlanChain(plan[1..], out, bufs)
  {
    assert BufsCover(plan[1..], out, bufs) by {
      forall i | 0 <= i < |plan[1..]| && plan[1..][i].dir == out
        ensures plan[1..][i].chan < |bufs| && plan[1..][i].len as int <= |bufs[plan[1..][i].chan]|
      {
        assert plan[1..][i] == plan[i + 1];
      }
    }
  }

  lemma ReceivesCons(a: seq<Segment>, b: seq<Segment>)
    requires |a| == |b| && |a| > 0 && ChainOk(b)
    ensures ChainOk(b[1..])
    ensures Receives(a, b) == (if a[0].keep then [Sent(b[0])] else []) + Receives(a[1..], b[1..])
  {
  }

  /** One descriptor, seen from both sides: what one side keeps of it is what
      the other side sends on it. */
  lemma HeadReceives(d: Descriptor, mine: Direction, myBufs: seq<seq<Byte>>, theirs: Direction, theirBufs: seq<seq<Byte>>)
    requires mine != theirs
    requires d.dir == mine ==> d.chan < |myBufs| && d.len as int <= |myBufs[d.chan]|
    requires d.dir == theirs ==> d.chan < |theirBufs| && d.len as int <= |theirBufs[d.chan]|
    ensures (if DescSegment(d, mine, myBufs).keep then [Sent(DescSegment(d, theirs, theirBufs))] else [])
      == Bytes(if d.dir == theirs then [Transfer(d.chan, Take(theirBufs, d.chan, d.len))] else [])
  {
  }

  lemma PayloadsCons(plan: seq<Descriptor>, out: Direction, bufs: seq<seq<Byte>>)
    requires |plan| > 0
    ensures Payloads(plan, out, bufs)
      == (if plan[0].dir == out then [Transfer(plan[0].chan, Take(bufs, plan[0].chan, plan[0].len))] else [])
        + Payloads(plan[1..], out, bufs)
  {
  }

  /** Both sides' chains for one plan, clocked against each other over the
      link: the same number of bytes, and each side keeps the other's payloads. */
  lemma PlanChainsKeep(plan: seq<Descriptor>, mine: Direction, myBufs: seq<seq<Byte>>,
                       theirs: Direction, theirBufs: seq<seq<Byte>>)
    requires mine != theirs
    requires BufsCover(plan, mine, myBufs) && BufsCover(plan, theirs, theirBufs)
    ensures TotalLen(PlanChain(plan, mine, myBufs)) == TotalLen(PlanChain(plan, theirs, theirBufs))
    ensures Kept(PlanChain(plan, mine, myBufs), Outgoing(PlanChain(plan, theirs, theirBufs)))
      == Bytes(Payloads(plan, theirs, theirBufs))
  {
    PlanChainsExchange(plan, mine, myBufs, theirs, theirBufs);
    KeptLockstep(PlanChain(plan, mine, myBufs), PlanChain(plan, theirs, theirBufs));
  }

  lemma BytesAppend(a: seq<Transfer>, b: seq<Transfer>)
    ensures Bytes(a + b) == Bytes(a) + Bytes(b)
  {
  }

  // ---------------------------------------------------------------------------
  // The transfers a header pair calls for, channel by channel

  /** The canonical plan: the blocks of channels `c` and above, in order. */
  function Blocks(soc: ControlPkt, mcu: ControlPkt, c: nat): (r: seq<Descriptor>)
    requires WellFormed(soc) && WellFormed(mcu) && c <= NumChan
    decreases NumChan - c
  {
    if c == NumChan then [] else Block(soc, mcu, c) + Blocks(soc, mcu, c + 1)
  }

  lemma {:induction false} BlocksArePlan(soc: ControlPkt, mcu: ControlPkt, c: nat)
    requires WellFormed(soc) && WellFormed(mcu) && c <= NumChan
    ensures PlanAbove(soc, mcu, Blocks(soc, mcu, c), 2 * c)
    decreases NumChan - c
  {
    if c < NumChan {
      BlocksArePlan(soc, mcu, c + 1);
      BlockThenPlan(soc, mcu, c, Blocks(soc, mcu, c + 1), Blocks(soc, mcu, c));
    }
  }

  /** The sender of direction `out` holds, for every selected channel, a
      buffer of at least the size it declared. */
  predicate BuffersHold(soc: ControlPkt, mcu: ControlPkt, out: Direction, bufs: seq<seq<Byte>>)
    requires WellFormed(soc) && WellFormed(mcu)
  {
    forall c :: 0 <= c < NumChan && Selected(soc, mcu, c, out) ==>
      c < |bufs| && SenderSize(soc, mcu, c, out) as int <= |bufs[c]|
  }

  /** A plan only asks a sender for bytes its buffers hold. */
  lemma PlanCovered(soc: ControlPkt, mcu: ControlPkt, plan: seq<Descriptor>, out: Direction, bufs: seq<seq<Byte>>)
    requires WellFormed(soc) && WellFormed(mcu) && Sound(soc, mcu, plan) && BuffersHold(soc, mcu, out, bufs)
    ensures BufsCover(plan, out, bufs)
  {
  }

  /** Reference definition: for each channel from `c` up whose transfer in
      direction `out` is selected, the first declared-size bytes of the
      sender's buffer for that channel. */
  function ChannelTransfers(soc: ControlPkt, mcu: ControlPkt, out: Direction, bufs: seq<seq<Byte>>, c: nat): seq<Transfer>
    requires WellFormed(soc) && WellFormed(mcu) && c <= NumChan
    decreases NumChan - c
  {
    if c == NumChan then []
    else
      (if Selected(soc, mcu, c, out) then [Transfer(c, Take(bufs, c, SenderSize(soc, mcu, c, out)))] else [])
      + ChannelTransfers(soc, mcu, out, bufs, c + 1)
  }

  lemma {:induction false} PayloadsAppend(p: seq<Descriptor>, q: seq<Descriptor>, out: Direction, bufs: seq<seq<Byte>>)
    ensures Payloads(p + q, out, bufs) == Payloads(p, out, bufs) + Payloads(q, out, bufs)
    decreases |p|
  {
    if |p| == 0 {
      EmptyPrefix(q);
      EmptyPrefix(Payloads(q, out, bufs));
    } else {
      ConsAppend(p, q);
      PayloadsAppend(p[1..], q, out, bufs);
      PayloadsCons(p + q, out, bufs);
      PayloadsCons(p, out, bufs);
      var d := p[0];
      AppendAssoc(if d.dir == out then [Transfer(d.chan, Take(bufs, d.chan, d.len))] else [],
                  Payloads(p[1..], out, bufs), Payloads(q, out, bufs));
    }
  }

  lemma {:induction false} BlocksCarry(soc: ControlPkt, mcu: ControlPkt, out: Direction, bufs: seq<seq<Byte>>, c: nat)
    requires WellFormed(soc) && WellFormed(mcu) && c <= NumChan
    ensures Payloads(Blocks(soc, mcu, c), out, bufs) == ChannelTransfers(soc, mcu, out, bufs, c)
    decreases NumChan - c
  {
    if c < NumChan {
      BlocksCarry(soc, mcu, out, bufs, c + 1);
      BlockCarries(soc, mcu, out, bufs, c);
      PayloadsAppend(Block(soc, mcu, c), Blocks(soc, mcu, c + 1), out, bufs);
    }
  }

  /** One channel's block carries that channel's transfer in direction `out`, if selected. */
  lemma BlockCarries(soc: ControlPkt, mcu: ControlPkt, out: Direction, bufs: seq<seq<Byte>>, c: nat)
    requires WellFormed(soc) && WellFormed(mcu) && c < NumChan
    ensures Payloads(Block(soc, mcu, c), out, bufs) ==
      if Selected(soc, mcu, c, out) then [Transfer(c, Take(bufs, c, SenderSize(soc, mcu, c, out)))] else []
  {
    var b := Block(soc, mcu, c);
    if |b| == 2 {
      assert b[1..][1..] == [];
    } else if |b| == 1 {
      assert b[1..] == [];
    }
  }

  /** Any plan for a header pair carries, in direction `out`, exactly the
      selected channels' declared-size prefixes, in channel order. */
  lemma PayloadsByChannel(soc: ControlPkt, mcu: ControlPkt, plan: seq<Descriptor>, out: Direction, bufs: seq<seq<Byte>>)
    requires WellFormed(soc) && WellFormed(mcu) && IsPlanFor(soc, mcu, plan)
    ensures Payloads(plan, out, bufs) == ChannelTransfers(soc, mcu, out, bufs, 0)
  {
    BlocksArePlan(soc, mcu, 0);
    PlanUnique(soc, mcu, plan, Blocks(soc, mcu, 0));
    BlocksCarry(soc, mcu, out, bufs, 0);
  }

  /** A transfer belongs to the channel-by-channel reference iff its channel
      is selected in direction `out` and it carries that channel's
      declared-size prefix. */
  lemma {:induction false} ChannelTransfersMembers(soc: ControlPkt, mcu: ControlPkt, out: Direction, bufs: seq<seq<Byte>>,
                                                   lo: nat, c: nat, x: seq<Byte>)
    requires WellFormed(soc) && WellFormed(mcu) && lo <= NumChan
    ensures Transfer(c, x) in ChannelTransfers(soc, mcu, out, bufs, lo) <==>
      (lo <= c < NumChan && Selected(soc, mcu, c, out) && x == Take(bufs, c, SenderSize(soc, mcu, c, out)))
    decreases NumChan - lo
  {
    if lo < NumChan {
      ChannelTransfersMembers(soc, mcu, out, bufs, lo + 1, c, x);
      var head := if Selected(soc, mcu, lo, out) then [Transfer(lo, Take(bufs, lo, SenderSize(soc, mcu, lo, out)))] else [];
      assert ChannelTransfers(soc, mcu, out, bufs, lo) == head + ChannelTransfers(soc, mcu, out, bufs, lo + 1);
      assert Transfer(c, x) in head <==>
        c == lo && Selected(soc, mcu, lo, out) && x == Take(bufs, lo, SenderSize(soc, mcu, lo, out));
    }
  }
}
