/** The host-side SPI flash programmer (scripts/flash.py). Every flash
    operation is one USB transaction: a 4-byte header (read length as three
    little-endian bytes, then a flags byte) followed by the SPI bytes to
    write, and optionally a bulk IN read of the reply. The model computes
    the bytes put on the OUT endpoint and the length asked of the IN
    endpoint; what the device answers is a parameter. */
module FlashScript {
  import opened Common

  const MaxWrite := 500
  const MaxRead := 0x100_0000
  /** The IN endpoint is always asked for at least this many bytes. */
  const MinInRead := 512
  const Page := 256
  const U32 := 0x1_0000_0000

  // ---------------------------------------------------------------------
  // Little-endian digits

  function Pow256(n: nat): (r: nat)
    ensures r > 0
  {
    if n == 0 then 1 else 256 * Pow256(n - 1)
  }

  /** The low `n` bytes of `a`, least significant first. Byte `k` is
      `(a >> 8k) & 0xFF` with Python's floor shift (see LeByteAt), which is
      how both the flash address and the transaction header are built. */
  function LeBytes(a: int, n: nat): (r: seq<Byte>)
    ensures |r| == n
    decreases n
  {
    if n == 0 then [] else [ToByte(a % 256)] + LeBytes(a / 256, n - 1)
  }

  /** The number a little-endian byte string denotes. */
  function LeValue(b: seq<Byte>): (r: nat)
    ensures r < Pow256(|b|)
  {
    if b == [] then 0
    else
      var rest := LeValue(b[1..]);
      ByteStep(b[0] as nat, rest, Pow256(|b| - 1));
      b[0] as nat + 256 * rest
  }

  /** Euclidean division is determined by any quotient/remainder pair. */
  lemma DivModUnique(a: int, m: int, q: int, v: int)
    requires m > 0 && 0 <= v < m && a == m * q + v
    ensures a / m == q && a % m == v
  {
    var q', v' := a / m, a % m;
    assert m * (q - q') == v' - v;
    MulAwayFromZero(m, q - q');
  }

  /** A non-zero multiple of m is at least m away from zero. */
  lemma MulAwayFromZero(m: int, k: int)
    requires m > 0
    ensures k >= 1 ==> m * k >= m
    ensures k <= -1 ==> m * k <= -m
  {
    if k >= 1 {
      assert m * k == m + m * (k - 1);
    } else if k <= -1 {
      assert m * k == -m + m * (k + 1);
    }
  }

  /** Splitting off the low byte: shifting by 8 then by `8k` is shifting by
      `8(k+1)`, and the low `k+1` bytes are the low byte plus the next `k`. */
  lemma SplitDigit(a: int, p: nat)
    requires p > 0
    ensures a / (256 * p) == (a / 256) / p
    ensures a % (256 * p) == a % 256 + 256 * ((a / 256) % p)
  {
    var q := a / 256;
    var v := 256 * (q % p) + a % 256;
    ByteStep(a % 256, q % p, p);
    assert a == 256 * q + a % 256;
    assert q == p * (q / p) + q % p;
    assert a == (256 * p) * (q / p) + v by {
      assert 256 * q == 256 * (p * (q / p)) + 256 * (q % p);
    }
    DivModUnique(a, 256 * p, q / p, v);
  }

  /** Byte `k` of the encoding is the source's `(a >> 8k) & 0xFF`. */
  lemma {:induction false} LeByteAt(a: int, n: nat, k: nat)
    requires k < n
    ensures LeBytes(a, n)[k] as int == (a / Pow256(k)) % 256
    decreases k
  {
    if k > 0 {
      LeByteAt(a / 256, n - 1, k - 1);
      SplitDigit(a, Pow256(k - 1));
    }
  }

  /** Decoding the low `n` bytes gives `a` modulo 256^n. */
  lemma {:induction false} LeRoundTrip(a: int, n: nat)
    ensures LeValue(LeBytes(a, n)) == a % Pow256(n)
    decreases n
  {
    if n > 0 {
      LeRoundTrip(a / 256, n - 1);
      SplitDigit(a, Pow256(n - 1));
      assert LeBytes(a, n)[1..] == LeBytes(a / 256, n - 1);
    }
  }

  /** Encoding a decoded byte string gives it back. */
  lemma {:induction false} LeInverse(b: seq<Byte>)
    ensures LeBytes(LeValue(b), |b|) == b
  {
    if b != [] {
      var v, rest := LeValue(b), LeValue(b[1..]);
      assert v == b[0] as nat + 256 * rest;
      DivModUnique(v, 256, rest, b[0] as nat);
      LeInverse(b[1..]);
      ToByteOfByte(b[0]);
      assert LeBytes(v, |b|) == [ToByte(b[0] as nat)] + LeBytes(rest, |b| - 1);
      assert b == [b[0]] + b[1..];
    }
  }

  // ---------------------------------------------------------------------
  // address()

  /** address: the 4-byte big-endian encoding of a flash address. */
  function Address(a: int): (r: seq<Byte>)
    ensures |r| == 4
  {
    var le := LeBytes(a, 4);
    [le[3], le[2], le[1], le[0]]
  }

  /** The address a 4-byte big-endian field denotes. */
  function BeValue(b: seq<Byte>): (r: nat)
    requires |b| == 4
    ensures r < U32
  {
    LeValue([b[3], b[2], b[1], b[0]])
  }

  /** address() keeps the address modulo 2^32, so it round-trips exactly
      for addresses below 4 GB; and every 4-byte field is some address. */
  lemma AddressRoundTrip(a: int)
    ensures BeValue(Address(a)) == a % U32
    ensures 0 <= a < U32 ==> BeValue(Address(a)) == a
  {
    var le := LeBytes(a, 4);
    var be := Address(a);
    assert [be[3], be[2], be[1], be[0]] == le;
    LeRoundTrip(a, 4);
    assert Pow256(4) == U32;
    if 0 <= a < U32 {
      DivModUnique(a, U32, 0, a);
    }
  }

  lemma AddressInverse(b: seq<Byte>)
    requires |b| == 4
    ensures Address(BeValue(b)) == b
  {
    LeInverse([b[3], b[2], b[1], b[0]]);
  }

  /** address(0x50000), where the system image is written. */
  lemma SysupgradeAddress()
    ensures Address(0x50000) == [0x00, 0x05, 0x00, 0x00]
  {
    LeByteAt(0x50000, 4, 0);
    LeByteAt(0x50000, 4, 1);
    LeByteAt(0x50000, 4, 2);
    LeByteAt(0x50000, 4, 3);
  }

  // ---------------------------------------------------------------------
  // transaction()

  /** What one transaction puts on the bus: the OUT packet and the length
      asked of the IN endpoint (0 when nothing is read). */
  datatype Transfer = Transfer(out: seq<Byte>, inLength: nat)

  /** `int(status_poll) | (int(wren) << 1)` */
  function Flags(statusPoll: bool, wren: bool): (r: Byte)
    ensures HasBit(r, 0) == statusPoll && HasBit(r, 1) == wren
    ensures BitsBelow(r, 2)
  {
    (if statusPoll then 1 else 0) | (if wren then 2 else 0)
  }

  /** Flash.transaction: rejects oversize requests, sends the header and the
      write bytes, and asks for max(read, 512) bytes only when read > 0. */
  function Transaction(write: seq<Byte>, read: int, statusPoll: bool, wren: bool): (r: Result<Transfer>)
    ensures r.Ok? <==> |write| <= MaxWrite && read < MaxRead
    ensures r.Ok? ==> |r.value.out| == 4 + |write| && r.value.out[4..] == write
    ensures r.Ok? ==> (r.value.inLength == 0 <==> read <= 0)
    ensures r.Ok? && read > 0 ==> r.value.inLength >= read && r.value.inLength >= MinInRead
  {
    if |write| > MaxWrite || read >= MaxRead then Err("Transaction too large")
    else
      var hdr := LeBytes(read, 3) + [Flags(statusPoll, wren)];
      Ok(Transfer(hdr + write, if read > 0 then (if read > MinInRead then read else MinInRead) else 0))
  }

  /** What a transaction returns, given the bytes the IN endpoint delivered:
      nothing is read, and the result is empty, when no reply was asked for. */
  function Returned(t: Transfer, received: seq<Byte>): (r: seq<Byte>)
    ensures t.inLength == 0 ==> r == []
  {
    if t.inLength > 0 then received else []
  }

  /** The fields of a transaction as the device-side reader sees them. */
  datatype Request = Request(read: nat, statusPoll: bool, wren: bool, write: seq<Byte>)

  /** Reads a transaction packet back: the header's 3-byte length, the two
      flag bits (no other bit may be set) and the write bytes. */
  function ParseRequest(out: seq<Byte>): (r: Option<Request>)
    ensures r.Some? ==> |out| == 4 + |r.value.write| && r.value.read < MaxRead
  {
    if |out| < 4 || !BitsBelow(out[3], 2) then None
    else
      assert Pow256(3) == MaxRead;
      Some(Request(LeValue(out[..3]), HasBit(out[3], 0), HasBit(out[3], 1), out[4..]))
  }

  /** The header carries the read length modulo 2^24 (exactly, for the
      non-negative lengths callers pass) and the two flags. */
  lemma TransactionParses(write: seq<Byte>, read: int, statusPoll: bool, wren: bool)
    requires Transaction(write, read, statusPoll, wren).Ok?
    ensures ParseRequest(Transaction(write, read, statusPoll, wren).value.out)
         == Some(Request(read % MaxRead, statusPoll, wren, write))
    ensures read >= 0 ==> read % MaxRead == read
  {
    var out := Transaction(write, read, statusPoll, wren).value.out;
    assert out[..3] == LeBytes(read, 3);
    assert out[3] == Flags(statusPoll, wren);
    LeRoundTrip(read, 3);
    assert Pow256(3) == MaxRead;
    if read >= 0 {
      DivModUnique(read, MaxRead, 0, read);
    }
  }

  /** Conversely every well-formed packet with at most 500 write bytes is
      what transaction() sends for the fields it carries. */
  lemma ParsedRequestIsSent(out: seq<Byte>)
    requires ParseRequest(out).Some? && |ParseRequest(out).value.write| <= MaxWrite
    ensures var q := ParseRequest(out).value;
      Transaction(q.write, q.read, q.statusPoll, q.wren) == Ok(Transfer(out, if q.read > 0 then (if q.read > MinInRead then q.read else MinInRead) else 0))
  {
    var q := ParseRequest(out).value;
    LeInverse(out[..3]);
    FlagsInverse(out[3]);
    assert out == out[..3] + [out[3]] + out[4..];
  }

  lemma FlagsInverse(f: Byte)
    requires BitsBelow(f, 2)
    ensures Flags(HasBit(f, 0), HasBit(f, 1)) == f
  {
    assert !HasBit(f, 2) && !HasBit(f, 3) && !HasBit(f, 4);
    assert !HasBit(f, 5) && !HasBit(f, 6) && !HasBit(f, 7);
    assert f & 0xfc == 0;
  }

  // ---------------------------------------------------------------------
  // The flash commands

  /** The SPI flash instructions the script issues, one transaction each. */
  datatype Command =
    | ReadId                          // rdid: 0x9F, 3 bytes back
    | ReadData(addr: int, length: int) // read: 0x13 + 4-byte address
    | WriteEnable                     // wren: 0x06
    | ReadStatus                      // status: 0x05, 1 byte back
    | SectorErase(addr: int)          // 0xDC + 4-byte address
    | BulkErase                       // chip_erase: 0x60
    | PageProgram(addr: int, data: seq<Byte>) // write_page: 0x12 + address + data

  /** The transaction each command method issues. */
  function Encode(c: Command): (r: Result<Transfer>)
  {
    match c
    case ReadId => Transaction([0x9f], 3, false, false)
    case ReadData(addr, length) => Transaction([0x13] + Address(addr), length, false, false)
    case WriteEnable => Transaction([0x06], 0, false, false)
    case ReadStatus => Transaction([0x05], 1, false, false)
    case SectorErase(addr) => Transaction([0xdc] + Address(addr), 0, false, false)
    case BulkErase => Transaction([0x60], 0, false, false)
    case PageProgram(addr, data) => Transaction([0x12] + Address(addr) + data, 0, true, true)
  }

  /** The commands whose transaction is accepted and whose fields survive
      the wire: addresses below 4 GB, read lengths in 0 .. 2^24-1, at most
      495 data bytes to program. */
  predicate Encodable(c: Command)
  {
    match c
    case ReadData(addr, length) => 0 <= addr < U32 && 0 <= length < MaxRead
    case SectorErase(addr) => 0 <= addr < U32
    case PageProgram(addr, data) => 0 <= addr < U32 && |data| <= MaxWrite - 5
    case _ => true
  }

  /** The device-side reading of a transaction packet as a flash command. */
  function Decode(out: seq<Byte>): (r: Option<Command>)
  {
    match ParseRequest(out)
    case None => None
    case Some(q) => DecodeRequest(q)
  }

  /** The flash command a transaction's fields stand for, if any. */
  function DecodeRequest(q: Request): (r: Option<Command>)
  {
      var w := q.write;
      var plain := !q.statusPoll && !q.wren;
      if |w| == 1 && w[0] == 0x9f && q.read == 3 && plain then Some(ReadId)
      else if |w| == 5 && w[0] == 0x13 && plain then Some(ReadData(BeValue(w[1..5]), q.read))
      else if |w| == 1 && w[0] == 0x06 && q.read == 0 && plain then Some(WriteEnable)
      else if |w| == 1 && w[0] == 0x05 && q.read == 1 && plain then Some(ReadStatus)
      else if |w| == 5 && w[0] == 0xdc && q.read == 0 && plain then Some(SectorErase(BeValue(w[1..5])))
      else if |w| == 1 && w[0] == 0x60 && q.read == 0 && plain then Some(BulkErase)
      else if |w| >= 5 && w[0] == 0x12 && q.read == 0 && q.statusPoll && q.wren then
        Some(PageProgram(BeValue(w[1..5]), w[5..]))
      else None
  }

  /** A command's transaction is accepted exactly when its read length is
      below 2^24 and its data fits; the accepted encodable ones decode back
      to the same command. */
  lemma EncodeAccepts(c: Command)
    ensures Encode(c).Ok? <==> match c
      case ReadData(_, length) => length < MaxRead
      case PageProgram(_, data) => |data| <= MaxWrite - 5
      case _ => true
  {
  }

  lemma EncodeDecode(c: Command)
    requires Encodable(c)
    ensures Encode(c).Ok? && Decode(Encode(c).value.out) == Some(c)
  {
    if c.ReadData? || c.SectorErase? || c.PageProgram? {
      AddressedCommandDecodes(c);
    } else {
      PlainCommandDecodes(c);
    }
  }

  lemma PlainCommandDecodes(c: Command)
    requires !(c.ReadData? || c.SectorErase? || c.PageProgram?)
    ensures Encode(c).Ok? && Decode(Encode(c).value.out) == Some(c)
  {
    match c
    case ReadId =>
      TransactionParses([0x9f], 3, false, false);
    case WriteEnable =>
      TransactionParses([0x06], 0, false, false);
    case ReadStatus =>
      TransactionParses([0x05], 1, false, false);
    case BulkErase =>
      TransactionParses([0x60], 0, false, false);
  }

  lemma AddressedCommandDecodes(c: Command)
    requires (c.ReadData? || c.SectorErase? || c.PageProgram?) && Encodable(c)
    ensures Encode(c).Ok? && Decode(Encode(c).value.out) == Some(c)
  {
    match c
    case ReadData(addr, length) => ReadDataDecodes(addr, length);
    case SectorErase(addr) => SectorEraseDecodes(addr);
    case PageProgram(addr, data) => PageProgramDecodes(addr, data);
  }

  lemma ReadDataDecodes(addr: int, length: int)
    requires Encodable(ReadData(addr, length))
    ensures Encode(ReadData(addr, length)).Ok?
    ensures Decode(Encode(ReadData(addr, length)).value.out) == Some(ReadData(addr, length))
  {
    AddressedDecodes(0x13, addr, [], length, false, false);
    assert [0x13] + Address(addr) + [] == [0x13] + Address(addr);
  }

  lemma SectorEraseDecodes(addr: int)
    requires Encodable(SectorErase(addr))
    ensures Encode(SectorErase(addr)).Ok?
    ensures Decode(Encode(SectorErase(addr)).value.out) == Some(SectorErase(addr))
  {
    AddressedDecodes(0xdc, addr, [], 0, false, false);
    assert [0xdc] + Address(addr) + [] == [0xdc] + Address(addr);
  }

  lemma PageProgramDecodes(addr: int, data: seq<Byte>)
    requires Encodable(PageProgram(addr, data))
    ensures Encode(PageProgram(addr, data)).Ok?
    ensures Decode(Encode(PageProgram(addr, data)).value.out) == Some(PageProgram(addr, data))
  {
    AddressedDecodes(0x12, addr, data, 0, true, true);
  }

  /** An instruction byte followed by an address and more bytes reads back
      with the address and the bytes unchanged. */
  lemma AddressedDecodes(op: Byte, addr: int, tail: seq<Byte>, read: int, statusPoll: bool, wren: bool)
    requires 0 <= addr < U32 && 0 <= read < MaxRead && |tail| <= MaxWrite - 5
    ensures var w := [op] + Address(addr) + tail;
      Transaction(w, read, statusPoll, wren).Ok?
      && ParseRequest(Transaction(w, read, statusPoll, wren).value.out) == Some(Request(read, statusPoll, wren, w))
      && |w| >= 5 && w[0] == op && BeValue(w[1..5]) == addr && w[5..] == tail
  {
    var w := [op] + Address(addr) + tail;
    TransactionParses(w, read, statusPoll, wren);
    assert w[1..5] == Address(addr);
    AddressRoundTrip(addr);
  }

  /** erase_sector and chip_erase set the write-enable latch first. */
  function EraseSectorOps(addr: int): (r: seq<Command>)
    ensures |r| == 2 && r[0] == WriteEnable && r[1] == SectorErase(addr)
  {
    [WriteEnable, SectorErase(addr)]
  }

  function ChipEraseOps(): (r: seq<Command>)
    ensures |r| == 2 && r[0] == WriteEnable && r[1] == BulkErase
  {
    [WriteEnable, BulkErase]
  }

  /** check_id: the rdid reply must be exactly the Spansion S25FL256 ID. */
  function CheckId(received: seq<Byte>): (r: Result<()>)
    ensures r.Ok? <==> Returned(Encode(ReadId).value, received) == [0x01, 0x02, 0x19]
  {
    var t := Encode(ReadId);
    if Returned(t.value, received) == [0x01, 0x02, 0x19] then Ok(())
    else Err("Invalid chip ID (flash communication error)")
  }

  // ---------------------------------------------------------------------
  // wait_complete()

  /** wait_complete over the status bytes the successive polls return:
      polls until one has the WIP bit (bit 0) clear, sleeping 0.1 s after
      each busy poll from the 51st on. When the given polls are all busy the
      real loop would go on; `done` is then false. */
  method WaitComplete(statuses: seq<Byte>) returns (done: bool, polls: nat, sleeps: nat)
    ensures done <==> exists k :: 0 <= k < |statuses| && !HasBit(statuses[k], 0)
    ensures done ==> 1 <= polls <= |statuses| && !HasBit(statuses[polls - 1], 0)
    ensures !done ==> polls == |statuses|
    ensures forall k :: 0 <= k < polls - (if done then 1 else 0) ==> HasBit(statuses[k], 0)
    ensures sleeps == (var busy := polls - (if done then 1 else 0); if busy > 50 then busy - 50 else 0)
  {
    var count := 0;
    sleeps := 0;
    done := false;
    while count < |statuses|
      invariant 0 <= count <= |statuses|
      invariant forall k :: 0 <= k < count ==> HasBit(statuses[k], 0)
      invariant sleeps == (if count > 50 then count - 50 else 0)
    {
      count := count + 1;
      var s := statuses[count - 1];
      if !HasBit(s, 0) {
        done := true;
        polls := count;
        sleeps := if count - 1 > 50 then count - 1 - 50 else 0;
        return;
      }
      if count > 50 {
        sleeps := sleeps + 1;
      }
    }
    polls := count;
  }

  // ---------------------------------------------------------------------
  // chunks() and write()

  function Flatten<T>(ss: seq<seq<T>>): seq<T>
  {
    if ss == [] then [] else ss[0] + Flatten(ss[1..])
  }

  /** chunks(l, n): consecutive slices of `l` of length n, the last one
      possibly shorter, in order. */
  function Chunks<T>(l: seq<T>, n: nat): (r: seq<seq<T>>)
    requires n > 0
    ensures Flatten(r) == l
    decreases |l|
  {
    if |l| == 0 then []
    else if |l| <= n then [l]
    else
      var rest := Chunks(l[n..], n);
      assert l == l[..n] + l[n..];
      [l[..n]] + rest
  }

  /** Chunk i is the source's slice `l[i*n : i*n+n]`, clipped at the end. */
  lemma {:induction false} ChunkAt<T>(l: seq<T>, n: nat, i: nat)
    requires n > 0 && i < |Chunks(l, n)|
    ensures i * n < |l| && Chunks(l, n)[i] == l[i * n .. Min(i * n + n, |l|)]
    decreases |l|
  {
    if i == 0 {
      ChunkHead(l, n);
    } else {
      var rest := l[n..];
      ChunksTail(l, n);
      ChunkAt(rest, n, i - 1);
      var s := (i - 1) * n;
      MulSucc(i - 1, n);
      SliceShift(l, n, s, Min(s + n, |rest|));
    }
  }

  lemma ChunkHead<T>(l: seq<T>, n: nat)
    requires n > 0 && |Chunks(l, n)| > 0
    ensures 0 < |l| && Chunks(l, n)[0] == l[.. Min(n, |l|)]
  {
  }

  lemma ChunksTail<T>(l: seq<T>, n: nat)
    requires n > 0 && |l| > n
    ensures Chunks(l, n) == [l[..n]] + Chunks(l[n..], n)
  {
  }

  lemma MulSucc(k: nat, n: nat)
    ensures (k + 1) * n == k * n + n
  {
  }

  lemma SliceShift<T>(l: seq<T>, n: nat, a: nat, b: nat)
    requires n <= |l| && a <= b <= |l| - n
    ensures l[n..][a..b] == l[n + a .. n + b]
  {
  }

  /** Every chunk is non-empty and at most n long, and all but the last
      are exactly n long. */
  lemma ChunkSizes<T>(l: seq<T>, n: nat, i: nat)
    requires n > 0 && i < |Chunks(l, n)|
    ensures 0 < |Chunks(l, n)[i]| <= n
    ensures i < |Chunks(l, n)| - 1 ==> |Chunks(l, n)[i]| == n
  {
    ChunkAt(l, n, i);
    if i < |Chunks(l, n)| - 1 {
      ChunkAt(l, n, i + 1);
      MulSucc(i, n);
    }
  }

  /** There are ceil(len(l) / n) chunks. */
  lemma {:induction false} ChunkCount<T>(l: seq<T>, n: nat)
    requires n > 0
    ensures (|Chunks(l, n)| - 1) * n < |l| <= |Chunks(l, n)| * n
    decreases |l|
  {
    if |l| > n {
      ChunkCount(l[n..], n);
      var k := |Chunks(l[n..], n)|;
      assert (k + 1) * n == k * n + n;
      assert k * n == (k - 1) * n + n;
    }
  }

  /** write(addr, data): page i of the data is programmed at addr + i*256. */
  function WritePlan(addr: int, data: seq<Byte>): (r: seq<Command>)
    ensures |r| == |Chunks(data, Page)|
  {
    var pages := Chunks(data, Page);
    seq(|pages|, i requires 0 <= i < |pages| => PageProgram(addr + i * Page, pages[i]))
  }

  /** Every page write is accepted, page i programs the data's bytes
      i*256 .. i*256+255 at addr + i*256, and the pages tile the data. */
  lemma WritePlanCovers(addr: int, data: seq<Byte>, i: nat)
    requires i < |WritePlan(addr, data)|
    ensures Encode(WritePlan(addr, data)[i]).Ok?
    ensures i * Page < |data| && WritePlan(addr, data)[i] == PageProgram(addr + i * Page, data[i * Page .. Min(i * Page + Page, |data|)])
  {
    ChunkAt(data, Page, i);
  }

  // ---------------------------------------------------------------------
  // factory()

  const FactoryHeader: seq<Byte> := [0x20, 0x76, 0x03, 0x01]
  const MacLength := 6

  /** factory: the MediaTek factory partition holding the two MAC addresses. */
  function Factory(mac1: seq<Byte>, mac2: seq<Byte>): (r: seq<Byte>)
    ensures |r| == 4 + |mac1| + 30 + |mac2|
  {
    FactoryHeader + mac1 + seq(30, _ => 0xff) + mac2
  }

  /** Reads the two MAC addresses back out of a factory partition. */
  function ParseFactory(b: seq<Byte>): (r: Option<(seq<Byte>, seq<Byte>)>)
    ensures r.Some? ==> |r.value.0| == MacLength && |r.value.1| == MacLength
  {
    if |b| == 4 + MacLength + 30 + MacLength && b[..4] == FactoryHeader
       && forall k :: 4 + MacLength <= k < 4 + MacLength + 30 ==> b[k] == 0xff
    then Some((b[4 .. 4 + MacLength], b[4 + MacLength + 30 ..]))
    else None
  }

  /** The partition's layout: header, mac1, 30 bytes of 0xff, mac2, so the
      MACs read back unchanged; and only such byte strings parse. */
  lemma FactoryRoundTrip(mac1: seq<Byte>, mac2: seq<Byte>)
    requires |mac1| == MacLength && |mac2| == MacLength
    ensures ParseFactory(Factory(mac1, mac2)) == Some((mac1, mac2))
  {
    var b := Factory(mac1, mac2);
    assert b[..4] == FactoryHeader;
    assert b[4 .. 4 + MacLength] == mac1;
    assert b[4 + MacLength + 30 ..] == mac2;
    forall k | 4 + MacLength <= k < 4 + MacLength + 30
      ensures b[k] == 0xff
    {
      assert b[k] == (FactoryHeader + mac1 + seq(30, _ => 0xff))[k];
    }
  }

  lemma ParsedFactoryIsBuilt(b: seq<Byte>)
    requires ParseFactory(b).Some?
    ensures Factory(ParseFactory(b).value.0, ParseFactory(b).value.1) == b
  {
    var m := ParseFactory(b).value;
    assert b[4 + MacLength .. 4 + MacLength + 30] == seq(30, _ => 0xff);
    assert b == b[..4] + m.0 + b[4 + MacLength .. 4 + MacLength + 30] + m.1;
  }
}
