/** Shared vocabulary: bytes, bit masks over one byte, and the Option/Result
    wrappers that stand for C error returns, JavaScript exceptions and
    Python/Rust failures. */
module Common {

  /** One byte on a wire or in a buffer. Bit operations are the bit-vector ones,
      so `|`, `&`, `<<` and `>>` behave exactly as on a C `uint8_t`. */
  type Byte = bv8

  /** A byte used as a number: a C `u8` in arithmetic, a byte value in
      JavaScript, Python or Rust. Wrap-around is always written out. */
  newtype Octet = x: int | 0 <= x < 256

  /** The C conversion of an integer to `u8`: the value modulo 256. */
  function Wrap(x: int): (r: Octet)
    ensures r as int == x % 256
  {
    (x % 256) as Octet
  }

  datatype Option<+T> = None | Some(value: T)

  /** A computation that either produces a value or raises an error. */
  datatype Result<+T> = Ok(value: T) | Err(msg: string)

  /** `1 << c`: the mask of bit `c` of a byte, spelled out per bit. */
  function Mask(c: nat): Byte
    requires c < 8
  {
    if c == 0 then 1 else if c == 1 then 2 else if c == 2 then 4 else if c == 3 then 8
    else if c == 4 then 16 else if c == 5 then 32 else if c == 6 then 64 else 128
  }

  /** `m & (1 << c)` is non-zero. */
  predicate HasBit(m: Byte, c: nat)
    requires c < 8
  {
    m & Mask(c) != 0
  }

  /** `m |= 1 << c` */
  function SetBit(m: Byte, c: nat): (r: Byte)
    requires c < 8
    ensures forall d :: 0 <= d < 8 ==> (HasBit(r, d) <==> d == c || HasBit(m, d))
  {
    m | Mask(c)
  }

  /** `m &= ~(1 << c)` */
  function ClearBit(m: Byte, c: nat): (r: Byte)
    requires c < 8
    ensures forall d :: 0 <= d < 8 ==> (HasBit(r, d) <==> d != c && HasBit(m, d))
  {
    m & !Mask(c)
  }

  /** A byte with no bit at or above `n` set. */
  predicate BitsBelow(m: Byte, n: nat)
    requires n <= 8
  {
    forall d :: n <= d < 8 ==> !HasBit(m, d)
  }

  /** `n` zero bytes. */
  function Zeros(n: nat): (r: seq<Byte>)
    ensures |r| == n
    ensures forall i :: 0 <= i < n ==> r[i] == 0
  {
    seq(n, _ => 0)
  }

  function Min(a: int, b: int): int
  {
    if a < b then a else b
  }

  /** The byte whose value is the natural number `n < 256`, counted up one
      at a time so that no integer-to-bit-vector conversion is needed. */
  function ToByte(n: int): (r: Byte)
    requires 0 <= n < 256
    ensures r as int == n
  {
    if n == 0 then 0 else ToByte(n - 1) + 1
  }

  /** Converting a byte to its value and back gives the byte. */
  lemma ToByteOfByte(x: Byte)
    ensures ToByte(x as int) == x
  {
    var y := ToByte(x as int);
    assert y as int == x as int;
  }

  /** Appending a byte below a number under `k` gives a number under `256 * k`. */
  lemma ByteStep(lo: nat, hi: nat, k: nat)
    requires lo < 256 && hi < k
    ensures lo + 256 * hi < 256 * k
  {
  }

  // ---------------------------------------------------------------------------
  // Sequence identities, kept apart so that proofs about costly functions
  // do not have to rediscover them

  lemma EmptyPrefix<T>(x: seq<T>)
    ensures [] + x == x
  {
  }

  lemma AppendAssoc<T>(x: seq<T>, y: seq<T>, z: seq<T>)
    ensures x + (y + z) == x + y + z
  {
  }

  lemma ConsAppend<T>(a: seq<T>, b: seq<T>)
    requires a != []
    ensures (a + b)[0] == a[0] && (a + b)[1..] == a[1..] + b
  {
  }

  lemma DropPrefix<T>(x: seq<T>, y: seq<T>)
    ensures (x + y)[|x|..] == y
  {
  }

  lemma SplitHead<T>(s: seq<T>)
    requires s != []
    ensures [s[0]] + s[1..] == s
  {
  }

  lemma SliceAppend<T>(x: seq<T>, y: seq<T>, n: nat)
    requires n <= |x|
    ensures (x + y)[..n] == x[..n] && (x + y)[n..] == x[n..] + y
  {
  }

  lemma TakeDrop<T>(s: seq<T>, i: nat)
    requires i <= |s|
    ensures s[..i] + s[i..] == s
  {
  }
}
