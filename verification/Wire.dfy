/**
  Byte-level primitives of the consensus codec: big-endian integers, exact
  reads from a byte stream, and the bounded reader that stops a nested decoder
  after a fixed number of bytes.

  A stream is the sequence of bytes still to be read.  A decoder maps it to a
  value and the bytes left over, so the number of bytes consumed is the
  difference of the two lengths.
 */
module Wire {

  type byte = x: int | 0 <= x < 0x100
  type u16 = x: int | 0 <= x < 0x1_0000
  type u32 = x: int | 0 <= x < 0x1_0000_0000
  type u64 = x: int | 0 <= x < 0x1_0000_0000_0000_0000
  type u128 = x: int | 0 <= x < 0x1_0000_0000_0000_0000_0000_0000_0000_0000

  type Bytes = seq<byte>

  const MAX_U16: nat := 0xffff
  const MAX_U32: nat := 0xffff_ffff

  /** The two ways a read can fail: the stream ran out, or its bytes are not an encoding. */
  datatype CodecError = ReadError | DeserializeError

  datatype Parsed<+T> = Ok(value: T, rest: Bytes) | Err(error: CodecError) {
    predicate IsFailure() { Err? }

    function PropagateFailure<U>(): Parsed<U>
      requires Err?
    {
      Err(error)
    }

    function Extract(): (T, Bytes)
      requires Ok?
    {
      (value, rest)
    }
  }

  // ---------- Big-endian integers ----------

  function Pow256(n: nat): nat {
    if n == 0 then 1 else 256 * Pow256(n - 1)
  }

  lemma Pow256Values()
    ensures Pow256(1) == 0x100
    ensures Pow256(2) == 0x1_0000
    ensures Pow256(4) == 0x1_0000_0000
    ensures Pow256(8) == 0x1_0000_0000_0000_0000
    ensures Pow256(16) == 0x1_0000_0000_0000_0000_0000_0000_0000_0000
  {
    assert Pow256(2) == 256 * Pow256(1) && Pow256(3) == 256 * Pow256(2);
    assert Pow256(5) == 256 * Pow256(4) && Pow256(6) == 256 * Pow256(5);
    assert Pow256(7) == 256 * Pow256(6) && Pow256(8) == 256 * Pow256(7);
    assert Pow256(9) == 256 * Pow256(8) && Pow256(10) == 256 * Pow256(9);
    assert Pow256(11) == 256 * Pow256(10) && Pow256(12) == 256 * Pow256(11);
    assert Pow256(13) == 256 * Pow256(12) && Pow256(14) == 256 * Pow256(13);
    assert Pow256(15) == 256 * Pow256(14) && Pow256(16) == 256 * Pow256(15);
  }

  /** The low `n` bytes of `x`, most significant first. */
  function BigEndian(n: nat, x: nat): (b: Bytes)
    ensures |b| == n
  {
    if n == 0 then [] else BigEndian(n - 1, x / 256) + [x % 256]
  }

  function FromBigEndian(b: Bytes): nat {
    if b == [] then 0 else 256 * FromBigEndian(b[..|b| - 1]) + b[|b| - 1]
  }

  lemma {:induction false} BigEndianRoundTrip(n: nat, x: nat)
    requires x < Pow256(n)
    ensures FromBigEndian(BigEndian(n, x)) == x
  {
    if n > 0 {
      BigEndianRoundTrip(n - 1, x / 256);
      assert BigEndian(n, x)[..n - 1] == BigEndian(n - 1, x / 256);
    }
  }

  /** Byte `i` of `n` counts in steps of 256 to the power of the bytes after it. */
  lemma {:induction false} BigEndianAt(n: nat, x: nat, i: nat)
    requires i < n
    ensures Pow256(n - 1 - i) > 0 && BigEndian(n, x)[i] == x / Pow256(n - 1 - i) % 256
  {
    if i < n - 1 {
      BigEndianAt(n - 1, x / 256, i);
      DivideTwice(x, 256, Pow256(n - 2 - i));
    }
  }

  lemma Distributes(d: nat, a: nat, b: nat)
    ensures d * (a + b) == d * a + d * b
  {
  }

  lemma {:induction false} AtLeastOnce(d: nat, k: nat)
    requires k > 0
    ensures d * k >= d
  {
    Distributes(d, k - 1, 1);
  }

  lemma MultiplesApart(d: nat, a: nat, b: nat)
    requires a < b
    ensures d * a + d <= d * b
  {
    Distributes(d, a, b - a);
    AtLeastOnce(d, b - a);
  }

  lemma QuotientIs(x: nat, d: nat, q: nat, e: nat)
    requires d * q <= x < d * q + d && d * e <= x < d * e + d
    ensures q == e
  {
    if e < q {
      MultiplesApart(d, e, q);
    } else if q < e {
      MultiplesApart(d, q, e);
    }
  }

  lemma QuotientBounds(x: nat, d: nat)
    requires d > 0
    ensures d * (x / d) <= x < d * (x / d) + d
  {
  }

  lemma Associates(a: nat, b: nat, c: nat)
    ensures (a * b) * c == a * (b * c)
  {
  }

  /** With `p` the first quotient and `q` the second. */
  lemma QuotientsBound(x: nat, a: nat, y: nat, p: nat, q: nat)
    requires a * p <= x < a * p + a && y * q <= p < y * q + y
    ensures (a * y) * q <= x < (a * y) * q + a * y
  {
    Associates(a, y, q);
    Distributes(a, y * q, p - y * q);
    MultiplesApart(a, p - y * q, y);
  }

  lemma DivideTwice(x: nat, a: nat, y: nat)
    requires a > 0 && y > 0
    ensures a * y > 0 && x / a / y == x / (a * y)
  {
    AtLeastOnce(a, y);
    var p := x / a;
    QuotientBounds(x, a);
    QuotientBounds(p, y);
    QuotientsBound(x, a, y, p, p / y);
    QuotientBounds(x, a * y);
    QuotientIs(x, a * y, p / y, x / (a * y));
  }

  lemma {:induction false} FromBigEndianBound(b: Bytes)
    ensures FromBigEndian(b) < Pow256(|b|)
  {
    if b != [] {
      FromBigEndianBound(b[..|b| - 1]);
    }
  }

  lemma LastByte(x: nat, last: byte)
    ensures (256 * x + last) / 256 == x && (256 * x + last) % 256 == last
  {
  }

  lemma {:induction false} FromBigEndianInjective(b: Bytes)
    ensures BigEndian(|b|, FromBigEndian(b)) == b
  {
    if b != [] {
      FromBigEndianInjective(b[..|b| - 1]);
      LastByte(FromBigEndian(b[..|b| - 1]), b[|b| - 1]);
      assert b == b[..|b| - 1] + [b[|b| - 1]];
    }
  }

  // ---------- Exact reads ----------

  function ReadExact(b: Bytes, n: nat): Parsed<Bytes> {
    if |b| < n then Err(ReadError) else Ok(b[..n], b[n..])
  }

  function ReadInt(b: Bytes, n: nat): Parsed<nat> {
    var (x, rest) :- ReadExact(b, n);
    Ok(FromBigEndian(x), rest)
  }

  function ReadU8(b: Bytes): Parsed<byte> {
    if b == [] then Err(ReadError) else Ok(b[0], b[1..])
  }

  lemma ReadExactAppend(x: Bytes, s: Bytes)
    ensures ReadExact(x + s, |x|) == Ok(x, s)
  {
    assert (x + s)[..|x|] == x && (x + s)[|x|..] == s;
  }

  lemma ReadIntAppend(n: nat, x: nat, s: Bytes)
    requires x < Pow256(n)
    ensures ReadInt(BigEndian(n, x) + s, n) == Ok(x, s)
  {
    ReadExactAppend(BigEndian(n, x), s);
    BigEndianRoundTrip(n, x);
  }

  lemma ReadU8Append(x: byte, s: Bytes)
    ensures ReadU8([x] + s) == Ok(x, s)
  {
    assert ([x] + s)[1..] == s;
  }

  function ReadU16(b: Bytes): (r: Parsed<u16>)
  {
    Pow256Values();
    var (x, rest) :- ReadInt(b, 2);
    FromBigEndianBound(b[..2]);
    Ok(x, rest)
  }

  function ReadU32(b: Bytes): (r: Parsed<u32>)
  {
    Pow256Values();
    var (x, rest) :- ReadInt(b, 4);
    FromBigEndianBound(b[..4]);
    Ok(x, rest)
  }

  function ReadU64(b: Bytes): (r: Parsed<u64>)
  {
    Pow256Values();
    var (x, rest) :- ReadInt(b, 8);
    FromBigEndianBound(b[..8]);
    Ok(x, rest)
  }

  function ReadU128(b: Bytes): (r: Parsed<u128>)
  {
    Pow256Values();
    var (x, rest) :- ReadInt(b, 16);
    FromBigEndianBound(b[..16]);
    Ok(x, rest)
  }

  function PutU16(x: u16): (b: Bytes)
    ensures |b| == 2
  {
    BigEndian(2, x)
  }

  function PutU32(x: u32): (b: Bytes)
    ensures |b| == 4
  {
    BigEndian(4, x)
  }

  function PutU64(x: u64): (b: Bytes)
    ensures |b| == 8
  {
    BigEndian(8, x)
  }

  function PutU128(x: u128): (b: Bytes)
    ensures |b| == 16
  {
    BigEndian(16, x)
  }

  lemma ReadU16Put(x: u16, s: Bytes)
    ensures ReadU16(PutU16(x) + s) == Ok(x, s)
  {
    Pow256Values();
    ReadIntAppend(2, x, s);
  }

  lemma ReadU32Put(x: u32, s: Bytes)
    ensures ReadU32(PutU32(x) + s) == Ok(x, s)
  {
    Pow256Values();
    ReadIntAppend(4, x, s);
  }

  lemma ReadU64Put(x: u64, s: Bytes)
    ensures ReadU64(PutU64(x) + s) == Ok(x, s)
  {
    Pow256Values();
    ReadIntAppend(8, x, s);
  }

  lemma ReadU128Put(x: u128, s: Bytes)
    ensures ReadU128(PutU128(x) + s) == Ok(x, s)
  {
    Pow256Values();
    ReadIntAppend(16, x, s);
  }

  // ---------- Bounded reader ----------

  /** What a reader limited to `max` bytes can see of the stream. */
  function Window(b: Bytes, max: nat): Bytes {
    if |b| <= max then b else b[..max]
  }

  /** Hands the bytes beyond the window back to the outer reader. */
  function Reopen<T>(p: Parsed<T>, b: Bytes, max: nat): Parsed<T> {
    match p
    case Ok(v, r) => Ok(v, r + b[|Window(b, max)|..])
    case Err(e) => Err(e)
  }

  /** A prefix that fits the window is seen whole. */
  lemma WindowAppend(x: Bytes, s: Bytes, max: nat)
    requires |x| <= max
    ensures Window(x + s, max) == x + Window(s, max - |x|)
    ensures Window(s, max - |x|) + (x + s)[|Window(x + s, max)|..] == s
  {
    if |x + s| > max {
      assert (x + s)[..max] == x + s[..max - |x|];
      assert (x + s)[max..] == s[max - |x|..];
    }
  }

  lemma Assoc(a: Bytes, b: Bytes, c: Bytes)
    ensures (a + b) + c == a + (b + c)
  {
  }
}
