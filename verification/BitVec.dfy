/**
  A list of booleans packed eight to a byte, least significant bit first, with
  up to 65535 entries.
 */
module BitVec {
  import opened Wire
  import opened Codecs
  import opened Bits

  /** The two fields whose equality is the equality of bit vectors. */
  datatype Packed = Packed(data: Bytes, len: u16)

  function DataLen(len: u16): u16 {
    len / 8 + if len % 8 == 0 then 0 else 1
  }

  /** The data has exactly the bytes the length calls for. */
  predicate Fitting(p: Packed) {
    |p.data| == DataLen(p.len)
  }

  function BitsOf(p: Packed): (bits: seq<bool>)
    requires Fitting(p)
    ensures |bits| == p.len
  {
    seq(p.len, i requires 0 <= i < p.len => Bit(p.data[i / 8], i % 8))
  }

  /** The bits beyond the length are zero. */
  predicate PaddingZero(p: Packed) {
    forall j | p.len <= j < 8 * |p.data| :: !Bit(p.data[j / 8], j % 8)
  }

  function SetAt(p: Packed, i: nat, val: bool): Packed
    requires Fitting(p) && i < p.len
  {
    var byte := if val then SetBit(p.data[i / 8], i % 8) else ClearBit(p.data[i / 8], i % 8);
    p.(data := p.data[i / 8 := byte])
  }

  function Zeros(len: u16): Packed {
    Packed(seq(DataLen(len), _ => 0), len)
  }

  /** Sets the first `n` of the listed booleans in a vector of zeros. */
  function Filled(values: seq<bool>, n: nat): (p: Packed)
    requires n <= |values| <= MAX_U16
    ensures Fitting(p) && p.len == |values|
  {
    if n == 0 then Zeros(|values|)
    else if values[n - 1] then SetAt(Filled(values, n - 1), n - 1, true)
    else Filled(values, n - 1)
  }

  function FromBits(values: seq<bool>): Packed
    requires |values| <= MAX_U16
  {
    Filled(values, |values|)
  }

  // ---------- The packed form is the sequence ----------

  lemma OtherBits(x: byte, k: nat, val: bool, j: nat)
    requires k < 8
    ensures Bit(if val then SetBit(x, k) else ClearBit(x, k), j) <==> if j == k then val else Bit(x, j)
  {
    OrBits(x, k, j);
    AndNotBits(x, k, j);
  }

  /** Setting an entry changes that entry and no other bit, in the list or in the padding. */
  lemma SetChangesOne(p: Packed, i: nat, val: bool, j: nat)
    requires Fitting(p) && i < p.len && j < 8 * |p.data|
    ensures Bit(SetAt(p, i, val).data[j / 8], j % 8) <==> if j == i then val else Bit(p.data[j / 8], j % 8)
  {
    if j / 8 == i / 8 {
      OtherBits(p.data[i / 8], i % 8, val, j % 8);
      assert j == i <==> j % 8 == i % 8;
    }
  }

  lemma SetIsUpdate(p: Packed, i: nat, val: bool)
    requires Fitting(p) && i < p.len
    ensures Fitting(SetAt(p, i, val)) && BitsOf(SetAt(p, i, val)) == BitsOf(p)[i := val]
    ensures PaddingZero(p) <==> PaddingZero(SetAt(p, i, val))
  {
    var q := SetAt(p, i, val);
    forall j | 0 <= j < 8 * |p.data|
      ensures Bit(q.data[j / 8], j % 8) <==> if j == i then val else Bit(p.data[j / 8], j % 8)
    {
      SetChangesOne(p, i, val, j);
    }
    assert forall j | 0 <= j < p.len :: BitsOf(q)[j] == if j == i then val else BitsOf(p)[j];
  }

  lemma ZerosAreFalse(len: u16)
    ensures Fitting(Zeros(len)) && PaddingZero(Zeros(len)) && BitsOf(Zeros(len)) == seq(len, _ => false)
  {
    forall k ensures !Bit(0, k) {
      ZeroBits(k);
    }
  }

  lemma {:induction false} FilledBits(values: seq<bool>, n: nat)
    requires n <= |values| <= MAX_U16
    ensures PaddingZero(Filled(values, n))
    ensures BitsOf(Filled(values, n)) == values[..n] + seq(|values| - n, _ => false)
  {
    if n == 0 {
      ZerosAreFalse(|values|);
    } else {
      FilledBits(values, n - 1);
      var p := Filled(values, n - 1);
      assert values[..n] == values[..n - 1] + [values[n - 1]];
      if values[n - 1] {
        SetIsUpdate(p, n - 1, true);
      }
    }
  }

  /** Packing a list keeps it, with zero padding. */
  lemma FromBitsKeeps(values: seq<bool>)
    requires |values| <= MAX_U16
    ensures PaddingZero(FromBits(values)) && BitsOf(FromBits(values)) == values
  {
    FilledBits(values, |values|);
    assert values[..|values|] == values;
  }

  /** With zero padding, vectors are equal exactly when they list the same booleans. */
  lemma EqualIffSameBits(p: Packed, q: Packed)
    requires Fitting(p) && Fitting(q) && PaddingZero(p) && PaddingZero(q)
    ensures p == q <==> BitsOf(p) == BitsOf(q)
  {
    if BitsOf(p) == BitsOf(q) {
      assert p.len == |BitsOf(p)| == |BitsOf(q)| == q.len;
      forall b | 0 <= b < |p.data| ensures p.data[b] == q.data[b] {
        forall k | 0 <= k < 8 ensures Bit(p.data[b], k) <==> Bit(q.data[b], k) {
          var j := 8 * b + k;
          assert j / 8 == b && j % 8 == k;
          if j < p.len {
            assert BitsOf(p)[j] == BitsOf(q)[j];
          }
        }
        SameByte(p.data[b], q.data[b]);
      }
    }
  }

  /** A vector equals the one its own booleans would build exactly when its padding is zero. */
  lemma CanonicalIff(p: Packed)
    requires Fitting(p)
    ensures p == FromBits(BitsOf(p)) <==> PaddingZero(p)
  {
    FromBitsKeeps(BitsOf(p));
    if PaddingZero(p) {
      EqualIffSameBits(p, FromBits(BitsOf(p)));
    }
  }

  // ---------- On the wire ----------

  function Put(p: Packed): Bytes {
    PutU16(p.len) + PutByteString(p.data)
  }

  /** The padding is not looked at. */
  function Get(max: u16, b: Bytes): Parsed<Packed> {
    var (len, b1) :- ReadU16(b);
    if len == 0 || len > max then Err(DeserializeError) else
    var (data, b2) :- GetByteString(n => n == DataLen(len), b1);
    Ok(Packed(data, len), b2)
  }

  function BitVecCodec(max: u16): Codec<Packed> {
    Codec(Put, b => Get(max, b), (p: Packed) => 1 <= p.len <= max && Fitting(p))
  }

  /** The number of entries in two bytes, the number of data bytes in four, and the data. */
  lemma PackedBytes(p: Packed)
    requires Fitting(p)
    ensures Put(p) == BigEndian(2, p.len) + (BigEndian(4, |p.data|) + p.data)
  {
  }

  lemma GetPut(max: u16, p: Packed, s: Bytes)
    requires 1 <= p.len <= max && Fitting(p)
    ensures Get(max, Put(p) + s) == Ok(p, s)
  {
    Assoc(PutU16(p.len), PutByteString(p.data), s);
    ReadU16Put(p.len, PutByteString(p.data) + s);
    ByteStringRoundTrip(n => n == DataLen(p.len), p.data, s);
  }

  /** Every nonempty vector within the limit round-trips, whatever follows it; the empty one never does. */
  lemma BitVecLawful(max: u16)
    ensures Lawful(BitVecCodec(max))
  {
    var c := BitVecCodec(max);
    forall p: Packed, s | c.ok(p) ensures c.get(c.put(p) + s) == Ok(p, s) {
      GetPut(max, p, s);
    }
    assert Inverts(c);
    forall b ensures GoodResult(c, b) {
      GetSound(max, b);
    }
  }

  lemma GetSound(max: u16, b: Bytes)
    ensures Get(max, b).Ok? ==>
              var p := Get(max, b).value;
              1 <= p.len <= max && Fitting(p) && IsSuffix(Get(max, b).rest, b) && |Put(p)| + |Get(max, b).rest| == |b|
  {
    if Get(max, b).Ok? {
      var b1 := ReadU16(b).rest;
      assert IsSuffix(b1, b) && 2 + |b1| == |b|;
      ByteStringLawful(n => n == DataLen(ReadU16(b).value));
      assert GoodResult(ByteString(n => n == DataLen(ReadU16(b).value)), b1);
      SuffixTransitive(Get(max, b).rest, b1, b);
    }
  }

  /** Decoding can produce two different vectors with the same booleans. */
  lemma DecodedPaddingMatters()
    ensures var p, q := Packed([1], 1), Packed([3], 1);
            && Get(8, Put(p)) == Ok(p, []) && Get(8, Put(q)) == Ok(q, [])
            && Fitting(p) && Fitting(q) && BitsOf(p) == BitsOf(q) && p != q
  {
    var p, q := Packed([1], 1), Packed([3], 1);
    GetPut(8, p, []);
    GetPut(8, q, []);
    assert Put(p) + [] == Put(p) && Put(q) + [] == Put(q);
    assert BitsOf(p) == [true] == BitsOf(q);
  }

  // ---------- Display ----------

  function Digit(bit: bool): char { if bit then '1' else '0' }

  /** Eight binary digits, most significant first. */
  function Binary(x: byte): string {
    seq(8, k requires 0 <= k < 8 => Digit(Bit(x, 7 - k)))
  }

  function Reversed(s: string): string {
    seq(|s|, k requires 0 <= k < |s| => s[|s| - 1 - k])
  }

  function AllDigits(data: Bytes): string {
    if data == [] then [] else AllDigits(data[..|data| - 1]) + Reversed(Binary(data[|data| - 1]))
  }

  function BinaryStr(p: Packed): string {
    var all := AllDigits(p.data);
    if |all| <= p.len then all else all[..p.len]
  }

  lemma {:induction false} AllDigitsAt(data: Bytes)
    ensures |AllDigits(data)| == 8 * |data|
    ensures forall j | 0 <= j < 8 * |data| :: AllDigits(data)[j] == Digit(Bit(data[j / 8], j % 8))
  {
    if data != [] {
      var n := |data| - 1;
      AllDigitsAt(data[..n]);
      forall j | 0 <= j < 8 * |data| ensures AllDigits(data)[j] == Digit(Bit(data[j / 8], j % 8)) {
        if j < 8 * n {
          assert data[..n][j / 8] == data[j / 8];
        } else {
          assert j / 8 == n && j % 8 == j - 8 * n;
        }
      }
    }
  }

  /** The string lists the entries in order. */
  lemma BinaryStrLists(p: Packed)
    requires Fitting(p)
    ensures BinaryStr(p) == seq(p.len, i requires 0 <= i < p.len => Digit(BitsOf(p)[i]))
  {
    AllDigitsAt(p.data);
  }

  // ---------- The object ----------

  class BitVector {
    var data: seq<byte>
    const len: u16
    const max: u16

    constructor (max: u16, len: u16)
      requires len <= max
      ensures Value() == Zeros(len) && this.max == max
    {
      this.data, this.len, this.max := seq(DataLen(len), _ => 0), len, max;
    }

    function Value(): Packed
      reads this
    {
      Packed(data, len)
    }

    predicate Valid()
      reads this
    {
      Fitting(Value())
    }

    method GetBit(i: u16) returns (bit: Option<bool>)
      requires Valid()
      ensures bit == if i < len then Some(BitsOf(Value())[i]) else None
    {
      if i >= len {
        return None;
      }
      return Some(Bit(data[i / 8], i % 8));
    }

    method Set(i: u16, val: bool) returns (ok: bool)
      requires Valid()
      modifies this
      ensures Valid() && (ok <==> i < len)
      ensures Value() == if ok then SetAt(old(Value()), i, val) else old(Value())
      ensures BitsOf(Value()) == if ok then old(BitsOf(Value()))[i := val] else old(BitsOf(Value()))
      ensures old(PaddingZero(Value())) <==> PaddingZero(Value())
    {
      if i >= len {
        return false;
      }
      SetIsUpdate(Value(), i, val);
      if val {
        data := data[i / 8 := SetBit(data[i / 8], i % 8)];
      } else {
        data := data[i / 8 := ClearBit(data[i / 8], i % 8)];
      }
      return true;
    }

    /** Every byte is zeroed, padding included. */
    method Clear()
      requires Valid()
      modifies this
      ensures Valid() && Value() == Zeros(len) && PaddingZero(Value())
      ensures BitsOf(Value()) == seq(len, _ => false)
    {
      for i := 0 to |data|
        invariant Valid() && forall j | 0 <= j < i :: data[j] == 0
      {
        data := data[i := 0];
      }
      assert data == seq(DataLen(len), _ => 0);
      ZerosAreFalse(len);
    }
  }

  method MakeZeros(max: u16, len: u16) returns (v: Option<BitVector>)
    ensures v.Some? <==> len <= max
    ensures v.Some? ==> fresh(v.value) && v.value.Valid() && v.value.Value() == Zeros(len)
    ensures v.Some? ==> BitsOf(v.value.Value()) == seq(len, _ => false) && PaddingZero(v.value.Value())
  {
    if len > max {
      return None;
    }
    ZerosAreFalse(len);
    var vec := new BitVector(max, len);
    return Some(vec);
  }

  /** `true` in the first `k` places. */
  function FirstTrue(k: nat, n: nat): (bits: seq<bool>)
    requires k <= n
    ensures |bits| == n && forall i | 0 <= i < n :: bits[i] == (i < k)
  {
    seq(n, i => i < k)
  }

  lemma FirstTrueGrows(k: nat, n: nat)
    requires k < n
    ensures FirstTrue(k, n)[k := true] == FirstTrue(k + 1, n)
  {
  }

  lemma FirstTrueEnds(n: nat)
    ensures FirstTrue(0, n) == seq(n, _ => false) && FirstTrue(n, n) == seq(n, _ => true)
  {
  }

  method MakeOnes(max: u16, len: u16) returns (v: Option<BitVector>)
    ensures v.Some? <==> len <= max
    ensures v.Some? ==> fresh(v.value) && v.value.Valid() && PaddingZero(v.value.Value())
    ensures v.Some? ==> BitsOf(v.value.Value()) == seq(len, _ => true)
  {
    var zeros := MakeZeros(max, len);
    if zeros.None? {
      return None;
    }
    var vec := zeros.value;
    FirstTrueEnds(len);
    for i := 0 to len
      invariant vec.Valid() && vec.len == len && fresh(vec) && PaddingZero(vec.Value())
      invariant BitsOf(vec.Value()) == FirstTrue(i, len)
    {
      FirstTrueGrows(i, len);
      var _ := vec.Set(i, true);
    }
    return Some(vec);
  }

  /** From a list of booleans: refused when empty or too long, otherwise the packed list. */
  method TryFrom(max: u16, values: seq<bool>) returns (v: Option<BitVector>)
    ensures v.Some? <==> 1 <= |values| <= max
    ensures v.Some? ==> fresh(v.value) && v.value.Valid() && v.value.Value() == FromBits(values)
    ensures v.Some? ==> BitsOf(v.value.Value()) == values && PaddingZero(v.value.Value())
  {
    if |values| == 0 || |values| > max {
      return None;
    }
    var vec := new BitVector(max, |values|);
    for i := 0 to |values|
      invariant vec.len == |values| && fresh(vec) && vec.Value() == Filled(values, i)
    {
      if values[i] {
        var _ := vec.Set(i, true);
      }
    }
    FromBitsKeeps(values);
    return Some(vec);
  }

  function SaturatingIncrement(i: u16): u16 {
    if i == MAX_U16 then i else i + 1
  }

  /** Walks the entries, remembering the byte the next one is in. */
  class BitVecIter {
    var index: u16
    var current: Option<byte>
    const bitvec: BitVector

    constructor (bitvec: BitVector)
      requires bitvec.Valid()
      ensures this.bitvec == bitvec && index == 0 && Valid()
    {
      this.bitvec, index := bitvec, 0;
      current := if |bitvec.data| > 0 then Some(bitvec.data[0]) else None;
    }

    predicate Valid()
      reads this, bitvec
    {
      && bitvec.Valid() && index <= bitvec.len
      && (index < bitvec.len ==> current == Some(bitvec.data[index / 8]))
    }

    /** Gives the entries one after the other, then nothing. */
    method Next() returns (bit: Option<bool>)
      requires Valid()
      modifies this
      ensures Valid()
      ensures bit == if old(index) < bitvec.len then Some(BitsOf(bitvec.Value())[old(index)]) else None
      ensures index == if old(index) < bitvec.len then old(index) + 1 else old(index)
    {
      if index >= bitvec.len || current.None? {
        return None;
      }
      bit := Some(Bit(current.value, index % 8));
      index := SaturatingIncrement(index);
      if index < bitvec.len && index % 8 == 0 {
        current := if index / 8 < |bitvec.data| then Some(bitvec.data[index / 8]) else None;
      }
    }
  }
}
