/**
  Wire formats as values.  A codec couples an encoder, a decoder and the
  predicate that says which values the format can carry.  A codec is lawful
  when decoding undoes encoding in front of any bytes, and when every accepted
  input yields a carried value that re-encodes to no more bytes than were read.

  Formats are built from smaller ones: one after another, repeated, checked and
  converted, chosen by a tag, or read through a window of limited size.  Each
  way of building keeps lawfulness, so the law of a whole message follows from
  its parts.
 */
module Codecs {
  import opened Wire

  datatype Option<+T> = None | Some(value: T)

  datatype Codec<!T> = Codec(put: T -> Bytes, get: Bytes -> Parsed<T>, ok: T -> bool)

  predicate IsSuffix(r: Bytes, b: Bytes) {
    |r| <= |b| && b[|b| - |r|..] == r
  }

  ghost predicate Inverts<T(!new)>(c: Codec<T>) {
    forall x, s :: c.ok(x) ==> c.get(c.put(x) + s) == Ok(x, s)
  }

  predicate GoodResult<T>(c: Codec<T>, b: Bytes) {
    var p := c.get(b);
    p.Ok? ==> c.ok(p.value) && IsSuffix(p.rest, b) && |c.put(p.value)| + |p.rest| <= |b|
  }

  ghost predicate Normalises<T(!new)>(c: Codec<T>) {
    forall b :: GoodResult(c, b)
  }

  ghost predicate Lawful<T(!new)>(c: Codec<T>) {
    Inverts(c) && Normalises(c)
  }

  /** The values a lawful codec carries are exactly the ones that survive the round trip, whatever follows them. */
  lemma RoundTripIff<T(!new)>(c: Codec<T>, x: T, s: Bytes)
    requires Lawful(c)
    ensures c.get(c.put(x) + s) == Ok(x, s) <==> c.ok(x)
  {
    assert GoodResult(c, c.put(x) + s);
  }

  /** No encoding is a prefix of another value's encoding; in particular encoding is injective. */
  lemma PrefixFree<T(!new)>(c: Codec<T>, x: T, y: T, s: Bytes, t: Bytes)
    requires Lawful(c) && c.ok(x) && c.ok(y)
    requires c.put(x) + s == c.put(y) + t
    ensures x == y && s == t
  {
    assert c.get(c.put(x) + s) == Ok(x, s);
    assert c.get(c.put(y) + t) == Ok(y, t);
  }

  /** What was accepted decodes to the same value again after re-encoding, and uses no more bytes than before. */
  lemma Normal<T(!new)>(c: Codec<T>, b: Bytes, s: Bytes)
    requires Lawful(c) && c.get(b).Ok?
    ensures var x := c.get(b).value;
            c.get(c.put(x) + s) == Ok(x, s) && |c.put(x)| <= |b| - |c.get(b).rest|
    ensures IsSuffix(c.get(b).rest, b)
  {
    assert GoodResult(c, b);
  }

  lemma SuffixTransitive(a: Bytes, b: Bytes, c: Bytes)
    requires IsSuffix(a, b) && IsSuffix(b, c)
    ensures IsSuffix(a, c)
  {
    assert c[|c| - |a|..] == c[|c| - |b|..][|b| - |a|..];
  }

  // ---------- Primitive formats ----------

  function Byte(): Codec<byte> {
    Codec(x => [x], ReadU8, _ => true)
  }

  function Exact(n: nat): Codec<Bytes> {
    Codec(x => x, b => ReadExact(b, n), x => |x| == n)
  }

  function U16(): Codec<u16> {
    Codec(PutU16, ReadU16, _ => true)
  }

  function U32(): Codec<u32> {
    Codec(PutU32, ReadU32, _ => true)
  }

  function U64(): Codec<u64> {
    Codec(PutU64, ReadU64, _ => true)
  }

  lemma ByteLawful()
    ensures Lawful(Byte())
  {
    var c := Byte();
    forall x: byte, s ensures c.get(c.put(x) + s) == Ok(x, s) {
      ReadU8Append(x, s);
    }
    assert Inverts(c);
    forall b ensures GoodResult(c, b) {
    }
  }

  lemma ExactLawful(n: nat)
    ensures Lawful(Exact(n))
  {
    var c := Exact(n);
    forall x, s | c.ok(x) ensures c.get(c.put(x) + s) == Ok(x, s) {
      ReadExactAppend(x, s);
    }
    assert Inverts(c);
    forall b ensures GoodResult(c, b) {
    }
  }

  lemma U16Lawful()
    ensures Lawful(U16())
  {
    var c := U16();
    forall x: u16, s ensures c.get(c.put(x) + s) == Ok(x, s) {
      ReadU16Put(x, s);
    }
    assert Inverts(c);
    forall b ensures GoodResult(c, b) {
    }
  }

  lemma U32Lawful()
    ensures Lawful(U32())
  {
    var c := U32();
    forall x: u32, s ensures c.get(c.put(x) + s) == Ok(x, s) {
      ReadU32Put(x, s);
    }
    assert Inverts(c);
    forall b ensures GoodResult(c, b) {
    }
  }

  lemma U64Lawful()
    ensures Lawful(U64())
  {
    var c := U64();
    forall x: u64, s ensures c.get(c.put(x) + s) == Ok(x, s) {
      ReadU64Put(x, s);
    }
    assert Inverts(c);
    forall b ensures GoodResult(c, b) {
    }
  }

  // ---------- One format after another ----------

  function GetBoth<A, B>(a: Codec<A>, b: Codec<B>, s: Bytes): Parsed<(A, B)> {
    var (x, s1) :- a.get(s);
    var (y, s2) :- b.get(s1);
    Ok((x, y), s2)
  }

  function Both<A, B>(a: Codec<A>, b: Codec<B>): Codec<(A, B)> {
    Codec((p: (A, B)) => a.put(p.0) + b.put(p.1), s => GetBoth(a, b, s), (p: (A, B)) => a.ok(p.0) && b.ok(p.1))
  }

  lemma BothLawful<A(!new), B(!new)>(a: Codec<A>, b: Codec<B>)
    requires Lawful(a) && Lawful(b)
    ensures Lawful(Both(a, b))
  {
    var c := Both(a, b);
    forall p: (A, B), s | c.ok(p) ensures c.get(c.put(p) + s) == Ok(p, s) {
      Assoc(a.put(p.0), b.put(p.1), s);
      assert a.get(a.put(p.0) + (b.put(p.1) + s)) == Ok(p.0, b.put(p.1) + s);
      assert b.get(b.put(p.1) + s) == Ok(p.1, s);
    }
    assert Inverts(c);
    forall s ensures GoodResult(c, s) {
      assert GoodResult(a, s);
      if a.get(s).Ok? {
        assert GoodResult(b, a.get(s).rest);
        if b.get(a.get(s).rest).Ok? {
          SuffixTransitive(b.get(a.get(s).rest).rest, a.get(s).rest, s);
        }
      }
    }
  }

  // ---------- Conversion with checks ----------

  /**
    A value of type B shown as a representation of type A.  `to` has no value for
    representations that must be rejected, `from` no representation for values of other
    variants, and `ok` says which values are carried.
   */
  datatype View<!A, !B> = View(to: A -> Option<B>, from: B -> Option<A>, ok: B -> bool)

  function GetVia<A, B>(c: Codec<A>, v: View<A, B>, b: Bytes): Parsed<B> {
    var (a, r) :- c.get(b);
    match v.to(a)
    case None => Err(DeserializeError)
    case Some(y) => Ok(y, r)
  }

  function PutVia<A, B>(c: Codec<A>, v: View<A, B>, y: B): Bytes {
    match v.from(y)
    case None => []
    case Some(a) => c.put(a)
  }

  function Via<A, B>(c: Codec<A>, v: View<A, B>): Codec<B> {
    Codec(y => PutVia(c, v, y), b => GetVia(c, v, b), v.ok)
  }

  /** A carried value has a representation that converts back. */
  predicate Represents<A(==), B(==)>(c: Codec<A>, v: View<A, B>, y: B) {
    v.ok(y) ==> v.from(y).Some? && c.ok(v.from(y).value) && v.to(v.from(y).value) == Some(y)
  }

  /** What is accepted is carried, and its own representation is no longer than the one that was read. */
  predicate Settles<A, B>(c: Codec<A>, v: View<A, B>, a: A) {
    c.ok(a) && v.to(a).Some? ==>
      var y := v.to(a).value;
      v.ok(y) && v.from(y).Some? && |c.put(v.from(y).value)| <= |c.put(a)|
  }

  lemma ViaLawful<A(!new), B(!new)>(c: Codec<A>, v: View<A, B>)
    requires Lawful(c)
    requires forall y :: Represents(c, v, y)
    requires forall a :: Settles(c, v, a)
    ensures Lawful(Via(c, v))
  {
    var d := Via(c, v);
    forall y, s | d.ok(y) ensures d.get(d.put(y) + s) == Ok(y, s) {
      assert Represents(c, v, y);
      assert c.get(c.put(v.from(y).value) + s) == Ok(v.from(y).value, s);
    }
    assert Inverts(d);
    forall b ensures GoodResult(d, b) {
      assert GoodResult(c, b);
      if c.get(b).Ok? {
        assert Settles(c, v, c.get(b).value);
      }
    }
  }

  /** Keeps the values that pass a check. */
  function Check<T>(c: Codec<T>, p: T -> bool): Codec<T> {
    Via(c, View((x: T) => if p(x) then Some(x) else None, (x: T) => Some(x), (x: T) => c.ok(x) && p(x)))
  }

  lemma CheckLawful<T(!new)>(c: Codec<T>, p: T -> bool)
    requires Lawful(c)
    ensures Lawful(Check(c, p))
  {
    var d := Check(c, p);
    forall y, s | d.ok(y) ensures d.get(d.put(y) + s) == Ok(y, s) {
      assert c.get(c.put(y) + s) == Ok(y, s);
    }
    assert Inverts(d);
    forall b ensures GoodResult(d, b) {
      assert GoodResult(c, b);
    }
  }

  // ---------- Repetition ----------

  function PutMany<T>(put: T -> Bytes, xs: seq<T>): Bytes {
    if xs == [] then [] else put(xs[0]) + PutMany(put, xs[1..])
  }

  lemma {:induction false} PutManySnoc<T>(put: T -> Bytes, xs: seq<T>, x: T)
    ensures PutMany(put, xs + [x]) == PutMany(put, xs) + put(x)
  {
    if xs == [] {
      assert xs + [x] == [x] && [x][1..] == [];
      assert put(x) + [] == put(x) == [] + put(x);
    } else {
      PutManySnoc(put, xs[1..], x);
      assert (xs + [x])[1..] == xs[1..] + [x];
      Assoc(put(xs[0]), PutMany(put, xs[1..]), put(x));
    }
  }

  function GetMany<T>(get: Bytes -> Parsed<T>, n: nat, b: Bytes): Parsed<seq<T>> {
    if n == 0 then Ok([], b) else
    var (x, b1) :- get(b);
    var (xs, b2) :- GetMany(get, n - 1, b1);
    Ok([x] + xs, b2)
  }

  predicate All<T>(ok: T -> bool, xs: seq<T>) {
    forall i | 0 <= i < |xs| :: ok(xs[i])
  }

  lemma {:induction false} ManyRoundTrip<T(!new)>(c: Codec<T>, xs: seq<T>, s: Bytes)
    requires Inverts(c) && All(c.ok, xs)
    ensures GetMany(c.get, |xs|, PutMany(c.put, xs) + s) == Ok(xs, s)
  {
    if xs == [] {
      assert PutMany(c.put, xs) + s == s;
    } else {
      var t := PutMany(c.put, xs[1..]) + s;
      Assoc(c.put(xs[0]), PutMany(c.put, xs[1..]), s);
      assert c.get(c.put(xs[0]) + t) == Ok(xs[0], t);
      ManyRoundTrip(c, xs[1..], s);
      assert [xs[0]] + xs[1..] == xs;
    }
  }

  lemma {:induction false} ManyNormal<T(!new)>(c: Codec<T>, n: nat, b: Bytes)
    requires Normalises(c)
    ensures var p := GetMany(c.get, n, b);
            p.Ok? ==>
              && |p.value| == n && All(c.ok, p.value)
              && IsSuffix(p.rest, b) && |PutMany(c.put, p.value)| + |p.rest| <= |b|
  {
    if n > 0 {
      var x := c.get(b);
      assert GoodResult(c, b);
      if x.Ok? {
        ManyNormal(c, n - 1, x.rest);
        var xs := GetMany(c.get, n - 1, x.rest);
        if xs.Ok? {
          assert ([x.value] + xs.value)[1..] == xs.value;
          SuffixTransitive(xs.rest, x.rest, b);
        }
      }
    }
  }

  /** The decoder's loop: read an item, push it, stop at the first failure. */
  method ReadItems<T>(get: Bytes -> Parsed<T>, n: nat, b: Bytes) returns (p: Parsed<seq<T>>)
    ensures p == GetMany(get, n, b)
  {
    var items: seq<T>, rest := [], b;
    ghost var whole := GetMany(get, n, b);
    assert whole.Ok? ==> [] + whole.value == whole.value;
    for i := 0 to n
      invariant whole ==
                match GetMany(get, n - i, rest) case Ok(xs, r) => Ok(items + xs, r) case Err(e) => Err(e)
    {
      match get(rest)
      case Err(e) =>
        return Err(e);
      case Ok(x, r) =>
        ghost var tail := GetMany(get, n - i - 1, r);
        assert tail.Ok? ==> items + ([x] + tail.value) == (items + [x]) + tail.value;
        items, rest := items + [x], r;
    }
    assert items + [] == items;
    p := Ok(items, rest);
  }

  /**
    A list with a four-byte count.  The decoder asks `fits` about the count before it
    reads any item.
   */
  function GetVec<T>(c: Codec<T>, fits: nat -> bool, b: Bytes): Parsed<seq<T>> {
    var (n, b1) :- ReadU32(b);
    if !fits(n) then Err(DeserializeError) else GetMany(c.get, n, b1)
  }

  function PutVec<T>(c: Codec<T>, xs: seq<T>): (b: Bytes)
    ensures |b| == 4 + |PutMany(c.put, xs)|
  {
    PutU32(|xs| % 0x1_0000_0000) + PutMany(c.put, xs)
  }

  predicate VecOk<T>(c: Codec<T>, fits: nat -> bool, xs: seq<T>) {
    |xs| <= MAX_U32 && fits(|xs|) && All(c.ok, xs)
  }

  function Vec<T>(c: Codec<T>, fits: nat -> bool): Codec<seq<T>> {
    Codec((xs: seq<T>) => PutVec(c, xs), b => GetVec(c, fits, b), (xs: seq<T>) => VecOk(c, fits, xs))
  }

  lemma VecRoundTrip<T(!new)>(c: Codec<T>, fits: nat -> bool, xs: seq<T>, s: Bytes)
    requires Lawful(c) && VecOk(c, fits, xs)
    ensures GetVec(c, fits, PutVec(c, xs) + s) == Ok(xs, s)
  {
    assert |xs| % 0x1_0000_0000 == |xs|;
    Assoc(PutU32(|xs|), PutMany(c.put, xs), s);
    ReadU32Put(|xs|, PutMany(c.put, xs) + s);
    ManyRoundTrip(c, xs, s);
  }

  lemma VecNormal<T(!new)>(c: Codec<T>, fits: nat -> bool, b: Bytes)
    requires Lawful(c)
    ensures var p := GetVec(c, fits, b);
            p.Ok? ==>
              VecOk(c, fits, p.value) && IsSuffix(p.rest, b) && |PutVec(c, p.value)| + |p.rest| <= |b|
  {
    var n := ReadU32(b);
    if n.Ok? {
      assert 4 + |n.rest| == |b| && IsSuffix(n.rest, b);
      ManyNormal(c, n.value, n.rest);
      var p := GetMany(c.get, n.value, n.rest);
      if p.Ok? {
        SuffixTransitive(p.rest, n.rest, b);
      }
    }
  }

  lemma VecLawful<T(!new)>(c: Codec<T>, fits: nat -> bool)
    requires Lawful(c)
    ensures Lawful(Vec(c, fits))
  {
    var v := Vec(c, fits);
    forall xs: seq<T>, s | v.ok(xs) ensures v.get(v.put(xs) + s) == Ok(xs, s) {
      VecRoundTrip(c, fits, xs, s);
    }
    assert Inverts(v);
    forall b ensures GoodResult(v, b) {
      VecNormal(c, fits, b);
    }
  }

  // ---------- Byte strings ----------

  /** A four-byte length and that many bytes; the length is checked before they are read. */
  function GetByteString(fits: nat -> bool, b: Bytes): Parsed<Bytes> {
    var (n, b1) :- ReadU32(b);
    if !fits(n) then Err(DeserializeError) else ReadExact(b1, n)
  }

  function PutByteString(x: Bytes): (b: Bytes)
    ensures |b| == 4 + |x|
  {
    PutU32(|x| % 0x1_0000_0000) + x
  }

  function ByteString(fits: nat -> bool): Codec<Bytes> {
    Codec(PutByteString, b => GetByteString(fits, b), (x: Bytes) => |x| <= MAX_U32 && fits(|x|))
  }

  lemma ByteStringRoundTrip(fits: nat -> bool, x: Bytes, s: Bytes)
    requires |x| <= MAX_U32 && fits(|x|)
    ensures GetByteString(fits, PutByteString(x) + s) == Ok(x, s)
  {
    assert |x| % 0x1_0000_0000 == |x|;
    Assoc(PutU32(|x|), x, s);
    ReadU32Put(|x|, x + s);
    ReadExactAppend(x, s);
  }

  lemma ByteStringLawful(fits: nat -> bool)
    ensures Lawful(ByteString(fits))
  {
    var c := ByteString(fits);
    forall x: Bytes, s | c.ok(x) ensures c.get(c.put(x) + s) == Ok(x, s) {
      ByteStringRoundTrip(fits, x, s);
    }
    assert Inverts(c);
    forall b ensures GoodResult(c, b) {
    }
  }

  /** A one-byte length between `min` and `max`, then the bytes. */
  function GetShortString(min: nat, max: nat, b: Bytes): Parsed<Bytes> {
    var (n, b1) :- ReadU8(b);
    if n < min || n > max then Err(DeserializeError) else ReadExact(b1, n)
  }

  function PutShortString(x: Bytes): (b: Bytes)
    ensures |b| == 1 + |x|
  {
    [|x| % 0x100] + x
  }

  function ShortString(min: nat, max: byte): Codec<Bytes> {
    Codec(PutShortString, b => GetShortString(min, max, b), (x: Bytes) => min <= |x| <= max)
  }

  /** Long strings are preceded by their length in four bytes, short ones in one. */
  lemma StringBytes(x: Bytes, n: nat)
    requires n == |x|
    ensures n < 0x1_0000_0000 ==> PutByteString(x) == BigEndian(4, n) + x
    ensures n < 0x100 ==> PutShortString(x) == [n] + x
  {
    if n < 0x1_0000_0000 {
      assert n % 0x1_0000_0000 == n;
    }
    if n < 0x100 {
      assert n % 0x100 == n;
    }
  }

  lemma ShortStringRoundTrip(min: nat, max: byte, x: Bytes, s: Bytes)
    requires min <= |x| <= max
    ensures GetShortString(min, max, PutShortString(x) + s) == Ok(x, s)
  {
    Assoc([|x|], x, s);
    ReadU8Append(|x|, x + s);
    ReadExactAppend(x, s);
  }

  lemma ShortStringLawful(min: nat, max: byte)
    ensures Lawful(ShortString(min, max))
  {
    var c := ShortString(min, max);
    forall x: Bytes, s | c.ok(x) ensures c.get(c.put(x) + s) == Ok(x, s) {
      ShortStringRoundTrip(min, max, x, s);
    }
    assert Inverts(c);
    forall b ensures GoodResult(c, b) {
    }
  }

  // ---------- Choice by a tag byte ----------

  function GetTagged<T>(bodies: byte -> Codec<T>, b: Bytes): Parsed<T> {
    var (t, b1) :- ReadU8(b);
    bodies(t).get(b1)
  }

  /** A tag byte, then the format that belongs to it. */
  function Tagged<T>(tag: T -> byte, bodies: byte -> Codec<T>): Codec<T> {
    Codec(
      x => [tag(x)] + bodies(tag(x)).put(x),
      b => GetTagged(bodies, b),
      x => bodies(tag(x)).ok(x))
  }

  /** The format of a tag carries only values with that tag. */
  ghost predicate TagsAgree<T(!new)>(tag: T -> byte, bodies: byte -> Codec<T>) {
    forall t, x :: bodies(t).ok(x) ==> tag(x) == t
  }

  lemma TaggedLawful<T(!new)>(tag: T -> byte, bodies: byte -> Codec<T>)
    requires forall t :: Lawful(bodies(t))
    requires TagsAgree(tag, bodies)
    ensures Lawful(Tagged(tag, bodies))
  {
    var c := Tagged(tag, bodies);
    forall x, s | c.ok(x) ensures c.get(c.put(x) + s) == Ok(x, s) {
      var d := bodies(tag(x));
      Assoc([tag(x)], d.put(x), s);
      ReadU8Append(tag(x), d.put(x) + s);
      assert d.get(d.put(x) + s) == Ok(x, s);
    }
    assert Inverts(c);
    forall b ensures GoodResult(c, b) {
      if b != [] {
        var d := bodies(b[0]);
        assert Lawful(d);
        assert GoodResult(d, b[1..]);
        if d.get(b[1..]).Ok? {
          SuffixTransitive(d.get(b[1..]).rest, b[1..], b);
        }
      }
    }
  }

  function GetPeeked<T>(bodies: byte -> Codec<T>, b: Bytes): Parsed<T> {
    if b == [] then Err(ReadError) else bodies(b[0]).get(b)
  }

  /** The first byte is looked at but not consumed: the format it selects reads it again. */
  function Peeked<T>(tag: T -> byte, bodies: byte -> Codec<T>): Codec<T> {
    Codec(x => bodies(tag(x)).put(x), b => GetPeeked(bodies, b), x => bodies(tag(x)).ok(x))
  }

  /** A value's encoding starts with its tag, which selects the format that carries it. */
  ghost predicate LeadsWithTag<T(!new)>(tag: T -> byte, bodies: byte -> Codec<T>) {
    forall t, x :: bodies(t).ok(x) ==>
      bodies(tag(x)) == bodies(t) && |bodies(t).put(x)| > 0 && bodies(t).put(x)[0] == tag(x)
  }

  lemma PeekedLawful<T(!new)>(tag: T -> byte, bodies: byte -> Codec<T>)
    requires forall t :: Lawful(bodies(t))
    requires LeadsWithTag(tag, bodies)
    ensures Lawful(Peeked(tag, bodies))
  {
    var c := Peeked(tag, bodies);
    forall x, s | c.ok(x) ensures c.get(c.put(x) + s) == Ok(x, s) {
      var d := bodies(tag(x));
      assert (d.put(x) + s)[0] == tag(x);
      assert Lawful(d);
      assert d.get(d.put(x) + s) == Ok(x, s);
    }
    assert Inverts(c);
    forall b ensures GoodResult(c, b) {
      if b != [] {
        assert Lawful(bodies(b[0]));
        assert GoodResult(bodies(b[0]), b);
      }
    }
  }

  // ---------- A window of limited size ----------

  function Bounded<T>(c: Codec<T>, max: nat): Codec<T> {
    Codec(c.put, b => Reopen(c.get(Window(b, max)), b, max), x => c.ok(x) && |c.put(x)| <= max)
  }

  lemma SuffixReopened(r: Bytes, b: Bytes, max: nat)
    requires IsSuffix(r, Window(b, max))
    ensures IsSuffix(r + b[|Window(b, max)|..], b)
  {
    var w := Window(b, max);
    assert b == w + b[|w|..];
    assert w == w[..|w| - |r|] + r;
    assert b == w[..|w| - |r|] + (r + b[|w|..]);
  }

  lemma BoundedLawful<T(!new)>(c: Codec<T>, max: nat)
    requires Lawful(c)
    ensures Lawful(Bounded(c, max))
  {
    var d := Bounded(c, max);
    forall x, s | d.ok(x) ensures d.get(d.put(x) + s) == Ok(x, s) {
      WindowAppend(c.put(x), s, max);
      var t := Window(s, max - |c.put(x)|);
      assert c.get(c.put(x) + t) == Ok(x, t);
    }
    assert Inverts(d);
    forall b ensures GoodResult(d, b) {
      var w := Window(b, max);
      assert GoodResult(c, w);
      if c.get(w).Ok? {
        SuffixReopened(c.get(w).rest, b, max);
      }
    }
  }

  /** A bounded decoder never takes more than its window. */
  lemma BoundedReads<T>(c: Codec<T>, max: nat, b: Bytes)
    requires Bounded(c, max).get(b).Ok?
    ensures |b| - |Bounded(c, max).get(b).rest| <= max
  {
    var w := Window(b, max);
    assert Bounded(c, max).get(b).rest == c.get(w).rest + b[|w|..];
  }

  // ---------- Variations that keep the law ----------

  function BlameFormat<T>(p: Parsed<T>): Parsed<T> {
    if p.Err? then Err(DeserializeError) else p
  }

  /** Reports every failure, even a short read, as a decoding error. */
  function Blaming<T>(c: Codec<T>): Codec<T> {
    Codec(c.put, b => BlameFormat(c.get(b)), c.ok)
  }

  lemma BlamingLawful<T(!new)>(c: Codec<T>)
    requires Lawful(c)
    ensures Lawful(Blaming(c))
  {
    var d := Blaming(c);
    forall x, s | d.ok(x) ensures d.get(d.put(x) + s) == Ok(x, s) {
      assert c.get(c.put(x) + s) == Ok(x, s);
    }
    assert Inverts(d);
    forall b ensures GoodResult(d, b) {
      assert GoodResult(c, b);
    }
  }

  /** The two codecs agree on everything but the encodings of values neither carries. */
  ghost predicate SameFormat<T(!new)>(c: Codec<T>, d: Codec<T>) {
    && (forall b :: c.get(b) == d.get(b))
    && (forall x :: c.ok(x) <==> d.ok(x))
    && (forall x :: c.ok(x) ==> c.put(x) == d.put(x))
  }

  lemma SameFormatLawful<T(!new)>(c: Codec<T>, d: Codec<T>)
    requires Lawful(c) && SameFormat(c, d)
    ensures Lawful(d)
  {
    forall x, s | d.ok(x) ensures d.get(d.put(x) + s) == Ok(x, s) {
      assert c.ok(x) && c.put(x) == d.put(x);
      assert c.get(c.put(x) + s) == Ok(x, s);
    }
    assert Inverts(d);
    forall b ensures GoodResult(d, b) {
      assert GoodResult(c, b);
    }
  }

  /** A tag with no format. */
  function Nothing<T>(): Codec<T> {
    Codec(_ => [], _ => Err(DeserializeError), _ => false)
  }

  lemma NothingLawful<T(!new)>()
    ensures Lawful(Nothing<T>())
  {
    var c := Nothing<T>();
    forall b ensures GoodResult(c, b) {
    }
  }
}
