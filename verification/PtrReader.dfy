/**
  Reading a node's pointers from a file: fill a buffer of fixed size despite
  short and interrupted reads, decode into the caller's slots, and seek to the
  byte after the list.
 */
module PtrReader {
  import opened Wire
  import opened Codecs
  import opened Bits
  import opened TriePtrs
  import opened PtrLists

  /** The end of the file may be reported as such or by a read of nothing. */
  datatype ReadResult = Got(bytes: Bytes) | EndOfFile | Interrupted | Failed

  function Rest(data: Bytes, pos: nat): Bytes {
    if pos <= |data| then data[pos..] else []
  }

  /** A seekable file.  How much a read returns, and whether it fails or is interrupted, is not determined. */
  class Reader {
    const data: Bytes
    var pos: nat
    var interruptions: nat

    constructor (data: Bytes, pos: nat, interruptions: nat)
      ensures this.data == data && this.pos == pos && this.interruptions == interruptions
    {
      this.data, this.pos, this.interruptions := data, pos, interruptions;
    }

    method Read(n: nat) returns (r: ReadResult)
      modifies this
      ensures r.Got? ==>
                && |r.bytes| <= n && r.bytes <= Rest(data, old(pos)) && pos == old(pos) + |r.bytes|
                && (r.bytes == [] <==> n == 0 || Rest(data, old(pos)) == [])
                && interruptions == old(interruptions)
      ensures r.EndOfFile? ==> Rest(data, old(pos)) == [] && pos == old(pos)
      ensures r.Interrupted? ==> pos == old(pos) && interruptions < old(interruptions)
    {
      var failing: bool := *;
      if failing {
        return Failed;
      }
      var interrupted: bool := *;
      if interrupted && interruptions > 0 {
        interruptions := interruptions - 1;
        return Interrupted;
      }
      var rest := Rest(data, pos);
      var reported: bool := *;
      if reported && rest == [] {
        return EndOfFile;
      }
      if n == 0 || rest == [] {
        return Got([]);
      }
      var k :| 1 <= k <= n && k <= |rest|;
      pos := pos + k;
      return Got(rest[..k]);
    }
  }

  lemma RestAfter(data: Bytes, pos: nat, n: nat)
    requires n <= |Rest(data, pos)|
    ensures Rest(data, pos + n) == Rest(data, pos)[n..]
  {
  }

  lemma GrowPrefix(buffer: Bytes, b: Bytes, rest: Bytes)
    requires buffer <= rest && b <= rest[|buffer|..]
    ensures buffer + b <= rest && rest[|buffer + b|..] == rest[|buffer|..][|b|..]
  {
    assert rest == buffer + rest[|buffer|..];
    assert rest[|buffer|..] == b + rest[|buffer|..][|b|..];
  }

  /** Reads until the buffer is full or the file ends. */
  method FillBuffer(r: Reader, size: nat) returns (bytes: Option<Bytes>)
    modifies r
    ensures bytes.Some? ==> bytes.value == Window(Rest(r.data, old(r.pos)), size)
  {
    ghost var rest := Rest(r.data, r.pos);
    var buffer: Bytes, done := [], false;
    while !done
      invariant |buffer| <= size && buffer <= rest && Rest(r.data, r.pos) == rest[|buffer|..]
      invariant done ==> |buffer| == size || |buffer| == |rest|
      decreases !done, size - |buffer|, r.interruptions
    {
      ghost var pos := r.pos;
      var got := r.Read(size - |buffer|);
      if got.Failed? {
        return None;
      }
      if got.EndOfFile? {
        done := true;
      } else if got.Got? {
        RestAfter(r.data, pos, |got.bytes|);
        GrowPrefix(buffer, got.bytes, rest);
        done := got.bytes == [];
        buffer := buffer + got.bytes;
      }
    }
    bytes := Some(buffer);
  }

  datatype ListEnd = End(cursor: nat) | Broken(fault: Fault)

  ghost function Prefixed(ps: seq<TriePtr>, r: ListResult): ListResult {
    match r
    case Listed(qs, end) => Listed(ps + qs, end)
    case Faulty(f) => Faulty(f)
  }

  lemma PrefixedStep(ps: seq<TriePtr>, p: TriePtr, r: ListResult)
    ensures Prefixed(ps, Cons(p, r)) == Prefixed(ps + [p], r)
  {
    if r.Listed? {
      assert ps + ([p] + r.ptrs) == (ps + [p]) + r.ptrs;
    }
  }

  ghost predicate Delivered(e: ListEnd, slots: seq<TriePtr>, r: ListResult) {
    match r
    case Listed(ps, end) => e == End(end) && slots == ps
    case Faulty(f) => e == Broken(f)
  }

  /** The loop over the slots of a dense or an uncompressed list. */
  method FillSlots(decode: Decoder, b: Bytes, slots: array<TriePtr>) returns (e: ListEnd)
    modifies slots
    ensures Delivered(e, slots[..], ListFrom(decode, b, 0, slots.Length))
  {
    var cursor: nat := 0;
    ghost var whole := ListFrom(decode, b, 0, slots.Length);
    assert whole.Listed? ==> [] + whole.ptrs == whole.ptrs;
    for i := 0 to slots.Length
      invariant whole == Prefixed(slots[..i], ListFrom(decode, b, cursor, slots.Length - i))
    {
      if cursor > |b| {
        return Broken(Corruption);
      }
      var read := decode(b[cursor..]);
      if read.None? {
        return Broken(Panic);
      }
      ghost var before := slots[..i];
      slots[i] := read.value.0;
      cursor := cursor + read.value.1;
      PrefixedStep(before, slots[i], ListFrom(decode, b, cursor, slots.Length - i - 1));
      assert slots[..i + 1] == before + [slots[i]];
    }
    assert slots[..slots.Length] == slots[..] && slots[..] + [] == slots[..];
    e := End(cursor);
  }

  /** The loop over the bits of the bitmap. */
  method FillSparseSlots(bitmap: Bytes, b: Bytes, slots: array<TriePtr>) returns (e: ListEnd)
    requires slots.Length <= 8 * |bitmap|
    modifies slots
    ensures Delivered(e, slots[..], SparseFrom(DecodeCompressed, bitmap, b, 0, 0, slots.Length))
  {
    var cursor: nat, decode: Decoder := 0, DecodeCompressed;
    ghost var n, whole := slots.Length, SparseFrom(DecodeCompressed, bitmap, b, 0, 0, slots.Length);
    assert whole.Listed? ==> [] + whole.ptrs == whole.ptrs;
    for i := 0 to slots.Length
      invariant whole == Prefixed(slots[..i], SparseFrom(DecodeCompressed, bitmap, b, cursor, i, n))
    {
      ghost var before := slots[..i];
      if !Bit(bitmap[i / 8], i % 8) {
        slots[i] := EMPTY;
      } else {
        if cursor > |b| {
          return Broken(Corruption);
        }
        var read := decode(b[cursor..]);
        if read.None? {
          return Broken(Panic);
        }
        slots[i] := read.value.0;
        cursor := cursor + read.value.1;
      }
      PrefixedStep(before, slots[i], SparseFrom(DecodeCompressed, bitmap, b, cursor, i + 1, n));
      assert slots[..i + 1] == before + [slots[i]];
    }
    assert slots[..slots.Length] == slots[..] && slots[..] + [] == slots[..];
    e := End(cursor);
  }

  datatype Outcome = Loaded(id: byte) | PatchFound | Corrupted | Panicked | IoFailed

  ghost predicate Agrees(o: Outcome, slots: seq<TriePtr>, moved: int, p: NodeResult) {
    match o
    case IoFailed => true
    case PatchFound => p.PatchAhead?
    case Corrupted => p == Bad(Corruption)
    case Panicked => p == Bad(Panic)
    case Loaded(id) => p.Node? && p.id == id && p.ptrs == slots && p.consumed == moved
  }

  /**
    Reads the pointers of a node at the reader's position.  Unless reading fails, the outcome is
    the one of decoding the bytes in view; on success the slots hold the list and the reader stands
    behind it.
   */
  method PtrsFromBytes(kind: NodeKind, r: Reader, slots: array<TriePtr>) returns (o: Outcome)
    requires slots.Length == Slots(kind)
    modifies r, slots
    ensures Agrees(o, slots[..], r.pos - old(r.pos), ParseNode(kind, Window(Rest(r.data, old(r.pos)), ReadSize(kind))))
  {
    var start := r.pos;
    var buffer := FillBuffer(r, ReadSize(kind));
    if buffer.None? {
      return IoFailed;
    }
    var bytes := buffer.value;
    if bytes == [] {
      return Corrupted;
    }
    var nid, b := bytes[0], bytes[1..];
    if ClearCtrlBits(nid) != KindId(kind) {
      return if ClearCtrlBits(nid) == PATCH_ID then PatchFound else Corrupted;
    }
    var header, e := 1, Broken(Corruption);
    if !IsCompressed(nid) {
      e := FillSlots(FromBytes, b, slots);
    } else if b != [] && b[0] == SPARSE_PTR_BITMAP_MARKER {
      var size, tail := BitmapSize(kind), b[1..];
      if |tail| >= size {
        header := 2 + size;
        e := FillSparseSlots(tail[..size], tail[size..], slots);
      }
    } else if b != [] {
      e := FillSlots(DecodeCompressed, b, slots);
    }
    match e
    case Broken(fault) => o := if fault == Corruption then Corrupted else Panicked;
    case End(cursor) =>
      r.pos := start + header + cursor;
      o := Loaded(ClearCompressed(nid));
  }

  /** A written list comes back into the slots, and the reader ends exactly behind it, wherever it starts and whatever follows. */
  method ReadBack(kind: NodeKind, compressed: bool, ptrs: seq<TriePtr>, r: Reader, slots: array<TriePtr>, s: Bytes)
    returns (o: Outcome)
    requires |ptrs| == Slots(kind) == slots.Length && AllPlain(ptrs) && EmptySlotsDefault(ptrs)
    requires Rest(r.data, r.pos) == PutNode(kind, compressed, ptrs) + s
    modifies r, slots
    ensures o == IoFailed || o == Loaded(KindId(kind))
    ensures o.Loaded? ==> slots[..] == ptrs && Rest(r.data, r.pos) == s
  {
    ghost var b, pos := PutNode(kind, compressed, ptrs), r.pos;
    ListRoundTrip(kind, compressed, ptrs, s);
    o := PtrsFromBytes(kind, r, slots);
    assert Rest(r.data, pos + |b|) == Rest(r.data, pos)[|b|..] == s;
  }
}
