/**
  One child pointer of a trie node and its two encodings.

  The low four bits of the identifier name the kind of node.  The four high
  bits are control bits: a back-pointer into another block (0x80), and three
  that exist only on disk and say how the pointer is stored: compressed (0x40),
  with an eight-byte offset (0x20), with a squash annotation (0x10).
 */
module TriePtrs {
  import opened Wire
  import opened Codecs

  datatype TriePtr = TriePtr(id: byte, chr: byte, ptr: u64, backBlock: u32)

  const EMPTY: TriePtr := TriePtr(0, 0, 0, 0)

  predicate IsBackptr(id: byte) { id / 0x80 % 2 == 1 }

  predicate IsCompressed(id: byte) { id / 0x40 % 2 == 1 }

  predicate IsU64Ptr(id: byte) { id / 0x20 % 2 == 1 }

  predicate HasInlineBackBlock(id: byte) { id / 0x10 % 2 == 1 }

  predicate HasBackBlockPayload(id: byte) {
    IsBackptr(id) || HasInlineBackBlock(id)
  }

  function SetCompressed(id: byte): byte { if IsCompressed(id) then id else id + 0x40 }

  function ClearCompressed(id: byte): byte { if IsCompressed(id) then id - 0x40 else id }

  function SetU64Ptr(id: byte): byte { if IsU64Ptr(id) then id else id + 0x20 }

  function ClearU64Ptr(id: byte): byte { if IsU64Ptr(id) then id - 0x20 else id }

  function SetInlineBackBlock(id: byte): byte { if HasInlineBackBlock(id) then id else id + 0x10 }

  function ClearInlineBackBlock(id: byte): byte { if HasInlineBackBlock(id) then id - 0x10 else id }

  function ClearCtrlBits(id: byte): byte { id % 0x10 }

  /** No bit that exists only on disk is set: a kind of node, perhaps behind a back-pointer. */
  predicate Plain(id: byte) {
    !IsCompressed(id) && !IsU64Ptr(id) && !HasInlineBackBlock(id)
  }

  // ---------- Encoding ----------

  function EncodedId(p: TriePtr): byte {
    if p.ptr > MAX_U32 then SetU64Ptr(p.id) else ClearU64Ptr(p.id)
  }

  function PutOffset(p: TriePtr): (b: Bytes)
    ensures |b| == if IsU64Ptr(EncodedId(p)) then 8 else 4
  {
    if p.ptr > MAX_U32 then BigEndian(8, p.ptr) else BigEndian(4, p.ptr)
  }

  function EncodedSizeForId(id: byte): nat { 2 + (if IsU64Ptr(id) then 8 else 4) + 4 }

  function CompressedSizeForId(id: byte): nat {
    if HasBackBlockPayload(id) then EncodedSizeForId(id) else 2 + if IsU64Ptr(id) then 8 else 4
  }

  function EncodedSize(p: TriePtr): nat { EncodedSizeForId(EncodedId(p)) }

  function CompressedSize(p: TriePtr): nat {
    if !IsBackptr(p.id) && p.backBlock != 0 then EncodedSizeForId(EncodedId(p))
    else CompressedSizeForId(EncodedId(p))
  }

  const MAX_ENCODED_SIZE: nat := 14

  function Put(p: TriePtr): Bytes {
    [EncodedId(p)] + ([p.chr] + (PutOffset(p) + PutU32(p.backBlock)))
  }

  function CompressedId(p: TriePtr): byte {
    var id := SetCompressed(EncodedId(p));
    if !IsBackptr(p.id) && p.backBlock != 0 then SetInlineBackBlock(id) else id
  }

  function PutCompressed(p: TriePtr): Bytes {
    [CompressedId(p)] + ([p.chr] + (PutOffset(p) + if HasBackBlockPayload(CompressedId(p)) then PutU32(p.backBlock) else []))
  }

  // ---------- Decoding ----------

  function Offset(id: byte, b: Bytes): u64
    requires |b| >= if IsU64Ptr(id) then 8 else 4
  {
    Pow256Values();
    if IsU64Ptr(id) then FromBigEndianBound(b[..8]); FromBigEndian(b[..8])
    else FromBigEndianBound(b[..4]); FromBigEndian(b[..4])
  }

  function BackBlock(b: Bytes): u32
    requires |b| >= 4
  {
    Pow256Values();
    FromBigEndianBound(b[..4]);
    FromBigEndian(b[..4])
  }

  /** `None` stands for the panic on a slice that is too short. */
  function FromBytes(b: Bytes): Option<(TriePtr, nat)> {
    if b == [] || |b| < EncodedSizeForId(b[0]) then None
    else
      var id := b[0];
      var n := EncodedSizeForId(id);
      Some((TriePtr(ClearU64Ptr(id), b[1], Offset(id, b[2..]), BackBlock(b[n - 4..])), n))
  }

  function FromBytesCompressed(b: Bytes): Option<TriePtr> {
    if b == [] || |b| < CompressedSizeForId(ClearCompressed(b[0])) then None
    else
      var id := ClearCompressed(b[0]);
      var n := CompressedSizeForId(id);
      Some(TriePtr(ClearU64Ptr(ClearInlineBackBlock(id)), b[1], Offset(id, b[2..]),
                   if HasBackBlockPayload(id) then BackBlock(b[n - 4..]) else 0))
  }

  // ---------- Sizes and round trips ----------

  lemma EncodedSizes(p: TriePtr)
    ensures |Put(p)| == EncodedSize(p) && 10 <= EncodedSize(p) <= MAX_ENCODED_SIZE
    ensures Plain(p.id) ==> |PutCompressed(p)| == CompressedSize(p)
    ensures 6 <= CompressedSize(p) <= EncodedSize(p)
  {
  }

  lemma OffsetPut(p: TriePtr, s: Bytes)
    ensures Offset(EncodedId(p), PutOffset(p) + s) == p.ptr
  {
    Pow256Values();
    var n := if p.ptr > MAX_U32 then 8 else 4;
    assert (PutOffset(p) + s)[..n] == BigEndian(n, p.ptr);
    BigEndianRoundTrip(n, p.ptr);
  }

  lemma BackBlockPut(x: u32, s: Bytes)
    ensures BackBlock(PutU32(x) + s) == x
  {
    Pow256Values();
    assert (PutU32(x) + s)[..4] == BigEndian(4, x);
    BigEndianRoundTrip(4, x);
  }

  /** Layout shared by both encodings: identifier, character, offset and whatever follows. */
  lemma Layout(id: byte, p: TriePtr, t: Bytes)
    ensures var b := [id] + ([p.chr] + (PutOffset(p) + t));
            && b[0] == id && b[1] == p.chr && b[2..] == PutOffset(p) + t
            && b[2 + |PutOffset(p)|..] == t && |b| == 2 + |PutOffset(p)| + |t|
  {
  }

  /** Where the bytes of an uncompressed pointer are, and which bit of its identifier tells the width of the offset. */
  lemma PointerBytes(p: TriePtr)
    ensures var b, w := Put(p), if p.ptr < 0x1_0000_0000 then 4 else 8;
            && |b| == 6 + w && b[1] == p.chr && b[2..2 + w] == BigEndian(w, p.ptr) && b[2 + w..] == BigEndian(4, p.backBlock)
            && b[0] % 0x20 == p.id % 0x20 && b[0] / 0x40 == p.id / 0x40 && (b[0] / 0x20 % 2 == 1 <==> w == 8)
  {
    Layout(EncodedId(p), p, PutU32(p.backBlock));
    assert Put(p)[2..][..|PutOffset(p)|] == PutOffset(p);
  }

  /** The same for a compressed one: only back-pointers and annotated pointers carry the other block. */
  lemma CompressedPointerBytes(p: TriePtr)
    requires p.id < 0x10 || 0x80 <= p.id < 0x90
    ensures var b, w := PutCompressed(p), if p.ptr < 0x1_0000_0000 then 4 else 8;
            var annotated := p.id < 0x80 && p.backBlock != 0;
            && b[0] == p.id + 0x40 + (if w == 8 then 0x20 else 0) + (if annotated then 0x10 else 0)
            && b[1] == p.chr && b[2..2 + w] == BigEndian(w, p.ptr)
            && b[2 + w..] == if p.id >= 0x80 || annotated then BigEndian(4, p.backBlock) else []
  {
    var t := if HasBackBlockPayload(CompressedId(p)) then PutU32(p.backBlock) else [];
    StoredId(p);
    PlainSum(p.id, p.ptr > MAX_U32, !IsBackptr(p.id) && p.backBlock != 0);
    Layout(CompressedId(p), p, t);
    assert PutCompressed(p)[2..][..|PutOffset(p)|] == PutOffset(p);
  }

  lemma WidthBit(p: TriePtr)
    ensures IsU64Ptr(EncodedId(p)) <==> p.ptr > MAX_U32
    ensures ClearU64Ptr(EncodedId(p)) == ClearU64Ptr(p.id)
    ensures IsBackptr(EncodedId(p)) <==> IsBackptr(p.id)
  {
  }

  lemma PayloadBit(p: TriePtr)
    ensures HasInlineBackBlock(EncodedId(p)) <==> HasInlineBackBlock(p.id)
  {
  }

  /** On plain identifiers the stored identifier is the sum of its parts. */
  lemma StoredId(p: TriePtr)
    requires Plain(p.id)
    ensures CompressedId(p) ==
              p.id + 0x40 + (if p.ptr > MAX_U32 then 0x20 else 0) + if !IsBackptr(p.id) && p.backBlock != 0 then 0x10 else 0
  {
  }

  lemma PlainSum(id: byte, wide: bool, annotated: bool)
    requires Plain(id) && (annotated ==> !IsBackptr(id))
    ensures id + 0x40 + (if wide then 0x20 else 0) + (if annotated then 0x10 else 0) < 0xff
    ensures var stored: byte := id + 0x40 + (if wide then 0x20 else 0) + (if annotated then 0x10 else 0);
            var cleared := ClearCompressed(stored);
            && cleared == stored - 0x40
            && (IsU64Ptr(cleared) <==> wide) && (IsBackptr(cleared) <==> IsBackptr(id))
            && (HasInlineBackBlock(cleared) <==> annotated)
            && ClearU64Ptr(ClearInlineBackBlock(cleared)) == id
            && (HasBackBlockPayload(stored) <==> HasBackBlockPayload(cleared))
  {
    assert id == 0x80 * (id / 0x80) + id % 0x10;
  }

  lemma IdBits(p: TriePtr)
    requires Plain(p.id)
    ensures var id := ClearCompressed(CompressedId(p));
            && (IsU64Ptr(id) <==> p.ptr > MAX_U32) && (IsBackptr(id) <==> IsBackptr(p.id))
            && (HasInlineBackBlock(id) <==> !IsBackptr(p.id) && p.backBlock != 0)
            && ClearU64Ptr(ClearInlineBackBlock(id)) == p.id
            && HasBackBlockPayload(CompressedId(p)) == HasBackBlockPayload(id)
            && CompressedId(p) != 0xff
  {
    StoredId(p);
    PlainSum(p.id, p.ptr > MAX_U32, !IsBackptr(p.id) && p.backBlock != 0);
  }

  /** An uncompressed pointer is read back, from any longer slice, exactly when its identifier does not claim a width. */
  lemma RoundTrip(p: TriePtr, s: Bytes)
    ensures FromBytes(Put(p) + s) == Some((p, |Put(p)|)) <==> !IsU64Ptr(p.id)
    ensures !IsU64Ptr(p.id) ==> FromBytes(Put(p) + s) == Some((p, EncodedSize(p)))
  {
    var id, t := EncodedId(p), PutU32(p.backBlock) + s;
    WidthBit(p);
    EncodedSizes(p);
    assert Put(p) + s == [id] + ([p.chr] + (PutOffset(p) + t));
    Layout(id, p, t);
    OffsetPut(p, t);
    BackBlockPut(p.backBlock, s);
  }

  lemma ClearsCompressed(id: byte)
    ensures !IsCompressed(ClearCompressed(id))
  {
  }

  lemma ClearsInlineBackBlock(id: byte)
    ensures !HasInlineBackBlock(ClearInlineBackBlock(id))
    ensures IsCompressed(ClearInlineBackBlock(id)) <==> IsCompressed(id)
  {
  }

  lemma ClearsU64Ptr(id: byte)
    ensures !IsU64Ptr(ClearU64Ptr(id))
    ensures IsCompressed(ClearU64Ptr(id)) <==> IsCompressed(id)
    ensures HasInlineBackBlock(ClearU64Ptr(id)) <==> HasInlineBackBlock(id)
  {
  }

  lemma DecodedIdPlain(b: Bytes)
    ensures FromBytesCompressed(b).Some? ==> Plain(FromBytesCompressed(b).value.id)
  {
    if b != [] {
      var id := ClearCompressed(b[0]);
      ClearsCompressed(b[0]);
      ClearsInlineBackBlock(id);
      ClearsU64Ptr(ClearInlineBackBlock(id));
    }
  }

  lemma NestedAppend(a: Bytes, b: Bytes, c: Bytes, d: Bytes, s: Bytes)
    ensures (a + (b + (c + d))) + s == a + (b + (c + (d + s)))
  {
    Assoc(a, b + (c + d), s);
    Assoc(b, c + d, s);
    Assoc(c, d, s);
  }

  lemma PlainRoundTripCompressed(p: TriePtr, s: Bytes)
    requires Plain(p.id)
    ensures FromBytesCompressed(PutCompressed(p) + s) == Some(p)
  {
    var id := CompressedId(p);
    IdBits(p);
    EncodedSizes(p);
    var payload := if HasBackBlockPayload(id) then PutU32(p.backBlock) else [];
    NestedAppend([id], [p.chr], PutOffset(p), payload, s);
    Layout(id, p, payload + s);
    OffsetPut(p, payload + s);
    BackBlockPut(p.backBlock, s);
  }

  /** A compressed pointer is read back, from any longer slice, exactly when no disk-only bit was set in its identifier. */
  lemma RoundTripCompressed(p: TriePtr, s: Bytes)
    ensures FromBytesCompressed(PutCompressed(p) + s) == Some(p) <==> Plain(p.id)
  {
    DecodedIdPlain(PutCompressed(p) + s);
    if Plain(p.id) {
      PlainRoundTripCompressed(p, s);
    }
  }

  /** A decoded compressed pointer never has a canonical size larger than the bytes it came from. */
  lemma DecodedSize(b: Bytes)
    ensures FromBytesCompressed(b).Some? ==> CompressedSize(FromBytesCompressed(b).value) <= |b|
  {
    if FromBytesCompressed(b).Some? {
      var id := ClearCompressed(b[0]);
      var p := FromBytesCompressed(b).value;
      assert IsU64Ptr(EncodedId(p)) ==> IsU64Ptr(id) by {
        Pow256Values();
        if !IsU64Ptr(id) {
          FromBigEndianBound(b[2..][..4]);
        }
      }
    }
  }
}
