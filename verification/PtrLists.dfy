/**
  The list of child pointers of a trie node: an uncompressed form, and a
  compressed form that is either dense or sparse, whichever is shorter.

  The reader does not know how long a list is.  It reads as much as the longest
  list could take, decodes the list from what it got, and seeks back to the
  byte after the list.
 */
module PtrLists {
  import opened Wire
  import opened Codecs
  import opened Bits
  import opened TriePtrs

  const SPARSE_PTR_BITMAP_MARKER: byte := 0xff
  const PATCH_ID: byte := 6

  datatype NodeKind = Node4 | Node16 | Node48 | Node256

  function KindId(kind: NodeKind): byte {
    match kind
    case Node4 => 2
    case Node16 => 3
    case Node48 => 4
    case Node256 => 5
  }

  function Slots(kind: NodeKind): nat {
    match kind
    case Node4 => 4
    case Node16 => 16
    case Node48 => 48
    case Node256 => 256
  }

  function BitmapSize(kind: NodeKind): nat {
    match kind
    case Node4 => 1
    case Node16 => 2
    case Node48 => 6
    case Node256 => 32
  }

  predicate AllPlain(ptrs: seq<TriePtr>) {
    forall i | 0 <= i < |ptrs| :: Plain(ptrs[i].id)
  }

  // ---------- Sizes ----------

  function DenseSize(ptrs: seq<TriePtr>): nat {
    if ptrs == [] then 0 else DenseSize(ptrs[..|ptrs| - 1]) + CompressedSize(ptrs[|ptrs| - 1])
  }

  /** Only occupied slots count. */
  function OccupiedSize(ptrs: seq<TriePtr>): nat {
    if ptrs == [] then 0
    else OccupiedSize(ptrs[..|ptrs| - 1]) + if ptrs[|ptrs| - 1].id != 0 then CompressedSize(ptrs[|ptrs| - 1]) else 0
  }

  function SparseSize(kind: NodeKind, ptrs: seq<TriePtr>): nat {
    1 + BitmapSize(kind) + OccupiedSize(ptrs)
  }

  predicate IsSparse(kind: NodeKind, ptrs: seq<TriePtr>) {
    SparseSize(kind, ptrs) < DenseSize(ptrs)
  }

  function UncompressedSize(ptrs: seq<TriePtr>): nat {
    if ptrs == [] then 0 else UncompressedSize(ptrs[..|ptrs| - 1]) + EncodedSize(ptrs[|ptrs| - 1])
  }

  function CompressedListSize(kind: NodeKind, ptrs: seq<TriePtr>): nat {
    if IsSparse(kind, ptrs) then SparseSize(kind, ptrs) else DenseSize(ptrs)
  }

  method GetCompressedPtrsSize(kind: NodeKind, ptrs: seq<TriePtr>) returns (size: nat, isSparse: bool)
    ensures size == CompressedListSize(kind, ptrs) && isSparse == IsSparse(kind, ptrs)
    ensures size <= DenseSize(ptrs) && size <= SparseSize(kind, ptrs)
  {
    var sparsePtrsSize, ptrsSize := 0, 0;
    for i := 0 to |ptrs|
      invariant ptrsSize == DenseSize(ptrs[..i]) && sparsePtrsSize == OccupiedSize(ptrs[..i])
    {
      assert ptrs[..i + 1][..i] == ptrs[..i];
      if ptrs[i].id != 0 {
        sparsePtrsSize := sparsePtrsSize + CompressedSize(ptrs[i]);
      }
      ptrsSize := ptrsSize + CompressedSize(ptrs[i]);
    }
    assert ptrs[..|ptrs|] == ptrs;
    var sparseSize := 1 + BitmapSize(kind) + sparsePtrsSize;
    if sparseSize < ptrsSize {
      return sparseSize, true;
    } else {
      return ptrsSize, false;
    }
  }

  // ---------- Writing ----------

  function PutAll(ptrs: seq<TriePtr>): Bytes {
    PutMany(Put, ptrs)
  }

  function PutDense(ptrs: seq<TriePtr>): Bytes {
    PutMany(PutCompressed, ptrs)
  }

  function PutIfOccupied(p: TriePtr): Bytes {
    if p.id != 0 then PutCompressed(p) else []
  }

  function PutOccupied(ptrs: seq<TriePtr>): Bytes {
    PutMany(PutIfOccupied, ptrs)
  }

  /** A bitmap of `size` bytes in which the occupied ones among the first `i` slots are marked. */
  function Marked(ptrs: seq<TriePtr>, size: nat, i: nat): (m: Bytes)
    requires i <= |ptrs| <= 8 * size
    ensures |m| == size
  {
    if i == 0 then seq(size, _ => 0)
    else
      var m := Marked(ptrs, size, i - 1);
      if ptrs[i - 1].id != 0 then m[(i - 1) / 8 := SetBit(m[(i - 1) / 8], (i - 1) % 8)] else m
  }

  function Bitmap(kind: NodeKind, ptrs: seq<TriePtr>): Bytes
    requires |ptrs| == Slots(kind)
  {
    Marked(ptrs, BitmapSize(kind), |ptrs|)
  }

  function PutSparse(kind: NodeKind, ptrs: seq<TriePtr>): Bytes
    requires |ptrs| == Slots(kind)
  {
    [SPARSE_PTR_BITMAP_MARKER] + (Bitmap(kind, ptrs) + PutOccupied(ptrs))
  }

  function PutCompressedList(kind: NodeKind, ptrs: seq<TriePtr>): Bytes
    requires |ptrs| == Slots(kind)
  {
    if IsSparse(kind, ptrs) then PutSparse(kind, ptrs) else PutDense(ptrs)
  }

  /** The writer: picks the form by size, marks the bitmap bit by bit, and writes the pointers in order. */
  method MarkOccupied(kind: NodeKind, ptrs: seq<TriePtr>) returns (bitmap: Bytes)
    requires |ptrs| == Slots(kind)
    ensures bitmap == Bitmap(kind, ptrs)
  {
    bitmap := seq(BitmapSize(kind), _ => 0);
    for i := 0 to |ptrs|
      invariant bitmap == Marked(ptrs, BitmapSize(kind), i)
    {
      if ptrs[i].id != 0 {
        bitmap := bitmap[i / 8 := SetBit(bitmap[i / 8], i % 8)];
      }
    }
  }

  method WritePtrsCompressed(kind: NodeKind, ptrs: seq<TriePtr>) returns (out: Bytes)
    requires |ptrs| == Slots(kind)
    ensures out == PutCompressedList(kind, ptrs)
  {
    var _, isSparse := GetCompressedPtrsSize(kind, ptrs);
    if isSparse {
      var bitmap := MarkOccupied(kind, ptrs);
      var written: Bytes := [];
      for i := 0 to |ptrs|
        invariant written == PutOccupied(ptrs[..i])
      {
        assert ptrs[..i + 1] == ptrs[..i] + [ptrs[i]];
        PutManySnoc(PutIfOccupied, ptrs[..i], ptrs[i]);
        if ptrs[i].id != 0 {
          written := written + PutCompressed(ptrs[i]);
        }
      }
      assert ptrs[..|ptrs|] == ptrs;
      out := [SPARSE_PTR_BITMAP_MARKER] + (bitmap + written);
    } else {
      out := [];
      for i := 0 to |ptrs|
        invariant out == PutDense(ptrs[..i])
      {
        assert ptrs[..i + 1] == ptrs[..i] + [ptrs[i]];
        PutManySnoc(PutCompressed, ptrs[..i], ptrs[i]);
        out := out + PutCompressed(ptrs[i]);
      }
      assert ptrs[..|ptrs|] == ptrs;
    }
  }

  lemma {:induction false} ListLengths(ptrs: seq<TriePtr>)
    requires AllPlain(ptrs)
    ensures |PutDense(ptrs)| == DenseSize(ptrs) && |PutOccupied(ptrs)| == OccupiedSize(ptrs)
  {
    if ptrs != [] {
      var n := |ptrs| - 1;
      ListLengths(ptrs[..n]);
      assert ptrs == ptrs[..n] + [ptrs[n]];
      PutManySnoc(PutCompressed, ptrs[..n], ptrs[n]);
      PutManySnoc(PutIfOccupied, ptrs[..n], ptrs[n]);
      EncodedSizes(ptrs[n]);
    }
  }

  /** Of the two compressed forms the one with fewer bytes is written, and the dense one if they are equal. */
  lemma ShorterForm(kind: NodeKind, ptrs: seq<TriePtr>)
    requires |ptrs| == Slots(kind) && AllPlain(ptrs)
    ensures PutCompressedList(kind, ptrs) == if |PutSparse(kind, ptrs)| < |PutDense(ptrs)| then PutSparse(kind, ptrs) else PutDense(ptrs)
  {
    ListLengths(ptrs);
  }

  lemma {:induction false} PutAllLength(ptrs: seq<TriePtr>)
    ensures |PutAll(ptrs)| <= MAX_ENCODED_SIZE * |ptrs|
  {
    if ptrs != [] {
      PutAllLength(ptrs[1..]);
      EncodedSizes(ptrs[0]);
    }
  }

  lemma {:induction false} DenseSizeBound(ptrs: seq<TriePtr>)
    ensures DenseSize(ptrs) <= MAX_ENCODED_SIZE * |ptrs|
  {
    if ptrs != [] {
      DenseSizeBound(ptrs[..|ptrs| - 1]);
      EncodedSizes(ptrs[|ptrs| - 1]);
    }
  }

  lemma {:induction false} MarkedBits(ptrs: seq<TriePtr>, size: nat, i: nat, j: nat)
    requires i <= |ptrs| <= 8 * size && j < 8 * size
    ensures Bit(Marked(ptrs, size, i)[j / 8], j % 8) <==> j < i && ptrs[j].id != 0
  {
    if i == 0 {
      ZeroBits(j % 8);
    } else {
      MarkedBits(ptrs, size, i - 1, j);
      var m := Marked(ptrs, size, i - 1);
      if ptrs[i - 1].id != 0 && j / 8 == (i - 1) / 8 {
        OrBits(m[j / 8], (i - 1) % 8, j % 8);
      }
    }
  }

  // ---------- Decoding a list from the bytes at hand ----------

  datatype Fault = Corruption | Panic

  datatype ListResult = Listed(ptrs: seq<TriePtr>, end: nat) | Faulty(fault: Fault)

  function Cons(p: TriePtr, r: ListResult): ListResult {
    match r
    case Listed(ps, end) => Listed([p] + ps, end)
    case Faulty(f) => Faulty(f)
  }

  /** Decodes one pointer from the start of a slice and says how far to move on. */
  type Decoder = Bytes -> Option<(TriePtr, nat)>

  /** After a compressed pointer the cursor moves by the size the decoded pointer would be written with. */
  function DecodeCompressed(b: Bytes): Option<(TriePtr, nat)> {
    match FromBytesCompressed(b)
    case None => None
    case Some(p) => Some((p, CompressedSize(p)))
  }

  function ListFrom(decode: Decoder, b: Bytes, cursor: nat, n: nat): ListResult
    decreases n
  {
    if n == 0 then Listed([], cursor)
    else if cursor > |b| then Faulty(Corruption)
    else match decode(b[cursor..])
         case None => Faulty(Panic)
         case Some((p, size)) => Cons(p, ListFrom(decode, b, cursor + size, n - 1))
  }

  function SparseFrom(decode: Decoder, bitmap: Bytes, b: Bytes, cursor: nat, i: nat, n: nat): ListResult
    requires i <= n <= 8 * |bitmap|
    decreases n - i
  {
    if i == n then Listed([], cursor)
    else if !Bit(bitmap[i / 8], i % 8) then Cons(EMPTY, SparseFrom(decode, bitmap, b, cursor, i + 1, n))
    else if cursor > |b| then Faulty(Corruption)
    else match decode(b[cursor..])
         case None => Faulty(Panic)
         case Some((p, size)) => Cons(p, SparseFrom(decode, bitmap, b, cursor + size, i + 1, n))
  }

  datatype NodeResult = Node(id: byte, ptrs: seq<TriePtr>, consumed: nat) | PatchAhead | Bad(fault: Fault)

  function Finish(nid: byte, header: nat, r: ListResult): NodeResult {
    match r
    case Listed(ptrs, end) => Node(ClearCompressed(nid), ptrs, header + end)
    case Faulty(f) => Bad(f)
  }

  function ParseSparse(kind: NodeKind, nid: byte, b: Bytes): NodeResult {
    if |b| < BitmapSize(kind) then Bad(Corruption)
    else Finish(nid, 2 + BitmapSize(kind), SparseFrom(DecodeCompressed, b[..BitmapSize(kind)], b[BitmapSize(kind)..], 0, 0, Slots(kind)))
  }

  function ParseBody(kind: NodeKind, nid: byte, b: Bytes): NodeResult {
    if ClearCtrlBits(nid) != KindId(kind) then (if ClearCtrlBits(nid) == PATCH_ID then PatchAhead else Bad(Corruption))
    else if !IsCompressed(nid) then Finish(nid, 1, ListFrom(FromBytes, b, 0, Slots(kind)))
    else if b == [] then Bad(Corruption)
    else if b[0] == SPARSE_PTR_BITMAP_MARKER then ParseSparse(kind, nid, b[1..])
    else Finish(nid, 1, ListFrom(DecodeCompressed, b, 0, Slots(kind)))
  }

  /** What the reader makes of the bytes it got, starting at the node's identifier. */
  function ParseNode(kind: NodeKind, bytes: Bytes): NodeResult {
    if bytes == [] then Bad(Corruption) else ParseBody(kind, bytes[0], bytes[1..])
  }

  /** One identifier, the longest possible list, and room for the header of a patch. */
  function ReadSize(kind: NodeKind): nat {
    1 + Slots(kind) * MAX_ENCODED_SIZE + (MAX_ENCODED_SIZE + 1)
  }

  /** Whatever the bytes, the cursor of a compressed list never passes their end. */
  lemma {:induction false} CursorStaysInside(b: Bytes, cursor: nat, n: nat)
    requires cursor <= |b|
    ensures ListFrom(DecodeCompressed, b, cursor, n) != Faulty(Corruption)
    decreases n
  {
    if n > 0 {
      var read := FromBytesCompressed(b[cursor..]);
      DecodedSize(b[cursor..]);
      if read.Some? {
        CursorStaysInside(b, cursor + CompressedSize(read.value), n - 1);
      }
    }
  }

  // ---------- Every list is read back ----------

  lemma SliceAfter(x: Bytes, y: Bytes, b: Bytes, cursor: nat)
    requires cursor <= |b| && b[cursor..] == x + y
    ensures cursor + |x| <= |b| && b[cursor + |x|..] == y
  {
    assert b[cursor + |x|..] == b[cursor..][|x|..];
  }

  /** The decoder finds exactly the pointer that was put, whatever follows it. */
  ghost predicate Reads(decode: Decoder, put: TriePtr -> Bytes, p: TriePtr) {
    forall s :: decode(put(p) + s) == Some((p, |put(p)|))
  }

  lemma {:induction false} ListReads(decode: Decoder, put: TriePtr -> Bytes, ptrs: seq<TriePtr>, b: Bytes, cursor: nat, s: Bytes)
    requires forall i | 0 <= i < |ptrs| :: Reads(decode, put, ptrs[i])
    requires cursor <= |b| && b[cursor..] == PutMany(put, ptrs) + s
    ensures ListFrom(decode, b, cursor, |ptrs|) == Listed(ptrs, cursor + |PutMany(put, ptrs)|)
    decreases ptrs
  {
    if ptrs != [] {
      var x, rest := put(ptrs[0]), PutMany(put, ptrs[1..]) + s;
      assert Reads(decode, put, ptrs[0]);
      Assoc(x, PutMany(put, ptrs[1..]), s);
      assert decode(x + rest) == Some((ptrs[0], |x|));
      SliceAfter(x, rest, b, cursor);
      ListReads(decode, put, ptrs[1..], b, cursor + |x|, s);
      assert [ptrs[0]] + ptrs[1..] == ptrs;
    }
  }

  lemma PlainReads(p: TriePtr)
    requires Plain(p.id)
    ensures Reads(FromBytes, Put, p) && Reads(DecodeCompressed, PutCompressed, p)
  {
    forall s ensures FromBytes(Put(p) + s) == Some((p, |Put(p)|)) {
      RoundTrip(p, s);
    }
    EncodedSizes(p);
    forall s ensures DecodeCompressed(PutCompressed(p) + s) == Some((p, |PutCompressed(p)|)) {
      RoundTripCompressed(p, s);
    }
  }

  /** What a sparse list keeps: every occupied slot, and nothing of the empty ones. */
  function Emptied(ptrs: seq<TriePtr>): seq<TriePtr> {
    if ptrs == [] then [] else [if ptrs[0].id != 0 then ptrs[0] else EMPTY] + Emptied(ptrs[1..])
  }

  predicate EmptySlotsDefault(ptrs: seq<TriePtr>) {
    forall i | 0 <= i < |ptrs| :: ptrs[i].id == 0 ==> ptrs[i] == EMPTY
  }

  lemma {:induction false} EmptiedIff(ptrs: seq<TriePtr>)
    ensures Emptied(ptrs) == ptrs <==> EmptySlotsDefault(ptrs)
  {
    if ptrs != [] {
      EmptiedIff(ptrs[1..]);
      var e := Emptied(ptrs);
      assert e[1..] == Emptied(ptrs[1..]);
      assert ptrs == [ptrs[0]] + ptrs[1..];
      if e == ptrs {
        assert e[0] == ptrs[0];
        forall i | 0 <= i < |ptrs| ensures ptrs[i].id == 0 ==> ptrs[i] == EMPTY {
          if i > 0 {
            assert ptrs[i] == ptrs[1..][i - 1];
          }
        }
      }
    }
  }

  /** The bitmap marks exactly the occupied slots. */
  predicate Marks(bitmap: Bytes, ptrs: seq<TriePtr>)
    requires |ptrs| <= 8 * |bitmap|
  {
    forall j | 0 <= j < |ptrs| :: Bit(bitmap[j / 8], j % 8) <==> ptrs[j].id != 0
  }

  /** Writes occupied slots with `put` and nothing for empty ones. */
  ghost predicate SkipsEmpty(put: TriePtr -> Bytes, ptrs: seq<TriePtr>) {
    forall i | 0 <= i < |ptrs| :: ptrs[i].id == 0 ==> put(ptrs[i]) == []
  }

  /** One occupied slot. */
  lemma SparseOccupied(decode: Decoder, bitmap: Bytes, b: Bytes, cursor: nat, i: nat, n: nat, p: TriePtr, size: nat)
    requires i < n <= 8 * |bitmap| && cursor <= |b| && Bit(bitmap[i / 8], i % 8) && decode(b[cursor..]) == Some((p, size))
    ensures SparseFrom(decode, bitmap, b, cursor, i, n) == Cons(p, SparseFrom(decode, bitmap, b, cursor + size, i + 1, n))
  {
  }

  /** One empty slot. */
  lemma SparseSkipped(decode: Decoder, bitmap: Bytes, b: Bytes, cursor: nat, i: nat, n: nat)
    requires i < n <= 8 * |bitmap| && !Bit(bitmap[i / 8], i % 8)
    ensures SparseFrom(decode, bitmap, b, cursor, i, n) == Cons(EMPTY, SparseFrom(decode, bitmap, b, cursor, i + 1, n))
  {
  }

  lemma EmptiedFrom(ptrs: seq<TriePtr>, i: nat)
    requires i < |ptrs|
    ensures Emptied(ptrs[i..]) == [if ptrs[i].id != 0 then ptrs[i] else EMPTY] + Emptied(ptrs[i + 1..])
  {
    assert ptrs[i..][0] == ptrs[i] && ptrs[i..][1..] == ptrs[i + 1..];
  }

  lemma PutManyFrom(put: TriePtr -> Bytes, ptrs: seq<TriePtr>, i: nat, s: Bytes)
    requires i < |ptrs|
    ensures PutMany(put, ptrs[i..]) == put(ptrs[i]) + PutMany(put, ptrs[i + 1..])
    ensures PutMany(put, ptrs[i..]) + s == put(ptrs[i]) + (PutMany(put, ptrs[i + 1..]) + s)
  {
    assert ptrs[i..][0] == ptrs[i] && ptrs[i..][1..] == ptrs[i + 1..];
    Assoc(put(ptrs[i]), PutMany(put, ptrs[i + 1..]), s);
  }

  ghost predicate ReadsOccupied(decode: Decoder, put: TriePtr -> Bytes, ptrs: seq<TriePtr>) {
    forall i | 0 <= i < |ptrs| :: ptrs[i].id != 0 ==> Reads(decode, put, ptrs[i])
  }

  /** The slot at `i` is decoded, and what follows its bytes is what the later slots wrote. */
  lemma SparseSlot(
    decode: Decoder, put: TriePtr -> Bytes, ptrs: seq<TriePtr>, bitmap: Bytes, b: Bytes, cursor: nat, i: nat, s: Bytes)
    requires ReadsOccupied(decode, put, ptrs) && SkipsEmpty(put, ptrs)
    requires i < |ptrs| <= 8 * |bitmap| && Marks(bitmap, ptrs)
    requires cursor <= |b| && b[cursor..] == PutMany(put, ptrs[i..]) + s
    ensures var next := cursor + |put(ptrs[i])|;
            && next <= |b| && b[next..] == PutMany(put, ptrs[i + 1..]) + s
            && SparseFrom(decode, bitmap, b, cursor, i, |ptrs|) ==
                 Cons(if ptrs[i].id != 0 then ptrs[i] else EMPTY, SparseFrom(decode, bitmap, b, next, i + 1, |ptrs|))
  {
    var x, rest := put(ptrs[i]), PutMany(put, ptrs[i + 1..]) + s;
    PutManyFrom(put, ptrs, i, s);
    SliceAfter(x, rest, b, cursor);
    if ptrs[i].id != 0 {
      assert Reads(decode, put, ptrs[i]);
      assert decode(x + rest) == Some((ptrs[i], |x|));
      SparseOccupied(decode, bitmap, b, cursor, i, |ptrs|, ptrs[i], |x|);
    } else {
      SparseSkipped(decode, bitmap, b, cursor, i, |ptrs|);
    }
  }

  lemma {:induction false} SparseReads(
    decode: Decoder, put: TriePtr -> Bytes, ptrs: seq<TriePtr>, bitmap: Bytes, b: Bytes, cursor: nat, i: nat, s: Bytes)
    requires ReadsOccupied(decode, put, ptrs) && SkipsEmpty(put, ptrs)
    requires i <= |ptrs| <= 8 * |bitmap| && Marks(bitmap, ptrs)
    requires cursor <= |b| && b[cursor..] == PutMany(put, ptrs[i..]) + s
    ensures SparseFrom(decode, bitmap, b, cursor, i, |ptrs|) ==
              Listed(Emptied(ptrs[i..]), cursor + |PutMany(put, ptrs[i..])|)
    decreases |ptrs| - i
  {
    if i < |ptrs| {
      SparseSlot(decode, put, ptrs, bitmap, b, cursor, i, s);
      SparseReads(decode, put, ptrs, bitmap, b, cursor + |put(ptrs[i])|, i + 1, s);
      EmptiedFrom(ptrs, i);
      PutManyFrom(put, ptrs, i, s);
    }
  }

  /** The written bytes of a node's pointers, uncompressed or compressed, with the identifier in front. */
  function PutNode(kind: NodeKind, compressed: bool, ptrs: seq<TriePtr>): Bytes
    requires |ptrs| == Slots(kind)
  {
    if compressed then [SetCompressed(KindId(kind))] + PutCompressedList(kind, ptrs) else [KindId(kind)] + PutAll(ptrs)
  }

  lemma ParsesBody(kind: NodeKind, nid: byte, b: Bytes)
    ensures ParseNode(kind, [nid] + b) == ParseBody(kind, nid, b)
  {
    assert ([nid] + b)[1..] == b;
  }

  lemma KindBits(kind: NodeKind)
    ensures ClearCtrlBits(KindId(kind)) == KindId(kind) == ClearCompressed(SetCompressed(KindId(kind)))
    ensures !IsCompressed(KindId(kind)) && ClearCompressed(KindId(kind)) == KindId(kind)
    ensures IsCompressed(SetCompressed(KindId(kind))) && ClearCtrlBits(SetCompressed(KindId(kind))) == KindId(kind)
  {
  }

  lemma ParseUncompressed(kind: NodeKind, ptrs: seq<TriePtr>, s: Bytes)
    requires |ptrs| == Slots(kind) && AllPlain(ptrs)
    ensures ParseNode(kind, PutNode(kind, false, ptrs) + s) == Node(KindId(kind), ptrs, |PutNode(kind, false, ptrs)|)
  {
    var b := PutAll(ptrs) + s;
    Assoc([KindId(kind)], PutAll(ptrs), s);
    ParsesBody(kind, KindId(kind), b);
    KindBits(kind);
    assert b[0..] == b;
    forall i | 0 <= i < |ptrs| ensures Reads(FromBytes, Put, ptrs[i]) {
      PlainReads(ptrs[i]);
    }
    ListReads(FromBytes, Put, ptrs, b, 0, s);
  }

  /** The first byte of a dense list is never mistaken for the marker. */
  lemma DenseFirstByte(ptrs: seq<TriePtr>, s: Bytes)
    requires ptrs != [] && AllPlain(ptrs)
    ensures PutDense(ptrs) + s != [] && (PutDense(ptrs) + s)[0] != SPARSE_PTR_BITMAP_MARKER
  {
    IdBits(ptrs[0]);
    assert PutDense(ptrs)[0] == CompressedId(ptrs[0]);
  }

  lemma ParseDense(kind: NodeKind, ptrs: seq<TriePtr>, s: Bytes)
    requires |ptrs| == Slots(kind) && AllPlain(ptrs) && !IsSparse(kind, ptrs)
    ensures ParseNode(kind, PutNode(kind, true, ptrs) + s) == Node(KindId(kind), ptrs, |PutNode(kind, true, ptrs)|)
  {
    var nid, b := SetCompressed(KindId(kind)), PutDense(ptrs) + s;
    Assoc([nid], PutDense(ptrs), s);
    ParsesBody(kind, nid, b);
    KindBits(kind);
    assert b[0..] == b;
    DenseFirstByte(ptrs, s);
    forall i | 0 <= i < |ptrs| ensures Reads(DecodeCompressed, PutCompressed, ptrs[i]) {
      PlainReads(ptrs[i]);
    }
    ListReads(DecodeCompressed, PutCompressed, ptrs, b, 0, s);
  }

  lemma BitmapMarks(kind: NodeKind, ptrs: seq<TriePtr>)
    requires |ptrs| == Slots(kind)
    ensures Marks(Bitmap(kind, ptrs), ptrs)
  {
    forall j | 0 <= j < |ptrs| ensures Bit(Bitmap(kind, ptrs)[j / 8], j % 8) <==> ptrs[j].id != 0 {
      MarkedBits(ptrs, BitmapSize(kind), |ptrs|, j);
    }
  }

  lemma OccupiedReads(ptrs: seq<TriePtr>)
    requires AllPlain(ptrs)
    ensures forall j | 0 <= j < |ptrs| :: ptrs[j].id != 0 ==> Reads(DecodeCompressed, PutIfOccupied, ptrs[j])
    ensures SkipsEmpty(PutIfOccupied, ptrs)
  {
    forall j | 0 <= j < |ptrs| && ptrs[j].id != 0 ensures Reads(DecodeCompressed, PutIfOccupied, ptrs[j]) {
      PlainReads(ptrs[j]);
      assert PutIfOccupied(ptrs[j]) == PutCompressed(ptrs[j]);
    }
  }

  lemma ParseSparseList(kind: NodeKind, ptrs: seq<TriePtr>, s: Bytes)
    requires |ptrs| == Slots(kind) && AllPlain(ptrs)
    ensures ParseSparse(kind, SetCompressed(KindId(kind)), Bitmap(kind, ptrs) + (PutOccupied(ptrs) + s)) ==
              Node(KindId(kind), Emptied(ptrs), 2 + BitmapSize(kind) + |PutOccupied(ptrs)|)
  {
    var bitmap, b := Bitmap(kind, ptrs), PutOccupied(ptrs) + s;
    assert (bitmap + b)[..BitmapSize(kind)] == bitmap && (bitmap + b)[BitmapSize(kind)..] == b && b[0..] == b;
    KindBits(kind);
    BitmapMarks(kind, ptrs);
    OccupiedReads(ptrs);
    assert ptrs[0..] == ptrs;
    SparseReads(DecodeCompressed, PutIfOccupied, ptrs, bitmap, b, 0, 0, s);
  }

  lemma SparseLayout(kind: NodeKind, ptrs: seq<TriePtr>, s: Bytes)
    requires |ptrs| == Slots(kind)
    ensures PutSparse(kind, ptrs) + s == [SPARSE_PTR_BITMAP_MARKER] + (Bitmap(kind, ptrs) + (PutOccupied(ptrs) + s))
    ensures |PutSparse(kind, ptrs)| == 1 + BitmapSize(kind) + |PutOccupied(ptrs)|
  {
    Assoc([SPARSE_PTR_BITMAP_MARKER], Bitmap(kind, ptrs) + PutOccupied(ptrs), s);
    Assoc(Bitmap(kind, ptrs), PutOccupied(ptrs), s);
  }

  lemma ParsesSparse(kind: NodeKind, nid: byte, tail: Bytes)
    requires ClearCtrlBits(nid) == KindId(kind) && IsCompressed(nid)
    ensures ParseBody(kind, nid, [SPARSE_PTR_BITMAP_MARKER] + tail) == ParseSparse(kind, nid, tail)
  {
    assert ([SPARSE_PTR_BITMAP_MARKER] + tail)[1..] == tail;
  }

  lemma ParseSparseNode(kind: NodeKind, ptrs: seq<TriePtr>, s: Bytes)
    requires |ptrs| == Slots(kind) && AllPlain(ptrs) && IsSparse(kind, ptrs)
    ensures ParseNode(kind, PutNode(kind, true, ptrs) + s) == Node(KindId(kind), Emptied(ptrs), |PutNode(kind, true, ptrs)|)
  {
    var nid, tail := SetCompressed(KindId(kind)), Bitmap(kind, ptrs) + (PutOccupied(ptrs) + s);
    Assoc([nid], PutSparse(kind, ptrs), s);
    SparseLayout(kind, ptrs, s);
    ParsesBody(kind, nid, [SPARSE_PTR_BITMAP_MARKER] + tail);
    KindBits(kind);
    ParsesSparse(kind, nid, tail);
    ParseSparseList(kind, ptrs, s);
  }

  /** The fixed read size never cuts a list short, whichever form it has. */
  lemma ReadSizeSuffices(kind: NodeKind, compressed: bool, ptrs: seq<TriePtr>)
    requires |ptrs| == Slots(kind) && AllPlain(ptrs)
    ensures |PutNode(kind, compressed, ptrs)| < ReadSize(kind)
  {
    PutAllLength(ptrs);
    ListLengths(ptrs);
    DenseSizeBound(ptrs);
  }

  /**
    Whatever follows a written list, the reader gets back the pointers and ends exactly behind
    them.  Uncompressed and dense lists come back as they were; a sparse list comes back with its
    empty slots reset, so it is unchanged exactly when they were default.
   */
  lemma ListRoundTrip(kind: NodeKind, compressed: bool, ptrs: seq<TriePtr>, s: Bytes)
    requires |ptrs| == Slots(kind) && AllPlain(ptrs)
    ensures var b := PutNode(kind, compressed, ptrs);
            var kept := if compressed && IsSparse(kind, ptrs) then Emptied(ptrs) else ptrs;
            && ParseNode(kind, Window(b + s, ReadSize(kind))) == Node(KindId(kind), kept, |b|)
            && (kept == ptrs <==> EmptySlotsDefault(ptrs) || !compressed || !IsSparse(kind, ptrs))
  {
    var b := PutNode(kind, compressed, ptrs);
    ReadSizeSuffices(kind, compressed, ptrs);
    WindowAppend(b, s, ReadSize(kind));
    var t := Window(s, ReadSize(kind) - |b|);
    EmptiedIff(ptrs);
    if !compressed {
      ParseUncompressed(kind, ptrs, t);
    } else if IsSparse(kind, ptrs) {
      ParseSparseNode(kind, ptrs, t);
    } else {
      ParseDense(kind, ptrs, t);
    }
  }

  /** Such a list: a node without children one of whose slots still names a character. */
  lemma SparseForgetsCharacter(chr: byte, s: Bytes)
    requires chr != 0
    ensures var ptrs := [TriePtr(0, chr, 0, 0), EMPTY, EMPTY, EMPTY];
            ParseNode(Node4, Window(PutNode(Node4, true, ptrs) + s, ReadSize(Node4)))
              == Node(KindId(Node4), [EMPTY, EMPTY, EMPTY, EMPTY], |PutNode(Node4, true, ptrs)|)
  {
    var ptrs := [TriePtr(0, chr, 0, 0), EMPTY, EMPTY, EMPTY];
    FourSlots(ptrs);
    ListRoundTrip(Node4, true, ptrs, s);
  }

  lemma FourSlots(ptrs: seq<TriePtr>)
    requires |ptrs| == 4 && forall i | 0 <= i < 4 :: ptrs[i].id == 0 && ptrs[i].ptr == 0 && ptrs[i].backBlock == 0
    ensures IsSparse(Node4, ptrs) && Emptied(ptrs) == [EMPTY, EMPTY, EMPTY, EMPTY]
  {
    var three, two, one := ptrs[..3], ptrs[..2], ptrs[..1];
    assert three[..2] == two && two[..1] == one && one[..0] == [];
    assert DenseSize(one) == 6 && DenseSize(two) == 12 && DenseSize(three) == 18;
    assert OccupiedSize(one) == 0 && OccupiedSize(two) == 0 && OccupiedSize(three) == 0;
    assert ptrs[1..][1..] == ptrs[2..] && ptrs[2..][1..] == ptrs[3..] && ptrs[3..][1..] == [];
    assert Emptied(ptrs[3..]) == [EMPTY];
    assert Emptied(ptrs[2..]) == [EMPTY, EMPTY];
    assert Emptied(ptrs[1..]) == [EMPTY, EMPTY, EMPTY];
  }

  /** What a node starts with: its kind, with 0x40 for compressed pointers, and 0xff and the bitmap for sparse ones. */
  lemma NodeStarts(kind: NodeKind, compressed: bool, ptrs: seq<TriePtr>)
    requires |ptrs| == match kind case Node4 => 4 case Node16 => 16 case Node48 => 48 case Node256 => 256
    ensures var b := PutNode(kind, compressed, ptrs);
            && b[0] == (match kind case Node4 => 2 case Node16 => 3 case Node48 => 4 case Node256 => 5) + (if compressed then 0x40 else 0)
            && (compressed && IsSparse(kind, ptrs) ==>
                  |b| >= 2 + |ptrs| / 8 && b[1] == 0xff
                  && forall j | 0 <= j < |ptrs| :: Bit(b[2 + j / 8], j % 8) <==> ptrs[j].id != 0)
  {
    if compressed && IsSparse(kind, ptrs) {
      var m := Bitmap(kind, ptrs);
      forall j | 0 <= j < |ptrs| ensures Bit(m[j / 8], j % 8) <==> ptrs[j].id != 0 {
        MarkedBits(ptrs, BitmapSize(kind), |ptrs|, j);
      }
    }
  }
}
