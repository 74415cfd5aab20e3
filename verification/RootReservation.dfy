/**
  A trie's root is written last but stored first.  Space for it is reserved
  while its child pointers still hold indices of nodes in memory; later they are
  replaced by offsets in the file, which may be wider.
 */
module RootReservation {
  import opened Wire
  import opened Codecs
  import opened TriePtrs
  import opened PtrLists

  const TRIEHASH_ENCODED_SIZE: nat := 32

  /** Occupied, and not a pointer into another block. */
  predicate IsInline(p: TriePtr) {
    p.id != 0 && !IsBackptr(p.id)
  }

  function InlineCount(ptrs: seq<TriePtr>): nat {
    if ptrs == [] then 0
    else InlineCount(ptrs[..|ptrs| - 1]) + if IsInline(ptrs[|ptrs| - 1]) then 1 else 0
  }

  predicate FitsU64(x: int) {
    0 <= x < 0x1_0000_0000_0000_0000
  }

  /** `None` is the overflow error. */
  function ReservedRootSize(baseLen: nat, ptrs: seq<TriePtr>): Option<nat> {
    var growth := InlineCount(ptrs) * 4;
    if FitsU64(growth) && FitsU64(baseLen + growth) then Some(baseLen + growth) else None
  }

  // ---------- Replacing indices by offsets ----------

  /** Zero stands for a node that has not been placed yet. */
  predicate Placed(p: TriePtr, offsets: seq<u64>) {
    IsInline(p) ==> p.ptr < |offsets| && offsets[p.ptr] != 0
  }

  function Resolve(p: TriePtr, offsets: seq<u64>): TriePtr
    requires Placed(p, offsets)
  {
    if IsInline(p) then p.(ptr := offsets[p.ptr]) else p
  }

  /** Each inline pointer holds the offset its index stands for; every other pointer is untouched. */
  predicate Resolved(before: seq<TriePtr>, after: seq<TriePtr>, offsets: seq<u64>) {
    && |after| == |before|
    && forall i | 0 <= i < |before| :: Placed(before[i], offsets) && after[i] == Resolve(before[i], offsets)
  }

  /** By identifier: empty slots and back-pointers stay, and every other pointer gets its offset and keeps the rest. */
  lemma ResolvedMeans(before: seq<TriePtr>, after: seq<TriePtr>, offsets: seq<u64>)
    ensures Resolved(before, after, offsets) <==>
              && |after| == |before|
              && forall i | 0 <= i < |before| ::
                   var p := before[i];
                   && (p.id == 0 || p.id >= 0x80 ==> after[i] == p)
                   && (1 <= p.id < 0x80 ==>
                         p.ptr < |offsets| && offsets[p.ptr] != 0 && after[i] == TriePtr(p.id, p.chr, offsets[p.ptr], p.backBlock))
  {
    forall i | 0 <= i < |before| ensures IsInline(before[i]) <==> 1 <= before[i].id < 0x80 {
      InlineById(before[i]);
    }
  }

  lemma InlineById(p: TriePtr)
    ensures IsInline(p) <==> 1 <= p.id < 0x80
  {
  }

  /** The slots that are neither empty nor back-pointers. */
  function InlineSlots(ptrs: seq<TriePtr>): set<nat> {
    set i: nat | i < |ptrs| && 1 <= ptrs[i].id < 0x80
  }

  lemma {:induction false} InlineSlotsCounted(ptrs: seq<TriePtr>)
    ensures |InlineSlots(ptrs)| == InlineCount(ptrs)
  {
    if ptrs != [] {
      var n := |ptrs| - 1;
      InlineSlotsCounted(ptrs[..n]);
      InlineById(ptrs[n]);
      if 1 <= ptrs[n].id < 0x80 {
        assert InlineSlots(ptrs) == InlineSlots(ptrs[..n]) + {n};
      } else {
        assert InlineSlots(ptrs) == InlineSlots(ptrs[..n]);
      }
    }
  }

  /** The reservation adds four bytes for each of them, and fails only if the sum exceeds 64 bits. */
  lemma ReservationIs(baseLen: nat, ptrs: seq<TriePtr>)
    ensures var size := baseLen + 4 * |InlineSlots(ptrs)|;
            ReservedRootSize(baseLen, ptrs) == if size < 0x1_0000_0000_0000_0000 then Some(size) else None
  {
    InlineSlotsCounted(ptrs);
  }

  /**
    Stops at the first pointer that cannot be resolved; the ones before it have been rewritten by then,
    the ones after it have not.
   */
  method ResolveInlineChildOffsets(ptrs: array<TriePtr>, offsets: seq<u64>) returns (ok: bool)
    modifies ptrs
    ensures ok <==> forall i | 0 <= i < ptrs.Length :: Placed(old(ptrs[i]), offsets)
    ensures ok ==> Resolved(old(ptrs[..]), ptrs[..], offsets)
    ensures ok ==> forall i | 0 <= i < ptrs.Length ::
              var p := old(ptrs[i]);
              && (p.id == 0 || p.id >= 0x80 ==> ptrs[i] == p)
              && (1 <= p.id < 0x80 ==> p.ptr < |offsets| && ptrs[i] == TriePtr(p.id, p.chr, offsets[p.ptr], p.backBlock))
    ensures !ok ==>
              exists k | 0 <= k < ptrs.Length ::
                && !Placed(old(ptrs[k]), offsets)
                && Resolved(old(ptrs[..k]), ptrs[..k], offsets) && ptrs[k..] == old(ptrs[k..])
  {
    for i := 0 to ptrs.Length
      invariant Resolved(old(ptrs[..])[..i], ptrs[..i], offsets)
      invariant ptrs[i..] == old(ptrs[..])[i..]
    {
      ghost var was := old(ptrs[..]);
      assert ptrs[i] == ptrs[i..][0] == was[i];
      if IsInline(ptrs[i]) {
        var index := ptrs[i].ptr;
        if index >= |offsets| || offsets[index] == 0 {
          assert !Placed(was[i], offsets);
          assert was[..i] == old(ptrs[..i]) && was[i..] == old(ptrs[i..]);
          return false;
        }
        ptrs[i] := ptrs[i].(ptr := offsets[index]);
      }
      assert was[..i + 1] == was[..i] + [was[i]] && ptrs[..i + 1] == ptrs[..i] + [ptrs[i]];
      assert was[i + 1..] == was[i..][1..];
    }
    ghost var was := old(ptrs[..]);
    assert was[..ptrs.Length] == was && ptrs[..ptrs.Length] == ptrs[..];
    assert forall i | 0 <= i < ptrs.Length :: was[i] == old(ptrs[i]);
    ResolvedMeans(was, ptrs[..], offsets);
    return true;
  }

  // ---------- The reserved space suffices ----------

  function PathByteLen(pathLen: nat): nat { 1 + pathLen }

  /** The longest node, with 48 children, also stores which child each character leads to. */
  function ExtraLen(kind: NodeKind): nat { if kind.Node48? then 256 else 0 }

  function NodeByteLen(kind: NodeKind, ptrs: seq<TriePtr>, pathLen: nat): nat {
    TRIEHASH_ENCODED_SIZE + (1 + UncompressedSize(ptrs)) + ExtraLen(kind) + PathByteLen(pathLen)
  }

  function NodeByteLenCompressed(kind: NodeKind, ptrs: seq<TriePtr>, pathLen: nat): nat {
    TRIEHASH_ENCODED_SIZE + (1 + CompressedListSize(kind, ptrs)) + ExtraLen(kind) + PathByteLen(pathLen)
  }

  lemma PtrGrowth(p: TriePtr, offsets: seq<u64>)
    requires Placed(p, offsets)
    ensures var q := Resolve(p, offsets);
            var growth := if IsInline(p) then 4 else 0;
            EncodedSize(q) <= EncodedSize(p) + growth && CompressedSize(q) <= CompressedSize(p) + growth && q.id == p.id
  {
    WidthBit(p);
    WidthBit(Resolve(p, offsets));
    if IsInline(p) {
      SamePayload(p, offsets[p.ptr]);
    }
  }

  lemma SizeByParts(x: byte, y: byte)
    requires HasBackBlockPayload(x) <==> HasBackBlockPayload(y)
    ensures CompressedSizeForId(y) <= CompressedSizeForId(x) + 4 && EncodedSizeForId(y) <= EncodedSizeForId(x) + 4
  {
  }

  /** Changing the offset changes only the width of the offset. */
  lemma SamePayload(p: TriePtr, offset: u64)
    ensures CompressedSize(p.(ptr := offset)) <= CompressedSize(p) + 4
  {
    var q := p.(ptr := offset);
    WidthBit(p);
    WidthBit(q);
    PayloadBit(p);
    PayloadBit(q);
    SizeByParts(EncodedId(p), EncodedId(q));
  }

  lemma {:induction false} ListGrowth(before: seq<TriePtr>, after: seq<TriePtr>, offsets: seq<u64>)
    requires Resolved(before, after, offsets)
    ensures UncompressedSize(after) <= UncompressedSize(before) + 4 * InlineCount(before)
    ensures DenseSize(after) <= DenseSize(before) + 4 * InlineCount(before)
    ensures OccupiedSize(after) <= OccupiedSize(before) + 4 * InlineCount(before)
  {
    if before != [] {
      var n := |before| - 1;
      ListGrowth(before[..n], after[..n], offsets);
      PtrGrowth(before[n], offsets);
    }
  }

  /** A node as it is written: its hash, its kind and pointers, the index of a node with 48 children, and its path. */
  function PutWhole(hash: Bytes, kind: NodeKind, compressed: bool, ptrs: seq<TriePtr>, index: Bytes, path: Bytes): Bytes
    requires |ptrs| == Slots(kind) && |path| <= TRIEHASH_ENCODED_SIZE
  {
    hash + (PutNode(kind, compressed, ptrs) + (index + ([|path|] + path)))
  }

  function ComputedLen(kind: NodeKind, compressed: bool, ptrs: seq<TriePtr>, pathLen: nat): nat {
    if compressed then NodeByteLenCompressed(kind, ptrs, pathLen) else NodeByteLen(kind, ptrs, pathLen)
  }

  lemma {:induction false} PutAllSize(ptrs: seq<TriePtr>)
    ensures |PutAll(ptrs)| == UncompressedSize(ptrs)
  {
    if ptrs != [] {
      var n := |ptrs| - 1;
      PutAllSize(ptrs[..n]);
      assert ptrs == ptrs[..n] + [ptrs[n]];
      PutManySnoc(Put, ptrs[..n], ptrs[n]);
      EncodedSizes(ptrs[n]);
    }
  }

  /** The size the node computes for itself is the number of bytes it writes. */
  lemma WrittenLen(hash: Bytes, kind: NodeKind, compressed: bool, ptrs: seq<TriePtr>, index: Bytes, path: Bytes)
    requires |ptrs| == Slots(kind) && AllPlain(ptrs)
    requires |hash| == TRIEHASH_ENCODED_SIZE && |index| == ExtraLen(kind) && |path| <= TRIEHASH_ENCODED_SIZE
    ensures |PutWhole(hash, kind, compressed, ptrs, index, path)| == ComputedLen(kind, compressed, ptrs, |path|)
  {
    PutAllSize(ptrs);
    ListLengths(ptrs);
  }

  lemma SizesFit(kind: NodeKind, compressed: bool, before: seq<TriePtr>, after: seq<TriePtr>, offsets: seq<u64>, pathLen: nat)
    requires Resolved(before, after, offsets)
    ensures ComputedLen(kind, compressed, after, pathLen) <= ComputedLen(kind, compressed, before, pathLen) + InlineCount(before) * 4
  {
    ListGrowth(before, after, offsets);
  }

  // ---------- Bounds by kind of node ----------

  /** The bound used to size prefetch reads; `wide` when offsets may need eight bytes. */
  function NodeMaxByteLen(kind: NodeKind, wide: bool): nat {
    TRIEHASH_ENCODED_SIZE + (1 + Slots(kind) * (if wide then 14 else 10)) + ExtraLen(kind) + PathByteLen(TRIEHASH_ENCODED_SIZE)
  }

  lemma {:induction false} SizesOrdered(ptrs: seq<TriePtr>)
    ensures OccupiedSize(ptrs) <= DenseSize(ptrs) <= UncompressedSize(ptrs) <= 14 * |ptrs|
    ensures (forall i | 0 <= i < |ptrs| :: ptrs[i].ptr <= MAX_U32) ==> UncompressedSize(ptrs) == 10 * |ptrs|
  {
    if ptrs != [] {
      var n := |ptrs| - 1;
      SizesOrdered(ptrs[..n]);
      EncodedSizes(ptrs[n]);
      WidthBit(ptrs[n]);
    }
  }

  /** No node of the kind is longer, in either form. */
  lemma NodeWithinMax(kind: NodeKind, ptrs: seq<TriePtr>, pathLen: nat, wide: bool)
    requires |ptrs| == Slots(kind) && pathLen <= TRIEHASH_ENCODED_SIZE
    requires wide || forall i | 0 <= i < |ptrs| :: ptrs[i].ptr <= MAX_U32
    ensures NodeByteLenCompressed(kind, ptrs, pathLen) <= NodeByteLen(kind, ptrs, pathLen) <= NodeMaxByteLen(kind, wide)
  {
    SizesOrdered(ptrs);
  }

  // ---------- The root ----------

  lemma {:induction false} InlineCountBound(ptrs: seq<TriePtr>)
    ensures InlineCount(ptrs) <= |ptrs|
  {
    if ptrs != [] {
      InlineCountBound(ptrs[..|ptrs| - 1]);
    }
  }

  /** The sizes of a node are far from overflowing, so the reservation always exists. */
  lemma ReservationExists(kind: NodeKind, compressed: bool, ptrs: seq<TriePtr>, pathLen: nat)
    requires |ptrs| == Slots(kind) && pathLen <= TRIEHASH_ENCODED_SIZE
    ensures ReservedRootSize(ComputedLen(kind, compressed, ptrs, pathLen), ptrs) ==
              Some(ComputedLen(kind, compressed, ptrs, pathLen) + InlineCount(ptrs) * 4)
  {
    InlineCountBound(ptrs);
    NodeWithinMax(kind, ptrs, pathLen, true);
  }

  /**
    Space for the root can always be reserved.  Once its children are placed, its bytes fit that space,
    uncompressed or compressed, even when the shorter of the two compressed forms changes from one to
    the other.
   */
  lemma RootFits(hash: Bytes, kind: NodeKind, compressed: bool, before: seq<TriePtr>, after: seq<TriePtr>,
                 offsets: seq<u64>, index: Bytes, path: Bytes)
    requires |before| == Slots(kind) && AllPlain(before) && Resolved(before, after, offsets)
    requires |hash| == TRIEHASH_ENCODED_SIZE && |index| == ExtraLen(kind) && |path| <= TRIEHASH_ENCODED_SIZE
    ensures var reserved := ReservedRootSize(ComputedLen(kind, compressed, before, |path|), before);
            reserved.Some? && |PutWhole(hash, kind, compressed, after, index, path)| <= reserved.value
  {
    ReservationExists(kind, compressed, before, |path|);
    SizesFit(kind, compressed, before, after, offsets, |path|);
    WrittenLen(hash, kind, compressed, after, index, path);
  }
}
