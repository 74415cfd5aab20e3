/**
  Trie blobs in an append-only file, with a table of rows saying where each
  blob is.

  The place for the next blob is read off the table: the end of the row with the
  greatest offset.  When several rows share that offset the database may answer
  with any of them.  The blob is written first and its row afterwards, so a
  crash in between leaves bytes in the file that no row knows about.

  Unconfirmed tries are kept in the database, so their rows are empty.  They are
  the only rows that are ever dropped, and the identifier of the last row is
  given out again once it is gone.  Two caches are never cleared: the offset of
  a row, and its block hash together with the way back.
 */
module BlobStore {
  import opened Wire
  import opened Codecs

  type BlockId = int
  type BlockHash = int

  datatype Row = Row(hash: BlockHash, offset: nat, length: nat, unconfirmed: bool)

  function End(r: Row): nat { r.offset + r.length }

  /** A row the query for the greatest offset may return. */
  predicate IsLast(rows: map<BlockId, Row>, id: BlockId) {
    id in rows && forall j :: j in rows ==> rows[j].offset <= rows[id].offset
  }

  /** The database's answer to that query; none when there are no rows. */
  predicate IsAnswer(rows: map<BlockId, Row>, pick: Option<BlockId>) {
    if rows == map[] then pick == None else pick.Some? && IsLast(rows, pick.value)
  }

  function AppendOffset(rows: map<BlockId, Row>, pick: Option<BlockId>): nat
    requires IsAnswer(rows, pick)
  {
    if pick.None? then 0 else End(rows[pick.value])
  }

  /** Writing past the end of a file fills the gap with zeros. */
  function WriteAt(file: Bytes, at: nat, buf: Bytes): (w: Bytes)
    ensures at + |buf| <= |w| && w[at..at + |buf|] == buf
    ensures |file| <= |w| && forall i | 0 <= i < |file| && (i < at || at + |buf| <= i) :: w[i] == file[i]
  {
    var padded := if |file| < at then file + seq(at - |file|, _ => 0) else file;
    padded[..at] + buf + if at + |buf| < |padded| then padded[at + |buf|..] else []
  }

  /** `blobs` is what was stored under each row; nothing in the store holds it but the file. */
  datatype Store = Store(
    file: Bytes, rows: map<BlockId, Row>, offsets: map<BlockId, nat>,
    hashOf: map<BlockId, BlockHash>, idOf: map<BlockHash, BlockId>, blobs: map<BlockId, Bytes>)

  const EMPTY_STORE := Store([], map[], map[], map[], map[], map[])

  /** A row's bytes are in the file as they were stored. */
  predicate ReadsBack(s: Store, id: BlockId)
    requires id in s.rows && id in s.blobs
  {
    var r := s.rows[id];
    r.length == |s.blobs[id]| && End(r) <= |s.file| && s.file[r.offset..End(r)] == s.blobs[id]
  }

  /** Blobs do not overlap. */
  predicate Layered(rows: map<BlockId, Row>) {
    forall i, j :: i in rows && j in rows && i != j ==> End(rows[i]) <= rows[j].offset || End(rows[j]) <= rows[i].offset
  }

  /** The table allows a block hash only once. */
  predicate UniqueHashes(rows: map<BlockId, Row>) {
    forall i, j :: i in rows && j in rows && i != j ==> rows[i].hash != rows[j].hash
  }

  predicate OffsetsAgree(rows: map<BlockId, Row>, offsets: map<BlockId, nat>) {
    forall id :: id in offsets ==> id in rows && offsets[id] == rows[id].offset
  }

  /** The two maps are inverse to each other and agree with the rows. */
  predicate HashesAgree(rows: map<BlockId, Row>, hashOf: map<BlockId, BlockHash>, idOf: map<BlockHash, BlockId>) {
    && (forall id :: id in hashOf ==> id in rows && rows[id].hash == hashOf[id])
    && (forall id :: id in hashOf ==> hashOf[id] in idOf && idOf[hashOf[id]] == id)
    && (forall h :: h in idOf ==> idOf[h] in hashOf && hashOf[idOf[h]] == h)
  }

  predicate CachesAgree(s: Store) {
    OffsetsAgree(s.rows, s.offsets) && HashesAgree(s.rows, s.hashOf, s.idOf)
  }

  /** Every row reads back its blob. */
  predicate Intact(s: Store) {
    && s.rows.Keys == s.blobs.Keys
    && (forall id :: id in s.rows ==> ReadsBack(s, id))
    && Layered(s.rows) && UniqueHashes(s.rows)
  }

  predicate Inv(s: Store) {
    Intact(s) && CachesAgree(s)
  }

  // ---------- Operations ----------

  datatype Op =
    | StoreBlob(id: BlockId, hash: BlockHash, blob: Bytes, pick: Option<BlockId>)
    | CrashAfterAppend(blob: Bytes, written: nat, pick: Option<BlockId>)
    | Unconfirmed(id: BlockId, hash: BlockHash)
    | DropUnconfirmed(hash: BlockHash)
    | GetOffset(id: BlockId)
    | GetHash(id: BlockId)
    | GetId(hash: BlockHash, found: Option<BlockId>)

  /** The identifier after the greatest one in use. */
  predicate IsNextId(rows: map<BlockId, Row>, id: BlockId) {
    if rows == map[] then id == 1 else id - 1 in rows && forall j :: j in rows ==> j < id
  }

  predicate IsNewRow(rows: map<BlockId, Row>, id: BlockId, hash: BlockHash) {
    IsNextId(rows, id) && forall j :: j in rows ==> rows[j].hash != hash
  }

  /** What the database answers when asked for the row of a block hash. */
  predicate IsRowOf(rows: map<BlockId, Row>, hash: BlockHash, found: Option<BlockId>) {
    if found.Some? then found.value in rows && rows[found.value].hash == hash
    else forall j :: j in rows ==> rows[j].hash != hash
  }

  /** The answers of the database are possible ones. */
  predicate Possible(s: Store, op: Op) {
    match op
    case StoreBlob(id, hash, _, pick) => IsNewRow(s.rows, id, hash) && IsAnswer(s.rows, pick)
    case CrashAfterAppend(blob, written, pick) => written <= |blob| && IsAnswer(s.rows, pick)
    case Unconfirmed(id, hash) => IsNewRow(s.rows, id, hash)
    case GetId(hash, found) => IsRowOf(s.rows, hash, found)
    case _ => true
  }

  predicate IsDropped(r: Row, hash: BlockHash) { r.unconfirmed && r.hash == hash }

  function Next(s: Store, op: Op): Store
    requires Possible(s, op)
  {
    match op
    case StoreBlob(id, hash, blob, pick) =>
      var at := AppendOffset(s.rows, pick);
      s.(file := WriteAt(s.file, at, blob), rows := s.rows[id := Row(hash, at, |blob|, false)], blobs := s.blobs[id := blob])
    case CrashAfterAppend(blob, written, pick) =>
      Store(WriteAt(s.file, AppendOffset(s.rows, pick), blob[..written]), s.rows, map[], map[], map[], s.blobs)
    case Unconfirmed(id, hash) =>
      s.(rows := s.rows[id := Row(hash, 0, 0, true)], blobs := s.blobs[id := []])
    case DropUnconfirmed(hash) =>
      s.(rows := map id | id in s.rows && !IsDropped(s.rows[id], hash) :: s.rows[id],
         blobs := map id | id in s.blobs && !(id in s.rows && IsDropped(s.rows[id], hash)) :: s.blobs[id])
    case GetOffset(id) =>
      if id in s.offsets || id !in s.rows then s else s.(offsets := s.offsets[id := s.rows[id].offset])
    case GetHash(id) =>
      if id in s.hashOf || id !in s.rows then s else Remember(s, id, s.rows[id].hash)
    case GetId(hash, found) =>
      if hash in s.idOf || found.None? then s else Remember(s, found.value, hash)
  }

  function Remember(s: Store, id: BlockId, hash: BlockHash): Store {
    s.(hashOf := s.hashOf[id := hash], idOf := s.idOf[hash := id])
  }

  /** The answer's end lies behind every blob. */
  predicate Safe(rows: map<BlockId, Row>, pick: Option<BlockId>)
    requires IsAnswer(rows, pick)
  {
    forall j :: j in rows ==> End(rows[j]) <= AppendOffset(rows, pick)
  }

  /** An empty row and a blob share the greatest offset. */
  ghost predicate Tied(rows: map<BlockId, Row>) {
    exists i, j :: IsLast(rows, i) && IsLast(rows, j) && rows[i].length == 0 && rows[j].length > 0
  }

  /** Every possible answer leads behind the last blob exactly when no empty row ties with it. */
  lemma SafeIffNotTied(rows: map<BlockId, Row>)
    requires Layered(rows)
    ensures (forall pick :: IsAnswer(rows, pick) ==> Safe(rows, pick)) <==> !Tied(rows)
  {
    if Tied(rows) {
      var i, j :| IsLast(rows, i) && IsLast(rows, j) && rows[i].length == 0 && rows[j].length > 0;
      assert rows != map[];
      assert IsAnswer(rows, Some(i)) && !Safe(rows, Some(i));
    } else {
      forall pick, j | IsAnswer(rows, pick) && j in rows ensures End(rows[j]) <= AppendOffset(rows, pick) {
        assert pick.Some?;
        var p := pick.value;
        if j != p && rows[j].offset == rows[p].offset {
          assert IsLast(rows, j);
        }
      }
    }
  }

  lemma WriteKeeps(s: Store, at: nat, buf: Bytes, id: BlockId)
    requires id in s.rows && id in s.blobs && ReadsBack(s, id) && End(s.rows[id]) <= at
    ensures ReadsBack(s.(file := WriteAt(s.file, at, buf)), id)
  {
    var r, w := s.rows[id], WriteAt(s.file, at, buf);
    assert w[r.offset..End(r)] == s.file[r.offset..End(r)];
  }

  lemma NewRowLayered(rows: map<BlockId, Row>, id: BlockId, r: Row)
    requires Layered(rows) && id !in rows && forall j :: j in rows ==> End(rows[j]) <= r.offset
    ensures Layered(rows[id := r])
  {
  }

  lemma NewRowUnique(rows: map<BlockId, Row>, id: BlockId, r: Row)
    requires UniqueHashes(rows) && IsNewRow(rows, id, r.hash)
    ensures UniqueHashes(rows[id := r])
  {
  }

  /** The caches do not know a row that is new. */
  lemma NewRowCaches(s: Store, t: Store, id: BlockId, r: Row)
    requires CachesAgree(s) && id !in s.rows
    requires t.rows == s.rows[id := r] && t.offsets == s.offsets && t.hashOf == s.hashOf && t.idOf == s.idOf
    ensures CachesAgree(t)
  {
  }

  lemma NewRowReadsBack(s: Store, op: Op, j: BlockId)
    requires Intact(s) && op.StoreBlob? && Possible(s, op) && Safe(s.rows, op.pick)
    requires j in Next(s, op).rows
    ensures j in Next(s, op).blobs && ReadsBack(Next(s, op), j)
  {
    if j != op.id {
      assert ReadsBack(s, j);
      WriteKeeps(s, AppendOffset(s.rows, op.pick), op.blob, j);
    }
  }

  lemma StoreBlobKeeps(s: Store, op: Op)
    requires Inv(s) && op.StoreBlob? && Possible(s, op) && Safe(s.rows, op.pick)
    ensures Inv(Next(s, op))
  {
    var t, r := Next(s, op), Row(op.hash, AppendOffset(s.rows, op.pick), |op.blob|, false);
    NewRowLayered(s.rows, op.id, r);
    NewRowUnique(s.rows, op.id, r);
    NewRowCaches(s, t, op.id, r);
    forall j | j in t.rows ensures j in t.blobs && ReadsBack(t, j) {
      NewRowReadsBack(s, op, j);
    }
  }

  lemma CrashKeeps(s: Store, op: Op)
    requires Inv(s) && op.CrashAfterAppend? && Possible(s, op) && Safe(s.rows, op.pick)
    ensures Inv(Next(s, op))
  {
    var t := Next(s, op);
    forall j | j in t.rows ensures ReadsBack(t, j) {
      WriteKeeps(s, AppendOffset(s.rows, op.pick), op.blob[..op.written], j);
    }
  }

  /** Where the query cannot mislead, storing keeps every recorded blob and records the new one. */
  lemma StoreKeeps(s: Store, op: Op)
    requires Inv(s) && Possible(s, op) && (op.StoreBlob? || op.CrashAfterAppend?) && Safe(s.rows, op.pick)
    ensures Inv(Next(s, op))
  {
    if op.StoreBlob? {
      StoreBlobKeeps(s, op);
    } else {
      CrashKeeps(s, op);
    }
  }

  lemma UnconfirmedKeeps(s: Store, op: Op)
    requires Inv(s) && op.Unconfirmed? && Possible(s, op)
    ensures Inv(Next(s, op))
  {
    var t := Next(s, op);
    assert op.id !in s.rows;
    forall j | j in t.rows ensures ReadsBack(t, j) {
      if j != op.id {
        assert ReadsBack(s, j);
      }
    }
  }

  predicate IsCached(s: Store, id: BlockId) { id in s.offsets || id in s.hashOf }

  predicate DropsCached(s: Store, hash: BlockHash) {
    exists id :: id in s.rows && IsDropped(s.rows[id], hash) && IsCached(s, id)
  }

  lemma DropIntact(s: Store, hash: BlockHash)
    requires Intact(s)
    ensures Intact(Next(s, DropUnconfirmed(hash)))
  {
    var t := Next(s, DropUnconfirmed(hash));
    forall j | j in t.rows ensures ReadsBack(t, j) {
      assert ReadsBack(s, j);
    }
  }

  lemma FewerRowsAgree(s: Store, rows: map<BlockId, Row>)
    requires CachesAgree(s)
    ensures CachesAgree(s.(rows := rows)) <== forall id :: IsCached(s, id) ==> id in rows && rows[id] == s.rows[id]
    ensures CachesAgree(s.(rows := rows)) ==> forall id :: IsCached(s, id) ==> id in rows
  {
  }

  /**
    Dropping never hurts a blob.  The caches agree with the rows afterwards exactly when the dropped
    row was in neither of them.
   */
  lemma DropKeepsIff(s: Store, hash: BlockHash)
    requires Inv(s)
    ensures var t := Next(s, DropUnconfirmed(hash));
            Intact(t) && (CachesAgree(t) <==> !DropsCached(s, hash))
  {
    var t := Next(s, DropUnconfirmed(hash));
    DropIntact(s, hash);
    FewerRowsAgree(s, t.rows);
    assert CachesAgree(t) <==> CachesAgree(s.(rows := t.rows));
    if DropsCached(s, hash) {
      var id :| id in s.rows && IsDropped(s.rows[id], hash) && IsCached(s, id);
      assert id !in t.rows;
    }
  }

  /** A row is in both maps or in neither. */
  lemma CachedTogether(s: Store, id: BlockId, hash: BlockHash)
    requires UniqueHashes(s.rows) && HashesAgree(s.rows, s.hashOf, s.idOf) && id in s.rows && s.rows[id].hash == hash
    ensures id in s.hashOf <==> hash in s.idOf
  {
    if hash in s.idOf {
      var other := s.idOf[hash];
      assert other in s.hashOf && s.hashOf[other] == hash;
      assert other in s.rows && s.rows[other].hash == hash;
    }
    if id in s.hashOf {
      assert s.hashOf[id] in s.idOf;
    }
  }

  lemma RememberKeeps(s: Store, id: BlockId, hash: BlockHash)
    requires HashesAgree(s.rows, s.hashOf, s.idOf)
    requires id in s.rows && s.rows[id].hash == hash && id !in s.hashOf && hash !in s.idOf
    ensures HashesAgree(s.rows, Remember(s, id, hash).hashOf, Remember(s, id, hash).idOf)
  {
  }

  lemma SameRowsIntact(s: Store, t: Store)
    requires Intact(s) && t.file == s.file && t.rows == s.rows && t.blobs == s.blobs
    ensures Intact(t)
  {
    forall j | j in t.rows ensures ReadsBack(t, j) {
      assert ReadsBack(s, j);
    }
  }

  /** A look-up fills the caches with what the rows say; the assertion that the identifier is new never fails. */
  lemma LookupKeeps(s: Store, op: Op)
    requires Inv(s) && (op.GetOffset? || op.GetHash? || op.GetId?) && Possible(s, op)
    ensures Inv(Next(s, op))
    ensures op.GetId? && op.hash !in s.idOf && op.found.Some? ==> op.found.value !in s.hashOf
  {
    SameRowsIntact(s, Next(s, op));
    if op.GetHash? && op.id !in s.hashOf && op.id in s.rows {
      CachedTogether(s, op.id, s.rows[op.id].hash);
      RememberKeeps(s, op.id, s.rows[op.id].hash);
    } else if op.GetId? && op.hash !in s.idOf && op.found.Some? {
      CachedTogether(s, op.found.value, op.hash);
      RememberKeeps(s, op.found.value, op.hash);
    }
  }

  predicate Appends(op: Op) { op.StoreBlob? || op.CrashAfterAppend? }

  /** Every step is possible, nothing is stored while an empty row ties with the last blob, and no cached row is dropped. */
  ghost predicate CleanRun(s: Store, ops: seq<Op>)
    decreases ops
  {
    ops != [] ==>
      && Possible(s, ops[0])
      && (Appends(ops[0]) ==> !Tied(s.rows))
      && (ops[0].DropUnconfirmed? ==> !DropsCached(s, ops[0].hash))
      && CleanRun(Next(s, ops[0]), ops[1..])
  }

  predicate PossibleRun(s: Store, ops: seq<Op>)
    decreases ops
  {
    ops != [] ==> Possible(s, ops[0]) && PossibleRun(Next(s, ops[0]), ops[1..])
  }

  function Run(s: Store, ops: seq<Op>): Store
    requires PossibleRun(s, ops)
    decreases ops
  {
    if ops == [] then s else Run(Next(s, ops[0]), ops[1..])
  }

  /** Confirmed rows stay, with their blobs. */
  predicate KeepsConfirmed(s: Store, t: Store) {
    forall id :: id in s.rows && id in s.blobs && !s.rows[id].unconfirmed ==>
      id in t.rows && id in t.blobs && t.rows[id] == s.rows[id] && t.blobs[id] == s.blobs[id]
  }

  lemma StepKeepsConfirmed(s: Store, op: Op)
    requires Inv(s) && Possible(s, op)
    ensures KeepsConfirmed(s, Next(s, op))
  {
  }

  lemma CleanStepKeeps(s: Store, op: Op)
    requires Inv(s) && Possible(s, op)
    requires (Appends(op) ==> !Tied(s.rows)) && (op.DropUnconfirmed? ==> !DropsCached(s, op.hash))
    ensures Inv(Next(s, op))
  {
    match op
    case StoreBlob(_, _, _, pick) =>
      SafeIffNotTied(s.rows);
      StoreKeeps(s, op);
    case CrashAfterAppend(_, _, pick) =>
      SafeIffNotTied(s.rows);
      StoreKeeps(s, op);
    case Unconfirmed(_, _) => UnconfirmedKeeps(s, op);
    case DropUnconfirmed(hash) => DropKeepsIff(s, hash);
    case _ => LookupKeeps(s, op);
  }

  /**
    In every such run, with crashes anywhere, each row reads back its blob, confirmed rows keep
    theirs, and both caches agree with the rows.
   */
  lemma {:induction false} RunKeepsBlobs(s: Store, ops: seq<Op>)
    requires Inv(s) && CleanRun(s, ops)
    ensures PossibleRun(s, ops) && Inv(Run(s, ops)) && KeepsConfirmed(s, Run(s, ops))
    decreases ops
  {
    if ops != [] {
      CleanStepKeeps(s, ops[0]);
      StepKeepsConfirmed(s, ops[0]);
      RunKeepsBlobs(Next(s, ops[0]), ops[1..]);
    }
  }

  // ---------- When a tie can happen ----------

  /** Confirmed tries are never empty, and empty rows point to the start of the file. */
  predicate EmptyAtStart(rows: map<BlockId, Row>) {
    forall i :: i in rows ==> (rows[i].length == 0 <==> rows[i].unconfirmed) && (rows[i].unconfirmed ==> rows[i].offset == 0)
  }

  predicate HasTwoBlobs(rows: map<BlockId, Row>) {
    exists i, j :: i in rows && j in rows && i != j && !rows[i].unconfirmed && !rows[j].unconfirmed
  }

  /** A tie needs an unconfirmed row beside a single blob. */
  lemma TiedNeedsOneBlob(rows: map<BlockId, Row>)
    requires Layered(rows) && EmptyAtStart(rows)
    ensures Tied(rows) ==> (exists i :: i in rows && rows[i].unconfirmed) && !HasTwoBlobs(rows)
  {
  }

  predicate StoresTries(ops: seq<Op>) {
    forall k | 0 <= k < |ops| :: ops[k].StoreBlob? ==> ops[k].blob != []
  }

  /** No cached row is dropped in the run. */
  predicate DropsNoneCached(s: Store, ops: seq<Op>)
    requires PossibleRun(s, ops)
    decreases ops
  {
    ops != [] ==>
      && (ops[0].DropUnconfirmed? ==> !DropsCached(s, ops[0].hash))
      && DropsNoneCached(Next(s, ops[0]), ops[1..])
  }

  lemma EmptyStaysAtStart(s: Store, op: Op)
    requires Possible(s, op) && EmptyAtStart(s.rows) && (op.StoreBlob? ==> op.blob != [])
    ensures EmptyAtStart(Next(s, op).rows)
  {
    var t := Next(s, op);
    forall i | i in t.rows && !(i in s.rows && t.rows[i] == s.rows[i])
      ensures op.StoreBlob? || op.Unconfirmed?
    {
    }
  }

  lemma TwoBlobsStay(s: Store, op: Op)
    requires Inv(s) && Possible(s, op) && HasTwoBlobs(s.rows)
    ensures HasTwoBlobs(Next(s, op).rows)
  {
    StepKeepsConfirmed(s, op);
    var i, j :| i in s.rows && j in s.rows && i != j && !s.rows[i].unconfirmed && !s.rows[j].unconfirmed;
    var t := Next(s, op);
    assert i in t.rows && j in t.rows && t.rows[i] == s.rows[i] && t.rows[j] == s.rows[j];
  }

  /** So once two tries are stored no run can tie: every run that drops no cached row is clean, whatever the database answers. */
  lemma {:induction false} CleanAfterTwoBlobs(s: Store, ops: seq<Op>)
    requires Inv(s) && EmptyAtStart(s.rows) && HasTwoBlobs(s.rows)
    requires PossibleRun(s, ops) && StoresTries(ops) && DropsNoneCached(s, ops)
    ensures CleanRun(s, ops)
    decreases ops
  {
    if ops != [] {
      TiedNeedsOneBlob(s.rows);
      CleanStepKeeps(s, ops[0]);
      TwoBlobsStay(s, ops[0]);
      EmptyStaysAtStart(s, ops[0]);
      assert forall k | 0 <= k < |ops[1..]| :: ops[1..][k] == ops[k + 1];
      CleanAfterTwoBlobs(Next(s, ops[0]), ops[1..]);
    }
  }

  // ---------- Runs that go wrong ----------

  predicate AgreeWhereShared(a: Bytes, b: Bytes) {
    forall k | 0 <= k < |a| && k < |b| :: a[k] == b[k]
  }

  lemma WriteOverIff(file: Bytes, at: nat, buf: Bytes, was: Bytes)
    requires at + |was| <= |file| && file[at..at + |was|] == was
    ensures at + |was| <= |WriteAt(file, at, buf)|
    ensures WriteAt(file, at, buf)[at..at + |was|] == was <==> AgreeWhereShared(buf, was)
  {
    var w := WriteAt(file, at, buf);
    assert forall k | 0 <= k < |buf| :: w[at + k] == w[at..at + |buf|][k] == buf[k];
    forall k | |buf| <= k < |was| ensures was[k] == w[at + k] {
      assert was[k] == file[at..at + |was|][k] == file[at + k];
    }
    var kept := w[at..at + |was|];
    assert forall k | 0 <= k < |was| :: kept[k] == w[at + k];
    if AgreeWhereShared(buf, was) {
      assert forall k | 0 <= k < |was| :: kept[k] == was[k];
    } else {
      var k :| 0 <= k < |buf| && k < |was| && buf[k] != was[k];
      assert kept[k] != was[k];
    }
  }

  /**
    Where an empty row ties with a blob, the database may answer with the empty row.  Then storing any
    blob destroys the recorded one, unless the two agree in the bytes they share.
   */
  lemma TiedCanOverwrite(s: Store, op: Op, lost: BlockId)
    requires Inv(s) && op.StoreBlob? && IsNewRow(s.rows, op.id, op.hash) && op.pick.Some?
    requires IsLast(s.rows, op.pick.value) && IsLast(s.rows, lost)
    requires s.rows[op.pick.value].length == 0 < s.rows[lost].length
    ensures Possible(s, op) && lost in Next(s, op).rows && lost in Next(s, op).blobs
    ensures ReadsBack(Next(s, op), lost) <==> AgreeWhereShared(op.blob, s.blobs[lost])
  {
    var r := s.rows[lost];
    assert r.offset == s.rows[op.pick.value].offset && ReadsBack(s, lost) && lost != op.id;
    WriteOverIff(s.file, r.offset, op.blob, s.blobs[lost]);
  }

  function OneBlob(hash: BlockHash, blob: Bytes): Store {
    EMPTY_STORE.(file := blob, rows := map[1 := Row(hash, 0, |blob|, false)], blobs := map[1 := blob])
  }

  lemma FirstBlob(hash: BlockHash, blob: Bytes)
    ensures Possible(EMPTY_STORE, StoreBlob(1, hash, blob, None))
    ensures Next(EMPTY_STORE, StoreBlob(1, hash, blob, None)) == OneBlob(hash, blob)
    ensures Inv(OneBlob(hash, blob))
  {
    assert WriteAt([], 0, blob) == blob;
    assert map[][1 := Row(hash, 0, |blob|, false)] == map[1 := Row(hash, 0, |blob|, false)];
    assert map[][1 := blob] == map[1 := blob];
    assert blob[0..|blob|] == blob;
  }

  /** A tie is two steps from the empty store: the first blob, then an unconfirmed trie. */
  lemma TieIsReached(first: BlockHash, second: BlockHash, blob: Bytes)
    requires first != second && blob != []
    ensures var ops := [StoreBlob(1, first, blob, None), Unconfirmed(2, second)];
            PossibleRun(EMPTY_STORE, ops) && Inv(Run(EMPTY_STORE, ops)) && Tied(Run(EMPTY_STORE, ops).rows)
  {
    FirstBlob(first, blob);
    var s, op := OneBlob(first, blob), Unconfirmed(2, second);
    assert 1 in s.rows;
    assert Possible(s, op);
    UnconfirmedKeeps(s, op);
    var t := Next(s, op);
    assert IsLast(t.rows, 2) && IsLast(t.rows, 1) && t.rows[2].length == 0 && t.rows[1].length > 0;
    RunCons(s, op, []);
    RunCons(EMPTY_STORE, StoreBlob(1, first, blob, None), [op]);
  }

  lemma RunCons(s: Store, op: Op, ops: seq<Op>)
    requires Possible(s, op) && PossibleRun(Next(s, op), ops)
    ensures PossibleRun(s, [op] + ops) && Run(s, [op] + ops) == Run(Next(s, op), ops)
  {
    assert ([op] + ops)[1..] == ops;
  }

  /** The hash of an unconfirmed trie is looked up, the trie is dropped, and its identifier goes to the next one. */
  function Reuse(first: BlockHash, second: BlockHash): seq<Op> {
    [Unconfirmed(1, first)] + ([GetHash(1)] + ([DropUnconfirmed(first)] + ([Unconfirmed(1, second)] + [])))
  }

  /** Then the cache has the hash of the dropped trie for the new row. */
  lemma StaleHash(first: BlockHash, second: BlockHash)
    requires first != second
    ensures PossibleRun(EMPTY_STORE, Reuse(first, second))
    ensures var end := Run(EMPTY_STORE, Reuse(first, second));
            Intact(end) && 1 in end.rows && end.rows[1].hash == second && 1 in end.hashOf && end.hashOf[1] == first
  {
    var s1 := Next(EMPTY_STORE, Unconfirmed(1, first));
    var s2 := Next(s1, GetHash(1));
    var s3 := Next(s2, DropUnconfirmed(first));
    assert s3.rows == map[] && s3.blobs == map[];
    var s4 := Next(s3, Unconfirmed(1, second));
    RunCons(s3, Unconfirmed(1, second), []);
    RunCons(s2, DropUnconfirmed(first), [Unconfirmed(1, second)] + []);
    RunCons(s1, GetHash(1), [DropUnconfirmed(first)] + ([Unconfirmed(1, second)] + []));
    RunCons(EMPTY_STORE, Unconfirmed(1, first), [GetHash(1)] + ([DropUnconfirmed(first)] + ([Unconfirmed(1, second)] + [])));
  }

  // ---------- The file object ----------

  class TrieFile {
    var file: Bytes
    var trieOffsets: map<BlockId, nat>

    constructor (file: Bytes)
      ensures this.file == file && trieOffsets == map[]
    {
      this.file, trieOffsets := file, map[];
    }

    /** Writes behind the row the database named; the row is written by the caller. */
    method AppendTrieBlob(rows: map<BlockId, Row>, pick: Option<BlockId>, buf: Bytes) returns (offset: nat)
      requires IsAnswer(rows, pick)
      modifies this`file
      ensures offset == AppendOffset(rows, pick) && file == WriteAt(old(file), offset, buf)
    {
      offset := if pick.None? then 0 else rows[pick.value].offset + rows[pick.value].length;
      file := WriteAt(file, offset, buf);
    }

    /** Answers from the cache, or from the row and remembers it. */
    method GetTrieOffset(rows: map<BlockId, Row>, id: BlockId) returns (offset: Option<nat>)
      requires OffsetsAgree(rows, trieOffsets)
      modifies this`trieOffsets
      ensures offset == if id in rows then Some(rows[id].offset) else None
      ensures OffsetsAgree(rows, trieOffsets)
      ensures trieOffsets == if id in rows then old(trieOffsets)[id := rows[id].offset] else old(trieOffsets)
    {
      if id in trieOffsets {
        return Some(trieOffsets[id]);
      }
      if id !in rows {
        return None;
      }
      trieOffsets := trieOffsets[id := rows[id].offset];
      return Some(rows[id].offset);
    }

    method ReadBlobHeader(rows: map<BlockId, Row>, id: BlockId) returns (header: Option<BlobHeader>)
      requires OffsetsAgree(rows, trieOffsets)
      modifies this`trieOffsets
      ensures header == if id in rows then HeaderAt(file, rows[id].offset) else None
    {
      var offset := GetTrieOffset(rows, id);
      if offset.None? {
        return None;
      }
      return HeaderAt(file, offset.value);
    }
  }

  // ---------- Reading many headers ----------

  const ROOT_NODE_OFFSET: nat := 36
  const READER_PREFIX_LEN: nat := 68

  datatype BlobHeader = BlobHeader(parentHash: Bytes, rootHash: Bytes)

  /** `None` is the error of a read beyond the end of the file. */
  function HeaderAt(file: Bytes, offset: nat): Option<BlobHeader> {
    if offset + READER_PREFIX_LEN > |file| then None
    else
      var buf := file[offset..offset + READER_PREFIX_LEN];
      Some(BlobHeader(buf[..32], buf[ROOT_NODE_OFFSET..]))
  }

  /** A blob starts with its parent's hash; the hash of its root comes four bytes later. */
  lemma HeaderReadsBack(s: Store, id: BlockId, parent: Bytes, identifier: Bytes, root: Bytes, rest: Bytes)
    requires Intact(s) && id in s.rows && s.blobs[id] == parent + identifier + root + rest
    requires |parent| == 32 && |identifier| == 4 && |root| == 32
    ensures HeaderAt(s.file, s.rows[id].offset) == Some(BlobHeader(parent, root))
  {
    var at, blob := s.rows[id].offset, s.blobs[id];
    assert ReadsBack(s, id);
    var buf := s.file[at..at + 68];
    assert buf == s.file[at..End(s.rows[id])][..68] == blob[..68];
    assert blob[..32] == parent && blob[36..68] == root;
    assert buf[..32] == blob[..32] && buf[36..] == blob[36..68];
  }

  datatype HeaderEntry = HeaderEntry(hash: BlockHash, offset: nat)

  /** Reading the entries one after the other; a later entry for the same block replaces an earlier one. */
  function HeadersOf(file: Bytes, entries: seq<HeaderEntry>): Option<map<BlockHash, BlobHeader>> {
    if entries == [] then Some(map[])
    else
      var n := |entries| - 1;
      match (HeadersOf(file, entries[..n]), HeaderAt(file, entries[n].offset))
      case (Some(headers), Some(h)) => Some(headers[entries[n].hash := h])
      case _ => None
  }

  lemma {:induction false} HeadersOfConcat(file: Bytes, xs: seq<HeaderEntry>, ys: seq<HeaderEntry>)
    ensures HeadersOf(file, xs + ys) ==
              match (HeadersOf(file, xs), HeadersOf(file, ys))
              case (Some(a), Some(b)) => Some(a + b)
              case _ => None
  {
    if ys == [] {
      assert xs + ys == xs;
      if HeadersOf(file, xs).Some? {
        assert HeadersOf(file, xs).value + map[] == HeadersOf(file, xs).value;
      }
    } else {
      var n := |ys| - 1;
      HeadersOfConcat(file, xs, ys[..n]);
      assert (xs + ys)[..|xs| + n] == xs + ys[..n];
      if HeadersOf(file, xs).Some? && HeadersOf(file, ys).Some? {
        var a, b, h := HeadersOf(file, xs).value, HeadersOf(file, ys[..n]).value, HeaderAt(file, ys[n].offset).value;
        assert (a + b)[ys[n].hash := h] == a + b[ys[n].hash := h];
      }
    }
  }

  /** With one entry per block the result holds, for each entry, the header read on its own. */
  lemma {:induction false} HeadersAreEach(file: Bytes, entries: seq<HeaderEntry>, i: nat)
    requires HeadersOf(file, entries).Some? && i < |entries|
    requires forall j, k | 0 <= j < k < |entries| :: entries[j].hash != entries[k].hash
    ensures entries[i].hash in HeadersOf(file, entries).value
    ensures HeaderAt(file, entries[i].offset) == Some(HeadersOf(file, entries).value[entries[i].hash])
  {
    var n := |entries| - 1;
    if i < n {
      HeadersAreEach(file, entries[..n], i);
    }
  }

  lemma {:induction false} HeadersFailIff(file: Bytes, entries: seq<HeaderEntry>)
    ensures HeadersOf(file, entries).Some? <==> forall i | 0 <= i < |entries| :: HeaderAt(file, entries[i].offset).Some?
  {
    if entries != [] {
      HeadersFailIff(file, entries[..|entries| - 1]);
    }
  }

  /** The body of one reader thread. */
  method ReadChunk(file: Bytes, chunk: seq<HeaderEntry>) returns (headers: Option<map<BlockHash, BlobHeader>>)
    ensures headers == HeadersOf(file, chunk)
  {
    var read: map<BlockHash, BlobHeader> := map[];
    for i := 0 to |chunk|
      invariant HeadersOf(file, chunk[..i]) == Some(read)
    {
      assert chunk[..i + 1][..i] == chunk[..i];
      var h := HeaderAt(file, chunk[i].offset);
      if h.None? {
        HeadersFailIff(file, chunk);
        return None;
      }
      read := read[chunk[i].hash := h.value];
    }
    assert chunk[..|chunk|] == chunk;
    return Some(read);
  }

  function CeilDiv(a: nat, b: nat): (q: nat)
    requires b > 0
    ensures a > 0 ==> q > 0
  {
    a / b + if a % b == 0 then 0 else 1
  }

  /**
    Splits the entries into contiguous chunks, one per thread, reads the chunks, and merges their
    results in order.  All chunks are read even when one fails.
   */
  method BulkReadHeaders(file: Bytes, entries: seq<HeaderEntry>, parallelism: nat)
    returns (headers: Option<map<BlockHash, BlobHeader>>)
    requires parallelism > 0
    ensures headers == HeadersOf(file, entries)
  {
    if entries == [] {
      return Some(map[]);
    }
    var numThreads := if parallelism < |entries| then parallelism else |entries|;
    var chunkSize := CeilDiv(|entries|, numThreads);
    var at, merged, failed := 0, map[], false;
    while at < |entries|
      invariant 0 <= at <= |entries| && HeadersOf(file, entries[..at]) == if failed then None else Some(merged)
    {
      var end := if at + chunkSize < |entries| then at + chunkSize else |entries|;
      var chunk := ReadChunk(file, entries[at..end]);
      assert entries[..end] == entries[..at] + entries[at..end];
      HeadersOfConcat(file, entries[..at], entries[at..end]);
      if chunk.Some? {
        merged := merged + chunk.value;
      } else {
        failed := true;
      }
      at := end;
    }
    assert entries[..at] == entries;
    headers := if failed then None else Some(merged);
  }

  // ---------- Block hashes by identifier and back ----------

  class BlockHashCache {
    var hashOf: map<BlockId, BlockHash>
    var idOf: map<BlockHash, BlockId>

    constructor ()
      ensures hashOf == map[] && idOf == map[]
    {
      hashOf, idOf := map[], map[];
    }

    ghost predicate Agrees(rows: map<BlockId, Row>)
      reads this
    {
      HashesAgree(rows, hashOf, idOf)
    }

    method GetBlockHashCaching(rows: map<BlockId, Row>, id: BlockId) returns (hash: Option<BlockHash>)
      requires Agrees(rows) && UniqueHashes(rows)
      modifies this
      ensures Agrees(rows)
      ensures hash == if id in rows then Some(rows[id].hash) else None
      ensures hash.Some? ==> id in hashOf
    {
      if id in hashOf {
        return Some(hashOf[id]);
      }
      if id !in rows {
        return None;
      }
      var h := rows[id].hash;
      hashOf := hashOf[id := h];
      idOf := idOf[h := id];
      return Some(h);
    }

    /** Asserts that the identifier is new. */
    method StoreBlockHash(rows: map<BlockId, Row>, id: BlockId, hash: BlockHash)
      requires Agrees(rows) && UniqueHashes(rows) && id !in hashOf
      requires id in rows && rows[id].hash == hash
      modifies this
      ensures Agrees(rows) && hashOf == old(hashOf)[id := hash] && idOf == old(idOf)[hash := id]
    {
      idOf := idOf[hash := id];
      hashOf := hashOf[id := hash];
    }

    method LoadBlockId(rows: map<BlockId, Row>, hash: BlockHash) returns (id: Option<BlockId>)
      requires Agrees(rows)
      ensures id.Some? ==> id.value in rows && rows[id.value].hash == hash
      ensures id.None? ==> forall j :: j in hashOf ==> hashOf[j] != hash
    {
      if hash !in idOf {
        return None;
      }
      var found := idOf[hash];
      assert found in hashOf && hashOf[found] == hash;
      return Some(found);
    }
  }
}
