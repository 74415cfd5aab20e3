/**
  Clarity names, principals and values as they travel inside a transaction.

  A tuple is a sorted map from names to values, so decoding a tuple reorders
  its entries: bytes that list them in another order are accepted and
  normalised.  The type system that decides whether a composite value may
  exist at all (size, depth and least common supertype) is the parameter
  `admits`; it is asked once for every composite value the decoder builds.
 */
module Values {
  import opened Wire
  import opened Codecs

  const MAX_VALUE_SIZE: nat := 0x10_0000
  const BOUND_VALUE_SERIALIZATION_BYTES: nat := 0x20_0000
  const UNSANITIZED_DEPTH_CHECK: nat := 16
  const MAX_STRING_LEN: byte := 128
  const CONTRACT_MAX_NAME_LENGTH: byte := 40

  // ---------- Names ----------

  predicate IsAlpha(c: byte) {
    0x41 <= c <= 0x5a || 0x61 <= c <= 0x7a
  }

  predicate IsAlphanumeric(c: byte) {
    IsAlpha(c) || 0x30 <= c <= 0x39
  }

  /** `[a-zA-Z0-9]` or one of `- _ ! ? + < > = / *` */
  predicate IsNameChar(c: byte) {
    IsAlphanumeric(c) || c in {0x2d, 0x5f, 0x21, 0x3f, 0x2b, 0x3c, 0x3e, 0x3d, 0x2f, 0x2a}
  }

  /** An identifier, a one-character operator, or one of `< > <= >=`; at most 128 bytes. */
  predicate IsClarityName(s: Bytes) {
    && 1 <= |s| <= MAX_STRING_LEN
    && (|| (IsAlpha(s[0]) && forall i | 1 <= i < |s| :: IsNameChar(s[i]))
        || (|s| == 1 && s[0] in {0x2d, 0x2b, 0x3d, 0x2f, 0x2a})
        || (s[0] in {0x3c, 0x3e} && (|s| == 1 || (|s| == 2 && s[1] == 0x3d))))
  }

  const TRANSIENT: Bytes := [0x5f, 0x5f, 0x74, 0x72, 0x61, 0x6e, 0x73, 0x69, 0x65, 0x6e, 0x74]

  /** A letter followed by letters, digits, `-` and `_`, or the name `__transient`. */
  predicate IsContractName(s: Bytes) {
    && 1 <= |s| <= MAX_STRING_LEN
    && (|| (IsAlpha(s[0]) && forall i | 1 <= i < |s| :: IsAlphanumeric(s[i]) || s[i] == 0x2d || s[i] == 0x5f)
        || s == TRANSIENT)
  }

  function ClarityName(): Codec<Bytes> {
    Check(ShortString(0, MAX_STRING_LEN), IsClarityName)
  }

  /** Inside a principal a contract name may have up to 128 bytes. */
  function LongContractName(): Codec<Bytes> {
    Check(ShortString(0, MAX_STRING_LEN), IsContractName)
  }

  /** Everywhere else it has between 1 and 40. */
  function ContractName(): Codec<Bytes> {
    Check(ShortString(1, CONTRACT_MAX_NAME_LENGTH), IsContractName)
  }

  lemma NamesLawful()
    ensures Lawful(ClarityName()) && Lawful(LongContractName()) && Lawful(ContractName())
  {
    ShortStringLawful(0, MAX_STRING_LEN);
    ShortStringLawful(1, CONTRACT_MAX_NAME_LENGTH);
    CheckLawful(ShortString(0, MAX_STRING_LEN), IsClarityName);
    CheckLawful(ShortString(0, MAX_STRING_LEN), IsContractName);
    CheckLawful(ShortString(1, CONTRACT_MAX_NAME_LENGTH), IsContractName);
  }

  // ---------- Addresses and principals ----------

  /** A version below 32 and a 20-byte hash; also the data of a standard principal. */
  datatype Address = Address(version: byte, hash: Bytes)

  datatype Principal =
    | Standard(address: Address)
    | Contract(issuer: Address, name: Bytes)

  predicate AddressOk(a: Address) {
    a.version < 32 && |a.hash| == 20
  }

  function AddressView(): View<(byte, Bytes), Address> {
    View((p: (byte, Bytes)) => if p.0 < 32 then Some(Address(p.0, p.1)) else None,
         (a: Address) => Some((a.version, a.hash)),
         AddressOk)
  }

  function SmallVersion(): Codec<byte> {
    Check(Byte(), v => v < 32)
  }

  /** The transaction codec rejects a bad version before it reads the hash. */
  function AddressCodec(): Codec<Address> {
    Via(Both(SmallVersion(), Exact(20)), AddressView())
  }

  /** The value codec reads all 21 bytes first. */
  function StandardPrincipal(): Codec<Address> {
    Via(Both(Byte(), Exact(20)), AddressView())
  }

  lemma AddressLawful()
    ensures Lawful(AddressCodec()) && Lawful(StandardPrincipal())
  {
    ByteLawful();
    ExactLawful(20);
    CheckLawful(Byte(), v => v < 32);
    BothLawful(SmallVersion(), Exact(20));
    BothLawful(Byte(), Exact(20));
    var c := Both(SmallVersion(), Exact(20));
    var d := Both(Byte(), Exact(20));
    ViaLawful(c, AddressView());
    ViaLawful(d, AddressView());
  }

  predicate PrincipalOk(p: Principal) {
    match p
    case Standard(a) => AddressOk(a)
    case Contract(a, n) => AddressOk(a) && IsContractName(n)
  }

  function StandardView(): View<Address, Principal> {
    View((a: Address) => Some(Standard(a)),
         (p: Principal) => if p.Standard? then Some(p.address) else None,
         (p: Principal) => p.Standard? && PrincipalOk(p))
  }

  function ContractView(): View<(Address, Bytes), Principal> {
    View((q: (Address, Bytes)) => Some(Contract(q.0, q.1)),
         (p: Principal) => if p.Contract? then Some((p.issuer, p.name)) else None,
         (p: Principal) => p.Contract? && PrincipalOk(p))
  }

  function PrincipalTag(p: Principal): byte {
    if p.Standard? then 5 else 6
  }

  function PrincipalBody(t: byte): Codec<Principal> {
    if t == 5 then Via(StandardPrincipal(), StandardView())
    else if t == 6 then Via(Both(StandardPrincipal(), LongContractName()), ContractView())
    else Nothing()
  }

  /** On its own a principal reports every failure, even a short read, as a decoding error. */
  function PrincipalCodec(): Codec<Principal> {
    Blaming(Tagged(PrincipalTag, PrincipalBody))
  }

  lemma PrincipalBodyLawful(t: byte)
    ensures Lawful(PrincipalBody(t))
  {
    AddressLawful();
    NamesLawful();
    if t == 5 {
      ViaLawful(StandardPrincipal(), StandardView());
    } else if t == 6 {
      BothLawful(StandardPrincipal(), LongContractName());
      ViaLawful(Both(StandardPrincipal(), LongContractName()), ContractView());
    } else {
      NothingLawful<Principal>();
    }
  }

  lemma PrincipalLawful()
    ensures Lawful(PrincipalCodec())
    ensures forall p :: PrincipalCodec().ok(p) <==> PrincipalOk(p)
  {
    forall t ensures Lawful(PrincipalBody(t)) {
      PrincipalBodyLawful(t);
    }
    TaggedLawful(PrincipalTag, PrincipalBody);
    BlamingLawful(Tagged(PrincipalTag, PrincipalBody));
    forall p ensures PrincipalCodec().ok(p) <==> PrincipalOk(p) {
      assert PrincipalBody(PrincipalTag(p)).ok(p) <==> PrincipalOk(p);
    }
  }

  // ---------- Values ----------

  type i128 = x: int | -0x8000_0000_0000_0000_0000_0000_0000_0000 <= x < 0x8000_0000_0000_0000_0000_0000_0000_0000

  datatype Entry = Entry(name: Bytes, value: Value)

  datatype Value =
    | Int(signed: i128)
    | UInt(unsigned: u128)
    | Buffer(data: Bytes)
    | Bool(flag: bool)
    | PrincipalValue(principal: Principal)
    | CallableContract(callee: Principal)
    | Response(committed: bool, inner: Value)
    | OptionalNone
    | OptionalSome(some: Value)
    | List(items: seq<Value>)
    | Tuple(entries: seq<Entry>)
    | StringAscii(ascii: Bytes)
    | StringUtf8(utf8: Bytes)

  datatype ValueRules = ValueRules(utf8Ok: Bytes -> bool, admits: Value -> bool)

  predicate AsciiOk(b: Bytes) {
    forall i | 0 <= i < |b| :: 0x20 <= b[i] <= 0x7e || b[i] in {0x09, 0x0a, 0x0c, 0x0d}
  }

  function TwosComplement(x: i128): u128 {
    if x >= 0 then x else x + 0x1_0000_0000_0000_0000_0000_0000_0000_0000
  }

  function FromTwosComplement(x: u128): i128 {
    if x < 0x8000_0000_0000_0000_0000_0000_0000_0000 then x else x - 0x1_0000_0000_0000_0000_0000_0000_0000_0000
  }

  function Prefix(v: Value): byte {
    match v
    case Int(_) => 0
    case UInt(_) => 1
    case Buffer(_) => 2
    case Bool(x) => if x then 3 else 4
    case PrincipalValue(p) => PrincipalTag(p)
    case CallableContract(p) => PrincipalTag(p)
    case Response(c, _) => if c then 7 else 8
    case OptionalNone => 9
    case OptionalSome(_) => 10
    case List(_) => 11
    case Tuple(_) => 12
    case StringAscii(_) => 13
    case StringUtf8(_) => 14
  }

  /** Serialization does not look at the depth of a value. */
  function PutValue(v: Value): Bytes
    decreases v, 1
  {
    [Prefix(v)] +
    match v
    case Int(x) => PutU128(TwosComplement(x))
    case UInt(x) => PutU128(x)
    case Buffer(d) => PutByteString(d)
    case Bool(_) => []
    case PrincipalValue(p) => PrincipalBody(PrincipalTag(p)).put(p)
    case CallableContract(p) => PrincipalBody(PrincipalTag(p)).put(p)
    case Response(_, x) => PutValue(x)
    case OptionalNone => []
    case OptionalSome(x) => PutValue(x)
    case List(xs) => PutU32(|xs| % 0x1_0000_0000) + PutItems(xs)
    case Tuple(es) => PutU32(|es| % 0x1_0000_0000) + PutEntries(es)
    case StringAscii(d) => PutByteString(d)
    case StringUtf8(d) => PutByteString(d)
  }

  function PutItems(xs: seq<Value>): Bytes
    decreases xs, 0
  {
    if xs == [] then [] else PutValue(xs[0]) + PutItems(xs[1..])
  }

  function PutEntry(e: Entry): Bytes
    decreases e, 2
  {
    PutShortString(e.name) + PutValue(e.value)
  }

  function PutEntries(es: seq<Entry>): Bytes
    decreases es, 0
  {
    if es == [] then [] else PutEntry(es[0]) + PutEntries(es[1..])
  }

  // ---------- Tuples are sorted maps ----------

  predicate LexLess(a: Bytes, b: Bytes) {
    if b == [] then false
    else if a == [] then true
    else a[0] < b[0] || (a[0] == b[0] && LexLess(a[1..], b[1..]))
  }

  predicate SortedEntries(es: seq<Entry>) {
    forall i, j | 0 <= i < j < |es| :: LexLess(es[i].name, es[j].name)
  }

  datatype Built = Duplicate | Entries(entries: seq<Entry>)

  function Insert(e: Entry, es: seq<Entry>): Built {
    if es == [] then Entries([e])
    else if e.name == es[0].name then Duplicate
    else if LexLess(e.name, es[0].name) then Entries([e] + es)
    else match Insert(e, es[1..])
         case Duplicate => Duplicate
         case Entries(t) => Entries([es[0]] + t)
  }

  /** Inserts the entries one after the other, as they were read. */
  function FromData(es: seq<Entry>): Built {
    if es == [] then Entries([])
    else match FromData(es[..|es| - 1])
         case Duplicate => Duplicate
         case Entries(m) => Insert(es[|es| - 1], m)
  }

  lemma {:induction false} LexTotal(a: Bytes, b: Bytes)
    ensures a == b || LexLess(a, b) || LexLess(b, a)
  {
    if a != [] && b != [] && a[0] == b[0] {
      LexTotal(a[1..], b[1..]);
      assert a == [a[0]] + a[1..] && b == [b[0]] + b[1..];
    }
  }

  lemma {:induction false} LexTransitive(a: Bytes, b: Bytes, c: Bytes)
    requires LexLess(a, b) && LexLess(b, c)
    ensures LexLess(a, c)
  {
    if a != [] && a[0] == b[0] && b[0] == c[0] {
      LexTransitive(a[1..], b[1..], c[1..]);
    }
  }

  lemma {:induction false} LexIrreflexive(a: Bytes)
    ensures !LexLess(a, a)
  {
    if a != [] {
      LexIrreflexive(a[1..]);
    }
  }

  lemma {:induction false} InsertSorted(e: Entry, es: seq<Entry>)
    requires SortedEntries(es) && Insert(e, es).Entries?
    ensures SortedEntries(Insert(e, es).entries)
    ensures forall x :: x in Insert(e, es).entries <==> x == e || x in es
    ensures |Insert(e, es).entries| == |es| + 1
    ensures |PutEntries(Insert(e, es).entries)| == |PutEntry(e)| + |PutEntries(es)|
  {
    if es != [] {
      if LexLess(e.name, es[0].name) {
        forall j | 0 < j < |es| ensures LexLess(e.name, es[j].name) {
          LexTransitive(e.name, es[0].name, es[j].name);
        }
        assert ([e] + es)[1..] == es;
      } else {
        LexTotal(e.name, es[0].name);
        InsertSorted(e, es[1..]);
        var t := Insert(e, es[1..]).entries;
        assert ([es[0]] + t)[1..] == t;
        forall j | 0 <= j < |t| ensures LexLess(es[0].name, t[j].name) {
          assert t[j] in t;
          assert t[j] == e || t[j] in es[1..];
        }
        assert es == [es[0]] + es[1..];
        assert forall x :: x in es <==> x == es[0] || x in es[1..];
      }
    } else {
      assert PutEntries([e]) == PutEntry(e) + PutEntries([e][1..]);
    }
  }

  lemma {:induction false} PutEntriesAppend(a: seq<Entry>, b: seq<Entry>)
    ensures PutEntries(a + b) == PutEntries(a) + PutEntries(b)
  {
    if a == [] {
      assert a + b == b;
    } else {
      PutEntriesAppend(a[1..], b);
      assert (a + b)[1..] == a[1..] + b;
      Assoc(PutEntry(a[0]), PutEntries(a[1..]), PutEntries(b));
    }
  }

  /** Whatever order the entries arrive in, the built map is sorted, has the same entries and the same encoded length. */
  lemma {:induction false} FromDataSorts(es: seq<Entry>)
    requires FromData(es).Entries?
    ensures SortedEntries(FromData(es).entries)
    ensures |FromData(es).entries| == |es|
    ensures forall x :: x in FromData(es).entries <==> x in es
    ensures |PutEntries(FromData(es).entries)| == |PutEntries(es)|
  {
    if es != [] {
      var n := |es| - 1;
      FromDataSorts(es[..n]);
      InsertSorted(es[n], FromData(es[..n]).entries);
      assert es == es[..n] + [es[n]];
      PutEntriesAppend(es[..n], [es[n]]);
      assert PutEntries([es[n]]) == PutEntry(es[n]) + PutEntries([es[n]][1..]);
      assert forall x :: x in es <==> x == es[n] || x in es[..n];
    }
  }

  lemma {:induction false} InsertIff(e: Entry, es: seq<Entry>)
    requires SortedEntries(es)
    ensures Insert(e, es).Entries? <==> forall i | 0 <= i < |es| :: es[i].name != e.name
  {
    if es != [] {
      if LexLess(e.name, es[0].name) {
        forall i | 0 <= i < |es| ensures es[i].name != e.name {
          if i > 0 {
            LexTransitive(e.name, es[0].name, es[i].name);
          }
          LexIrreflexive(e.name);
        }
      } else if e.name != es[0].name {
        InsertIff(e, es[1..]);
        assert forall i | 1 <= i < |es| :: es[i] == es[1..][i - 1];
      }
    }
  }

  predicate HasName(es: seq<Entry>, name: Bytes) {
    exists i | 0 <= i < |es| :: es[i].name == name
  }

  predicate DistinctNames(es: seq<Entry>) {
    forall i, j | 0 <= i < j < |es| :: es[i].name != es[j].name
  }

  /** Entries in any order are accepted, as long as no name comes twice. */
  lemma {:induction false} FromDataIff(es: seq<Entry>)
    ensures FromData(es).Entries? <==> DistinctNames(es)
  {
    if es != [] {
      var n := |es| - 1;
      FromDataIff(es[..n]);
      DistinctLast(es);
      if FromData(es[..n]).Entries? {
        var m := FromData(es[..n]).entries;
        FromDataSorts(es[..n]);
        InsertIff(es[n], m);
        NamesIn(m, es[..n], es[n].name);
      }
    }
  }

  lemma DistinctLast(es: seq<Entry>)
    requires es != []
    ensures var n := |es| - 1;
            DistinctNames(es) <==> DistinctNames(es[..n]) && !HasName(es[..n], es[n].name)
  {
    var n := |es| - 1;
    var front := es[..n];
    assert forall i | 0 <= i < n :: front[i] == es[i];
    if DistinctNames(front) && !HasName(front, es[n].name) {
      forall i, j | 0 <= i < j < |es| ensures es[i].name != es[j].name {
        assert front[i] == es[i];
      }
    }
  }

  lemma NamesIn(m: seq<Entry>, es: seq<Entry>, name: Bytes)
    requires forall x :: x in m <==> x in es
    ensures HasName(m, name) <==> HasName(es, name)
  {
    if i :| 0 <= i < |m| && m[i].name == name {
      assert m[i] in es;
    }
    if i :| 0 <= i < |es| && es[i].name == name {
      assert es[i] in m;
    }
  }

  lemma {:induction false} InsertLast(e: Entry, es: seq<Entry>)
    requires forall i | 0 <= i < |es| :: LexLess(es[i].name, e.name)
    ensures Insert(e, es) == Entries(es + [e])
  {
    if es != [] {
      if e.name == es[0].name {
        LexIrreflexive(e.name);
      }
      if LexLess(e.name, es[0].name) {
        LexTransitive(e.name, es[0].name, e.name);
        LexIrreflexive(e.name);
      }
      InsertLast(e, es[1..]);
      assert es + [e] == [es[0]] + (es[1..] + [e]);
    }
  }

  /** Entries that are already in order are kept as they are. */
  lemma {:induction false} FromDataKeepsSorted(es: seq<Entry>)
    requires SortedEntries(es)
    ensures FromData(es) == Entries(es)
  {
    if es != [] {
      var n := |es| - 1;
      FromDataKeepsSorted(es[..n]);
      InsertLast(es[n], es[..n]);
      assert es == es[..n] + [es[n]];
    }
  }

  // ---------- Decoding ----------

  function U128(): Codec<u128> {
    Codec(PutU128, ReadU128, _ => true)
  }

  function FitsValue(n: nat): bool {
    n <= MAX_VALUE_SIZE
  }

  function Data(): Codec<Bytes> {
    ByteString(FitsValue)
  }

  /** No bytes at all. */
  function Unit<T(==)>(x: T): Codec<T> {
    Codec(_ => [], b => Ok(x, b), y => y == x)
  }

  function IntView(): View<u128, Value> {
    View((x: u128) => Some(Int(FromTwosComplement(x))),
         (v: Value) => if v.Int? then Some(TwosComplement(v.signed)) else None,
         (v: Value) => v.Int?)
  }

  function UIntView(): View<u128, Value> {
    View((x: u128) => Some(UInt(x)),
         (v: Value) => if v.UInt? then Some(v.unsigned) else None,
         (v: Value) => v.UInt?)
  }

  function BufferView(): View<Bytes, Value> {
    View((d: Bytes) => Some(Buffer(d)),
         (v: Value) => if v.Buffer? then Some(v.data) else None,
         (v: Value) => v.Buffer? && |v.data| <= MAX_VALUE_SIZE)
  }

  function AsciiView(): View<Bytes, Value> {
    View((d: Bytes) => if AsciiOk(d) then Some(StringAscii(d)) else None,
         (v: Value) => if v.StringAscii? then Some(v.ascii) else None,
         (v: Value) => v.StringAscii? && |v.ascii| <= MAX_VALUE_SIZE && AsciiOk(v.ascii))
  }

  function Utf8View(rules: ValueRules): View<Bytes, Value> {
    View((d: Bytes) => if rules.utf8Ok(d) then Some(StringUtf8(d)) else None,
         (v: Value) => if v.StringUtf8? then Some(v.utf8) else None,
         (v: Value) => v.StringUtf8? && |v.utf8| <= MAX_VALUE_SIZE && rules.utf8Ok(v.utf8))
  }

  function PrincipalView(t: byte): View<Principal, Value> {
    View((p: Principal) => Some(PrincipalValue(p)),
         (v: Value) => if v.PrincipalValue? then Some(v.principal) else None,
         (v: Value) => v.PrincipalValue? && Prefix(v) == t && PrincipalOk(v.principal))
  }

  /** The formats of the values that hold no other value, by prefix. */
  function LeafBody(rules: ValueRules, t: byte): Codec<Value> {
    if t == 0 then Via(U128(), IntView())
    else if t == 1 then Via(U128(), UIntView())
    else if t == 2 then Via(Data(), BufferView())
    else if t == 3 || t == 4 then Unit(Bool(t == 3))
    else if t == 5 || t == 6 then Via(PrincipalBody(t), PrincipalView(t))
    else if t == 9 then Unit(OptionalNone)
    else if t == 13 then Via(Data(), AsciiView())
    else if t == 14 then Via(Data(), Utf8View(rules))
    else Nothing()
  }

  function Admitted(rules: ValueRules, v: Value): Option<Value> {
    if rules.admits(v) then Some(v) else None
  }

  function ResponseView(rules: ValueRules, value: Codec<Value>, committed: bool): View<Value, Value> {
    View((x: Value) => Admitted(rules, Response(committed, x)),
         (v: Value) => if v.Response? then Some(v.inner) else None,
         (v: Value) => v.Response? && v.committed == committed && value.ok(v.inner) && rules.admits(v))
  }

  function OptionalView(rules: ValueRules, value: Codec<Value>): View<Value, Value> {
    View((x: Value) => Admitted(rules, OptionalSome(x)),
         (v: Value) => if v.OptionalSome? then Some(v.some) else None,
         (v: Value) => v.OptionalSome? && value.ok(v.some) && rules.admits(v))
  }

  function ListView(rules: ValueRules, value: Codec<Value>): View<seq<Value>, Value> {
    View((xs: seq<Value>) => Admitted(rules, List(xs)),
         (v: Value) => if v.List? then Some(v.items) else None,
         (v: Value) => v.List? && VecOk(value, FitsValue, v.items) && rules.admits(v))
  }

  function EntryView(value: Codec<Value>): View<(Bytes, Value), Entry> {
    View((p: (Bytes, Value)) => Some(Entry(p.0, p.1)),
         (e: Entry) => Some((e.name, e.value)),
         (e: Entry) => IsClarityName(e.name) && value.ok(e.value))
  }

  function EntryCodec(value: Codec<Value>): Codec<Entry> {
    Via(Both(ClarityName(), value), EntryView(value))
  }

  function ToTuple(rules: ValueRules, es: seq<Entry>): Option<Value> {
    match FromData(es)
    case Duplicate => None
    case Entries(m) => Admitted(rules, Tuple(m))
  }

  predicate TupleOk(rules: ValueRules, value: Codec<Value>, v: Value) {
    v.Tuple? && SortedEntries(v.entries) && VecOk(EntryCodec(value), FitsValue, v.entries) && rules.admits(v)
  }

  function TupleView(rules: ValueRules, value: Codec<Value>): View<seq<Entry>, Value> {
    View((es: seq<Entry>) => ToTuple(rules, es),
         (v: Value) => if v.Tuple? then Some(v.entries) else None,
         (v: Value) => TupleOk(rules, value, v))
  }

  /** The formats of the values that hold others, given the format of the values inside. */
  function CompositeBody(rules: ValueRules, value: Codec<Value>, t: byte): Codec<Value> {
    if t == 7 || t == 8 then Via(value, ResponseView(rules, value, t == 7))
    else if t == 10 then Via(value, OptionalView(rules, value))
    else if t == 11 then Via(Vec(value, FitsValue), ListView(rules, value))
    else if t == 12 then Via(Vec(EntryCodec(value), FitsValue), TupleView(rules, value))
    else LeafBody(rules, t)
  }

  function Bodies(rules: ValueRules, value: Codec<Value>): byte -> Codec<Value> {
    (t: byte) => CompositeBody(rules, value, t)
  }

  function GetValueAt(rules: ValueRules, depth: nat, b: Bytes): Parsed<Value>
    decreases UNSANITIZED_DEPTH_CHECK - depth, 0
  {
    if depth + 1 > UNSANITIZED_DEPTH_CHECK then Err(DeserializeError) else
    GetTagged(Bodies(rules, ValueAt(rules, depth + 1)), b)
  }

  /** `depth` values are open around this one; at most 16 may be open, counting the outermost. */
  function ValueAt(rules: ValueRules, depth: nat): Codec<Value>
    decreases UNSANITIZED_DEPTH_CHECK - depth, 1
  {
    Codec(PutValue, b => GetValueAt(rules, depth, b), v => WellFormedAt(rules, v, depth))
  }

  predicate WellFormedAt(rules: ValueRules, v: Value, depth: nat)
    decreases v
  {
    && depth < UNSANITIZED_DEPTH_CHECK
    && match v
       case Int(_) => true
       case UInt(_) => true
       case Bool(_) => true
       case OptionalNone => true
       case PrincipalValue(p) => PrincipalOk(p)
       case CallableContract(_) => false
       case Buffer(d) => |d| <= MAX_VALUE_SIZE
       case StringAscii(d) => |d| <= MAX_VALUE_SIZE && AsciiOk(d)
       case StringUtf8(d) => |d| <= MAX_VALUE_SIZE && rules.utf8Ok(d)
       case Response(_, x) => WellFormedAt(rules, x, depth + 1) && rules.admits(v)
       case OptionalSome(x) => WellFormedAt(rules, x, depth + 1) && rules.admits(v)
       case List(xs) =>
         && |xs| <= MAX_VALUE_SIZE
         && (forall i | 0 <= i < |xs| :: WellFormedAt(rules, xs[i], depth + 1))
         && rules.admits(v)
       case Tuple(es) =>
         && |es| <= MAX_VALUE_SIZE
         && SortedEntries(es)
         && (forall i | 0 <= i < |es| :: IsClarityName(es[i].name) && WellFormedAt(rules, es[i].value, depth + 1))
         && rules.admits(v)
  }

  /** A value inside a message is read through a window of 2 MiB. */
  function ValueCodec(rules: ValueRules): Codec<Value> {
    Bounded(ValueAt(rules, 0), BOUND_VALUE_SERIALIZATION_BYTES)
  }

  // ---------- The format is lawful ----------

  lemma U128Lawful()
    ensures Lawful(U128())
  {
    var c := U128();
    forall x: u128, s ensures c.get(c.put(x) + s) == Ok(x, s) {
      ReadU128Put(x, s);
    }
    assert Inverts(c);
    forall b ensures GoodResult(c, b) {
    }
  }

  lemma UnitLawful(x: Value)
    ensures Lawful(Unit(x))
  {
    var c := Unit(x);
    forall s: Bytes ensures [] + s == s {
    }
    assert Inverts(c);
    forall b ensures GoodResult(c, b) {
    }
  }

  lemma DataLawful()
    ensures Lawful(Data())
    ensures forall d: Bytes :: Data().ok(d) <==> |d| <= MAX_VALUE_SIZE
    ensures forall d: Bytes :: Data().put(d) == PutByteString(d)
  {
    ByteStringLawful(FitsValue);
    assert forall n: nat :: FitsValue(n) <==> n <= MAX_VALUE_SIZE;
  }

  lemma DataBodyLawful(rules: ValueRules, t: byte)
    requires t == 2 || t == 13 || t == 14
    ensures Lawful(LeafBody(rules, t))
  {
    DataLawful();
    if t == 2 {
      ViaLawful(Data(), BufferView());
    } else if t == 13 {
      ViaLawful(Data(), AsciiView());
    } else {
      ViaLawful(Data(), Utf8View(rules));
    }
  }

  lemma LeafBodyLawful(rules: ValueRules, t: byte)
    ensures Lawful(LeafBody(rules, t))
  {
    U128Lawful();
    if t == 0 {
      ViaLawful(U128(), IntView());
    } else if t == 1 {
      ViaLawful(U128(), UIntView());
    } else if t == 2 || t == 13 || t == 14 {
      DataBodyLawful(rules, t);
    } else if t == 3 || t == 4 {
      UnitLawful(Bool(t == 3));
    } else if t == 5 || t == 6 {
      PrincipalBodyLawful(t);
      ViaLawful(PrincipalBody(t), PrincipalView(t));
    } else if t == 9 {
      UnitLawful(OptionalNone);
    } else {
      NothingLawful<Value>();
    }
  }

  lemma EntryLawful(value: Codec<Value>)
    requires Lawful(value)
    ensures Lawful(EntryCodec(value))
  {
    NamesLawful();
    BothLawful(ClarityName(), value);
    ViaLawful(Both(ClarityName(), value), EntryView(value));
  }

  lemma {:induction false} PutEntriesIsMany(es: seq<Entry>, value: Codec<Value>)
    requires value.put == PutValue
    ensures PutEntries(es) == PutMany(EntryCodec(value).put, es)
  {
    if es != [] {
      PutEntriesIsMany(es[1..], value);
    }
  }

  lemma {:induction false} PutItemsIsMany(xs: seq<Value>)
    ensures PutItems(xs) == PutMany(PutValue, xs)
  {
    if xs != [] {
      PutItemsIsMany(xs[1..]);
    }
  }

  /** Sorting the entries of an accepted tuple keeps it within the format. */
  lemma TupleSettles(rules: ValueRules, value: Codec<Value>, es: seq<Entry>)
    requires value.put == PutValue
    requires VecOk(EntryCodec(value), FitsValue, es) && ToTuple(rules, es).Some?
    ensures var v := ToTuple(rules, es).value;
            TupleOk(rules, value, v) && |PutVec(EntryCodec(value), v.entries)| == |PutVec(EntryCodec(value), es)|
  {
    var c := EntryCodec(value);
    var m := FromData(es).entries;
    FromDataSorts(es);
    PutEntriesIsMany(es, value);
    PutEntriesIsMany(m, value);
    forall i | 0 <= i < |m| ensures c.ok(m[i]) {
      assert m[i] in m;
      var j :| 0 <= j < |es| && es[j] == m[i];
    }
  }

  lemma TupleRepresents(rules: ValueRules, value: Codec<Value>, v: Value)
    ensures Represents(Vec(EntryCodec(value), FitsValue), TupleView(rules, value), v)
  {
    if TupleOk(rules, value, v) {
      FromDataKeepsSorted(v.entries);
    }
  }

  lemma TupleBodyLawful(rules: ValueRules, value: Codec<Value>)
    requires Lawful(value) && value.put == PutValue
    ensures Lawful(Via(Vec(EntryCodec(value), FitsValue), TupleView(rules, value)))
  {
    var entry := EntryCodec(value);
    var c, view := Vec(entry, FitsValue), TupleView(rules, value);
    EntryLawful(value);
    VecLawful(entry, FitsValue);
    forall v ensures Represents(c, view, v) {
      TupleRepresents(rules, value, v);
    }
    forall es ensures Settles(c, view, es) {
      if c.ok(es) && view.to(es).Some? {
        TupleSettles(rules, value, es);
      }
    }
    ViaLawful(c, view);
  }

  lemma CompositeBodyLawful(rules: ValueRules, value: Codec<Value>, t: byte)
    requires Lawful(value) && value.put == PutValue
    ensures Lawful(CompositeBody(rules, value, t))
  {
    if t == 7 || t == 8 {
      ViaLawful(value, ResponseView(rules, value, t == 7));
    } else if t == 10 {
      ViaLawful(value, OptionalView(rules, value));
    } else if t == 11 {
      VecLawful(value, FitsValue);
      ViaLawful(Vec(value, FitsValue), ListView(rules, value));
    } else if t == 12 {
      TupleBodyLawful(rules, value);
    } else {
      LeafBodyLawful(rules, t);
    }
  }

  ghost predicate Agree(c: Codec<Value>, v: Value, wellFormed: bool) {
    (c.ok(v) <==> wellFormed) && (c.ok(v) ==> [Prefix(v)] + c.put(v) == PutValue(v))
  }

  lemma DataAgrees(rules: ValueRules, depth: nat, v: Value)
    requires depth < UNSANITIZED_DEPTH_CHECK && (v.Buffer? || v.StringAscii? || v.StringUtf8?)
    ensures Agree(LeafBody(rules, Prefix(v)), v, WellFormedAt(rules, v, depth))
  {
    DataLawful();
  }

  lemma NumberAgrees(rules: ValueRules, depth: nat, v: Value)
    requires depth < UNSANITIZED_DEPTH_CHECK && (v.Int? || v.UInt?)
    ensures Agree(LeafBody(rules, Prefix(v)), v, WellFormedAt(rules, v, depth))
  {
  }

  lemma PrincipalAgrees(rules: ValueRules, depth: nat, v: Value)
    requires depth < UNSANITIZED_DEPTH_CHECK && (v.PrincipalValue? || v.CallableContract?)
    ensures Agree(LeafBody(rules, Prefix(v)), v, WellFormedAt(rules, v, depth))
  {
  }

  lemma LeafAgrees(rules: ValueRules, depth: nat, v: Value)
    requires depth < UNSANITIZED_DEPTH_CHECK
    requires !v.Response? && !v.OptionalSome? && !v.List? && !v.Tuple?
    ensures Agree(LeafBody(rules, Prefix(v)), v, WellFormedAt(rules, v, depth))
  {
    if v.Buffer? || v.StringAscii? || v.StringUtf8? {
      DataAgrees(rules, depth, v);
    } else if v.Int? || v.UInt? {
      NumberAgrees(rules, depth, v);
    } else if v.PrincipalValue? || v.CallableContract? {
      PrincipalAgrees(rules, depth, v);
    }
  }

  lemma ListAgrees(rules: ValueRules, depth: nat, v: Value)
    requires depth < UNSANITIZED_DEPTH_CHECK && v.List?
    ensures Agree(CompositeBody(rules, ValueAt(rules, depth + 1), 11), v, WellFormedAt(rules, v, depth))
  {
    PutItemsIsMany(v.items);
  }

  lemma TupleAgrees(rules: ValueRules, depth: nat, v: Value)
    requires depth < UNSANITIZED_DEPTH_CHECK && v.Tuple?
    ensures Agree(CompositeBody(rules, ValueAt(rules, depth + 1), 12), v, WellFormedAt(rules, v, depth))
  {
    PutEntriesIsMany(v.entries, ValueAt(rules, depth + 1));
  }

  /** Choosing the format by prefix carries exactly the well-formed values, with the encoding of the serializer. */
  lemma BodiesAgree(rules: ValueRules, depth: nat, v: Value)
    requires depth < UNSANITIZED_DEPTH_CHECK
    ensures Agree(CompositeBody(rules, ValueAt(rules, depth + 1), Prefix(v)), v, WellFormedAt(rules, v, depth))
  {
    if v.List? {
      ListAgrees(rules, depth, v);
    } else if v.Tuple? {
      TupleAgrees(rules, depth, v);
    } else if !v.Response? && !v.OptionalSome? {
      LeafAgrees(rules, depth, v);
    }
  }

  lemma LeafTag(rules: ValueRules, t: byte, v: Value)
    ensures LeafBody(rules, t).ok(v) ==> Prefix(v) == t
  {
  }

  lemma CompositeTag(rules: ValueRules, value: Codec<Value>, t: byte, v: Value)
    ensures CompositeBody(rules, value, t).ok(v) ==> Prefix(v) == t
  {
    if t !in {7, 8, 10, 11, 12} {
      LeafTag(rules, t, v);
    }
  }

  lemma TaggedBodiesLawful(rules: ValueRules, value: Codec<Value>)
    requires Lawful(value) && value.put == PutValue
    ensures Lawful(Tagged(Prefix, Bodies(rules, value)))
  {
    var bodies := Bodies(rules, value);
    forall t: byte ensures Lawful(bodies(t)) {
      CompositeBodyLawful(rules, value, t);
    }
    forall t: byte, v | bodies(t).ok(v) ensures Prefix(v) == t {
      CompositeTag(rules, value, t, v);
    }
    TaggedLawful(Prefix, bodies);
  }

  lemma ValueStepLawful(rules: ValueRules, depth: nat)
    requires depth < UNSANITIZED_DEPTH_CHECK && Lawful(ValueAt(rules, depth + 1))
    ensures Lawful(ValueAt(rules, depth))
  {
    var c, d := Tagged(Prefix, Bodies(rules, ValueAt(rules, depth + 1))), ValueAt(rules, depth);
    TaggedBodiesLawful(rules, ValueAt(rules, depth + 1));
    forall v ensures (c.ok(v) <==> d.ok(v)) && (c.ok(v) ==> c.put(v) == d.put(v)) {
      BodiesAgree(rules, depth, v);
    }
    forall b ensures c.get(b) == d.get(b) {
      assert d.get(b) == GetValueAt(rules, depth, b);
    }
    SameFormatLawful(c, d);
  }

  /** The value format is lawful at every depth. */
  lemma {:induction false} ValueAtLawful(rules: ValueRules, depth: nat)
    ensures Lawful(ValueAt(rules, depth))
    decreases UNSANITIZED_DEPTH_CHECK - depth
  {
    if depth < UNSANITIZED_DEPTH_CHECK {
      ValueAtLawful(rules, depth + 1);
      ValueStepLawful(rules, depth);
    } else {
      forall b ensures GoodResult(ValueAt(rules, depth), b) {
      }
    }
  }

  predicate WellFormedValue(rules: ValueRules, v: Value) {
    WellFormedAt(rules, v, 0) && |PutValue(v)| <= BOUND_VALUE_SERIALIZATION_BYTES
  }

  /** Clarity values round-trip exactly when well formed, and every accepted byte string normalises. */
  lemma ValueLawful(rules: ValueRules)
    ensures Lawful(ValueCodec(rules))
    ensures forall v :: ValueCodec(rules).ok(v) <==> WellFormedValue(rules, v)
  {
    ValueAtLawful(rules, 0);
    BoundedLawful(ValueAt(rules, 0), BOUND_VALUE_SERIALIZATION_BYTES);
  }

  /** An integer inside `k` optionals. */
  function Nested(k: nat): Value {
    if k == 0 then Int(0) else OptionalSome(Nested(k - 1))
  }

  lemma {:induction false} NestedLimit(rules: ValueRules, k: nat, depth: nat)
    requires forall v :: rules.admits(v)
    ensures WellFormedAt(rules, Nested(k), depth) <==> depth + k < 16
  {
    if k > 0 {
      NestedLimit(rules, k - 1, depth + 1);
    }
  }

  /** The limits in numbers: sixteen values deep, and a mebibyte of bytes or items. */
  lemma Limits(rules: ValueRules, data: Bytes, xs: seq<Value>, k: nat, depth: nat)
    requires forall v :: rules.admits(v)
    requires depth < 15 && forall i | 0 <= i < |xs| :: WellFormedAt(rules, xs[i], depth + 1)
    ensures WellFormedAt(rules, Nested(k), depth) <==> depth + k < 16
    ensures WellFormedAt(rules, Buffer(data), depth) <==> |data| <= 1048576
    ensures WellFormedAt(rules, List(xs), depth) <==> |xs| <= 1048576
  {
    NestedLimit(rules, k, depth);
  }
}
