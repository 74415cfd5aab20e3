/**
  Tuples whose entries arrive in another order.

  A value may be written with the entries of its tuples in any order, at any
  depth.  Whatever the order, it decodes to the one value in which every tuple
  is sorted.  A name that comes twice is refused.
 */
module TupleOrder {
  import opened Wire
  import opened Codecs
  import opened Values

  /** The entries have the same names, in the same order, and values that agree but for the order of their tuples. */
  ghost predicate ReordersEntries(es: seq<Entry>, fs: seq<Entry>)
    decreases es, 0
  {
    && |fs| == |es|
    && forall i | 0 <= i < |es| :: fs[i].name == es[i].name && Reorders(es[i].value, fs[i].value)
  }

  ghost predicate ReordersItems(xs: seq<Value>, ys: seq<Value>)
    decreases xs, 0
  {
    |ys| == |xs| && forall i | 0 <= i < |xs| :: Reorders(xs[i], ys[i])
  }

  /** `v` is `u` with the entries of every tuple put in order. */
  ghost predicate Reorders(u: Value, v: Value)
    decreases u, 1
  {
    match u
    case Response(c, x) => v.Response? && v.committed == c && Reorders(x, v.inner)
    case OptionalSome(x) => v.OptionalSome? && Reorders(x, v.some)
    case List(xs) => v.List? && ReordersItems(xs, v.items)
    case Tuple(es) =>
      && v.Tuple? && SortedEntries(v.entries)
      && exists fs :: ReordersEntries(es, fs) && multiset(fs) == multiset(v.entries)
    case _ => v == u
  }

  // ---------- Sorted entries are determined by what they are ----------

  lemma SortedFirst(m: seq<Entry>, k: seq<Entry>)
    requires SortedEntries(m) && SortedEntries(k) && m != [] && multiset(m) == multiset(k)
    ensures k != [] && m[0] == k[0]
  {
    assert m[0] in multiset(m) && m[0] in multiset(k);
    var j :| 0 <= j < |k| && k[j] == m[0];
    assert k[0] in multiset(k) && k[0] in multiset(m);
    var i :| 0 <= i < |m| && m[i] == k[0];
    if i > 0 && j > 0 {
      LexTransitive(m[0].name, k[0].name, m[0].name);
      LexIrreflexive(m[0].name);
    }
  }

  lemma {:induction false} SortedUnique(m: seq<Entry>, k: seq<Entry>)
    requires SortedEntries(m) && SortedEntries(k) && multiset(m) == multiset(k)
    ensures m == k
    decreases m
  {
    if m == [] {
      assert |multiset(k)| == 0;
    } else {
      SortedFirst(m, k);
      assert m == [m[0]] + m[1..] && k == [k[0]] + k[1..];
      assert multiset(m[1..]) == multiset(m) - multiset{m[0]};
      assert multiset(k[1..]) == multiset(k) - multiset{k[0]};
      SortedUnique(m[1..], k[1..]);
    }
  }

  lemma {:induction false} InsertKeepsAll(e: Entry, es: seq<Entry>)
    requires Insert(e, es).Entries?
    ensures multiset(Insert(e, es).entries) == multiset(es) + multiset{e}
  {
    if es != [] {
      assert es == [es[0]] + es[1..];
      if !LexLess(e.name, es[0].name) {
        InsertKeepsAll(e, es[1..]);
      }
    }
  }

  lemma {:induction false} FromDataKeepsAll(es: seq<Entry>)
    requires FromData(es).Entries?
    ensures multiset(FromData(es).entries) == multiset(es)
  {
    if es != [] {
      var n := |es| - 1;
      FromDataKeepsAll(es[..n]);
      InsertKeepsAll(es[n], FromData(es[..n]).entries);
      assert es == es[..n] + [es[n]];
    }
  }

  lemma SortedIsDistinct(m: seq<Entry>)
    requires SortedEntries(m)
    ensures DistinctNames(m)
  {
    forall i, j | 0 <= i < j < |m| ensures m[i].name != m[j].name {
      LexIrreflexive(m[i].name);
    }
  }

  /** How many entries have the name. */
  function Named(es: seq<Entry>, name: Bytes): multiset<Entry> {
    if es == [] then multiset{} else (if es[0].name == name then multiset{es[0]} else multiset{}) + Named(es[1..], name)
  }

  lemma {:induction false} NamedIsPart(es: seq<Entry>, name: Bytes)
    ensures forall e: Entry :: Named(es, name)[e] == if e.name == name then multiset(es)[e] else 0
  {
    if es != [] {
      NamedIsPart(es[1..], name);
      assert es == [es[0]] + es[1..];
    }
  }

  lemma {:induction false} TwoNamed(es: seq<Entry>, i: nat, j: nat)
    requires i < j < |es| && es[i].name == es[j].name
    ensures |Named(es, es[i].name)| >= 2
  {
    var name := es[i].name;
    if i == 0 {
      OneNamed(es[1..], j - 1);
    } else {
      TwoNamed(es[1..], i - 1, j - 1);
    }
  }

  lemma {:induction false} OneNamed(es: seq<Entry>, i: nat)
    requires i < |es|
    ensures |Named(es, es[i].name)| >= 1
  {
    if i > 0 {
      OneNamed(es[1..], i - 1);
    }
  }

  lemma NameInTail(es: seq<Entry>, name: Bytes)
    requires es != []
    ensures HasName(es, name) <==> es[0].name == name || HasName(es[1..], name)
  {
    assert forall i | 0 <= i < |es| - 1 :: es[1..][i] == es[i + 1];
    if i :| 0 <= i < |es| && es[i].name == name {
      assert i > 0 ==> es[1..][i - 1].name == name;
    }
  }

  lemma {:induction false} NoneNamed(es: seq<Entry>, name: Bytes)
    requires !HasName(es, name)
    ensures Named(es, name) == multiset{}
  {
    if es != [] {
      NameInTail(es, name);
      NoneNamed(es[1..], name);
    }
  }

  lemma {:induction false} AtMostOneNamed(es: seq<Entry>, name: Bytes)
    requires DistinctNames(es)
    ensures |Named(es, name)| <= 1
  {
    if es != [] {
      assert forall i | 0 <= i < |es| - 1 :: es[1..][i] == es[i + 1];
      if es[0].name == name {
        NoneNamed(es[1..], name);
      } else {
        AtMostOneNamed(es[1..], name);
      }
    }
  }

  /** Whether names repeat does not depend on the order. */
  lemma DistinctReordered(m: seq<Entry>, es: seq<Entry>)
    requires DistinctNames(m) && multiset(m) == multiset(es)
    ensures DistinctNames(es)
  {
    forall i, j | 0 <= i < j < |es| ensures es[i].name != es[j].name {
      if es[i].name == es[j].name {
        var name := es[i].name;
        NamedIsPart(m, name);
        NamedIsPart(es, name);
        assert Named(m, name) == Named(es, name);
        AtMostOneNamed(m, name);
        TwoNamed(es, i, j);
      }
    }
  }

  /** Building a tuple from the entries of a sorted one gives the sorted one, whatever their order. */
  lemma BuiltIsSorted(es: seq<Entry>, m: seq<Entry>)
    requires SortedEntries(m) && multiset(es) == multiset(m)
    ensures FromData(es) == Entries(m)
  {
    SortedIsDistinct(m);
    DistinctReordered(m, es);
    FromDataIff(es);
    FromDataSorts(es);
    FromDataKeepsAll(es);
    SortedUnique(FromData(es).entries, m);
  }

  // ---------- Decoding ----------

  lemma EntryDecodes(value: Codec<Value>, name: Bytes, b: Bytes, x: Value, s: Bytes)
    requires IsClarityName(name) && value.get(b + s) == Ok(x, s)
    ensures EntryCodec(value).get(PutShortString(name) + b + s) == Ok(Entry(name, x), s)
  {
    NamesLawful();
    Assoc(PutShortString(name), b, s);
    assert ClarityName().get(ClarityName().put(name) + (b + s)) == Ok(name, b + s);
  }

  lemma VecDecodes<T>(c: Codec<T>, fits: nat -> bool, xs: seq<T>, n: nat, b: Bytes, s: Bytes)
    requires n <= MAX_U32 && fits(n) && GetMany(c.get, n, b + s) == Ok(xs, s)
    ensures GetVec(c, fits, PutU32(n) + b + s) == Ok(xs, s)
  {
    Assoc(PutU32(n), b, s);
    ReadU32Put(n, b + s);
  }

  /** Items that decode one by one decode as a list. */
  lemma {:induction false} ManyDecode<T, U>(get: Bytes -> Parsed<T>, put: U -> Bytes, us: seq<U>, ys: seq<T>, s: Bytes)
    requires |us| == |ys| && forall i, t: Bytes | 0 <= i < |us| :: get(put(us[i]) + t) == Ok(ys[i], t)
    ensures GetMany(get, |ys|, PutMany(put, us) + s) == Ok(ys, s)
    decreases us
  {
    if us == [] {
      assert PutMany(put, us) + s == s;
    } else {
      var t := PutMany(put, us[1..]) + s;
      Assoc(put(us[0]), PutMany(put, us[1..]), s);
      assert get(put(us[0]) + t) == Ok(ys[0], t);
      forall i, t: Bytes | 0 <= i < |us[1..]| ensures get(put(us[1..][i]) + t) == Ok(ys[1..][i], t) {
        assert us[1..][i] == us[i + 1] && ys[1..][i] == ys[i + 1];
      }
      ManyDecode(get, put, us[1..], ys[1..], s);
      assert [ys[0]] + ys[1..] == ys;
    }
  }

  lemma {:induction false} ItemsDecode(rules: ValueRules, depth: nat, xs: seq<Value>, ys: seq<Value>, s: Bytes)
    requires ReordersItems(xs, ys) && forall i | 0 <= i < |ys| :: WellFormedAt(rules, ys[i], depth)
    ensures GetMany(ValueAt(rules, depth).get, |ys|, PutItems(xs) + s) == Ok(ys, s)
    decreases xs, 0
  {
    var get := ValueAt(rules, depth).get;
    forall i, t: Bytes | 0 <= i < |xs| ensures get(PutValue(xs[i]) + t) == Ok(ys[i], t) {
      ReorderedDecodes(rules, depth, xs[i], ys[i], t);
      assert get(PutValue(xs[i]) + t) == GetValueAt(rules, depth, PutValue(xs[i]) + t);
    }
    PutItemsIsMany(xs);
    ManyDecode(get, PutValue, xs, ys, s);
  }

  lemma EntriesDecodeBy(value: Codec<Value>, es: seq<Entry>, fs: seq<Entry>, s: Bytes)
    requires |fs| == |es| && forall i | 0 <= i < |es| :: fs[i].name == es[i].name && IsClarityName(fs[i].name)
    requires forall i, t: Bytes | 0 <= i < |es| :: value.get(PutValue(es[i].value) + t) == Ok(fs[i].value, t)
    ensures GetMany(EntryCodec(value).get, |fs|, PutEntries(es) + s) == Ok(fs, s)
  {
    var get := EntryCodec(value).get;
    forall i, t: Bytes | 0 <= i < |es| ensures get(PutEntry(es[i]) + t) == Ok(fs[i], t) {
      assert value.get(PutValue(es[i].value) + t) == Ok(fs[i].value, t);
      EntryDecodes(value, es[i].name, PutValue(es[i].value), fs[i].value, t);
    }
    EntriesAreMany(es);
    ManyDecode(get, PutEntry, es, fs, s);
  }

  lemma {:induction false} EntriesAreMany(es: seq<Entry>)
    ensures PutEntries(es) == PutMany(PutEntry, es)
  {
    if es != [] {
      EntriesAreMany(es[1..]);
    }
  }

  lemma {:induction false} EntriesDecode(rules: ValueRules, depth: nat, es: seq<Entry>, fs: seq<Entry>, s: Bytes)
    requires ReordersEntries(es, fs)
    requires forall i | 0 <= i < |fs| :: IsClarityName(fs[i].name) && WellFormedAt(rules, fs[i].value, depth)
    ensures GetMany(EntryCodec(ValueAt(rules, depth)).get, |fs|, PutEntries(es) + s) == Ok(fs, s)
    decreases es, 0
  {
    var value := ValueAt(rules, depth);
    forall i, t: Bytes | 0 <= i < |es| ensures value.get(PutValue(es[i].value) + t) == Ok(fs[i].value, t) {
      ReorderedDecodes(rules, depth, es[i].value, fs[i].value, t);
      assert value.get(PutValue(es[i].value) + t) == GetValueAt(rules, depth, PutValue(es[i].value) + t);
    }
    EntriesDecodeBy(value, es, fs, s);
  }

  /** The bytes of a value behind its prefix. */
  function BodyOf(u: Value): Bytes { PutValue(u)[1..] }

  lemma DecodesByBody(rules: ValueRules, depth: nat, u: Value, v: Value, s: Bytes)
    requires depth < 16
    requires CompositeBody(rules, ValueAt(rules, depth + 1), Prefix(u)).get(BodyOf(u) + s) == Ok(v, s)
    ensures GetValueAt(rules, depth, PutValue(u) + s) == Ok(v, s)
  {
    assert PutValue(u) == [Prefix(u)] + BodyOf(u);
    Assoc([Prefix(u)], BodyOf(u), s);
    ReadU8Append(Prefix(u), BodyOf(u) + s);
  }

  lemma BodyIs(u: Value, b: Bytes)
    requires PutValue(u) == [Prefix(u)] + b
    ensures BodyOf(u) == b
  {
  }

  lemma BodyOfList(u: Value)
    requires u.List? && |u.items| <= MAX_U32
    ensures BodyOf(u) == PutU32(|u.items|) + PutItems(u.items)
  {
    assert |u.items| % 0x1_0000_0000 == |u.items|;
    BodyIs(u, PutU32(|u.items|) + PutItems(u.items));
  }

  lemma BodyOfTuple(u: Value)
    requires u.Tuple? && |u.entries| <= MAX_U32
    ensures BodyOf(u) == PutU32(|u.entries|) + PutEntries(u.entries)
  {
    assert |u.entries| % 0x1_0000_0000 == |u.entries|;
    BodyIs(u, PutU32(|u.entries|) + PutEntries(u.entries));
  }

  /** What becomes of something once it is read. */
  function Finished<T>(r: Option<T>, s: Bytes): Parsed<T> {
    match r
    case None => Err(DeserializeError)
    case Some(v) => Ok(v, s)
  }

  lemma ViaDecodes<A, B>(c: Codec<A>, view: View<A, B>, b: Bytes, a: A, s: Bytes)
    requires c.get(b) == Ok(a, s)
    ensures Via(c, view).get(b) == Finished(view.to(a), s)
  {
  }

  lemma ListBody(rules: ValueRules, value: Codec<Value>, u: Value, v: Value, s: Bytes)
    requires u.List? && v.List? && |u.items| == |v.items| <= MAX_VALUE_SIZE && rules.admits(v)
    requires GetMany(value.get, |v.items|, PutItems(u.items) + s) == Ok(v.items, s)
    ensures CompositeBody(rules, value, 11).get(BodyOf(u) + s) == Ok(v, s)
  {
    var c, b := Vec(value, FitsValue), BodyOf(u) + s;
    BodyOfList(u);
    VecDecodes(value, FitsValue, v.items, |v.items|, PutItems(u.items), s);
    assert c.get(b) == GetVec(value, FitsValue, b);
    ViaDecodes(c, ListView(rules, value), b, v.items, s);
    assert ListView(rules, value).to(v.items) == Some(v);
    assert CompositeBody(rules, value, 11) == Via(c, ListView(rules, value));
  }

  lemma TupleRead(rules: ValueRules, value: Codec<Value>, u: Value, fs: seq<Entry>, s: Bytes)
    requires u.Tuple? && |u.entries| == |fs| <= MAX_VALUE_SIZE
    requires GetMany(EntryCodec(value).get, |fs|, PutEntries(u.entries) + s) == Ok(fs, s)
    ensures CompositeBody(rules, value, 12).get(BodyOf(u) + s) == Finished(ToTuple(rules, fs), s)
  {
    BodyOfTuple(u);
    VecDecodes(EntryCodec(value), FitsValue, fs, |fs|, PutEntries(u.entries), s);
    TupleReadBy(rules, value, BodyOf(u) + s, fs, s);
  }

  lemma TupleReadBy(rules: ValueRules, value: Codec<Value>, b: Bytes, fs: seq<Entry>, s: Bytes)
    requires GetVec(EntryCodec(value), FitsValue, b) == Ok(fs, s)
    ensures CompositeBody(rules, value, 12).get(b) == Finished(ToTuple(rules, fs), s)
  {
    var c := Vec(EntryCodec(value), FitsValue);
    assert c.get(b) == GetVec(EntryCodec(value), FitsValue, b);
    ViaDecodes(c, TupleView(rules, value), b, fs, s);
    assert TupleView(rules, value).to(fs) == ToTuple(rules, fs);
    assert CompositeBody(rules, value, 12) == Via(c, TupleView(rules, value));
  }

  lemma TupleDecodes(rules: ValueRules, depth: nat, u: Value, v: Value, fs: seq<Entry>, s: Bytes)
    requires u.Tuple? && v.Tuple? && WellFormedAt(rules, v, depth)
    requires |fs| == |u.entries| && multiset(fs) == multiset(v.entries)
    requires GetMany(EntryCodec(ValueAt(rules, depth + 1)).get, |fs|, PutEntries(u.entries) + s) == Ok(fs, s)
    ensures GetValueAt(rules, depth, PutValue(u) + s) == Ok(v, s)
  {
    assert |fs| == |multiset(fs)| == |v.entries|;
    BuiltIsSorted(fs, v.entries);
    TupleRead(rules, ValueAt(rules, depth + 1), u, fs, s);
    DecodesByBody(rules, depth, u, v, s);
  }

  lemma EntriesOk(rules: ValueRules, depth: nat, v: Value, fs: seq<Entry>)
    requires v.Tuple? && WellFormedAt(rules, v, depth) && multiset(fs) == multiset(v.entries)
    ensures forall i | 0 <= i < |fs| :: IsClarityName(fs[i].name) && WellFormedAt(rules, fs[i].value, depth + 1)
  {
    forall i | 0 <= i < |fs| ensures IsClarityName(fs[i].name) && WellFormedAt(rules, fs[i].value, depth + 1) {
      assert fs[i] in multiset(fs) && fs[i] in multiset(v.entries);
      var j :| 0 <= j < |v.entries| && v.entries[j] == fs[i];
    }
  }

  lemma SameDecodes(rules: ValueRules, depth: nat, v: Value, s: Bytes)
    requires WellFormedAt(rules, v, depth)
    ensures GetValueAt(rules, depth, PutValue(v) + s) == Ok(v, s)
  {
    ValueAtLawful(rules, depth);
    var c := ValueAt(rules, depth);
    assert c.get(c.put(v) + s) == Ok(v, s);
  }

  /** The one value inside a response or an optional. */
  function Inside(u: Value): Value
    requires u.Response? || u.OptionalSome?
  {
    if u.Response? then u.inner else u.some
  }

  lemma WrappedBody(rules: ValueRules, value: Codec<Value>, u: Value, v: Value, s: Bytes)
    requires (u.Response? && v.Response? && u.committed == v.committed) || (u.OptionalSome? && v.OptionalSome?)
    requires value.get(PutValue(Inside(u)) + s) == Ok(Inside(v), s) && rules.admits(v)
    ensures CompositeBody(rules, value, Prefix(u)).get(BodyOf(u) + s) == Ok(v, s)
  {
    var b := BodyOf(u) + s;
    assert BodyOf(u) == PutValue(Inside(u));
    if u.Response? {
      ViaDecodes(value, ResponseView(rules, value, u.committed), b, Inside(v), s);
    } else {
      ViaDecodes(value, OptionalView(rules, value), b, Inside(v), s);
    }
  }

  lemma WrappedDecodes(rules: ValueRules, depth: nat, u: Value, v: Value, s: Bytes)
    requires depth < 16
    requires (u.Response? && v.Response? && u.committed == v.committed) || (u.OptionalSome? && v.OptionalSome?)
    requires GetValueAt(rules, depth + 1, PutValue(Inside(u)) + s) == Ok(Inside(v), s) && rules.admits(v)
    ensures GetValueAt(rules, depth, PutValue(u) + s) == Ok(v, s)
  {
    var value := ValueAt(rules, depth + 1);
    assert value.get(PutValue(Inside(u)) + s) == GetValueAt(rules, depth + 1, PutValue(Inside(u)) + s);
    WrappedBody(rules, value, u, v, s);
    DecodesByBody(rules, depth, u, v, s);
  }

  lemma ListDecodes(rules: ValueRules, depth: nat, u: Value, v: Value, s: Bytes)
    requires u.List? && v.List? && |u.items| == |v.items| && WellFormedAt(rules, v, depth)
    requires GetMany(ValueAt(rules, depth + 1).get, |v.items|, PutItems(u.items) + s) == Ok(v.items, s)
    ensures GetValueAt(rules, depth, PutValue(u) + s) == Ok(v, s)
  {
    ListBody(rules, ValueAt(rules, depth + 1), u, v, s);
    DecodesByBody(rules, depth, u, v, s);
  }

  /** Whatever the order in which the entries of its tuples are written, a value decodes to itself with them sorted. */
  lemma {:induction false} ReorderedDecodes(rules: ValueRules, depth: nat, u: Value, v: Value, s: Bytes)
    requires Reorders(u, v) && WellFormedAt(rules, v, depth)
    ensures GetValueAt(rules, depth, PutValue(u) + s) == Ok(v, s)
    decreases u, 1
  {
    match u
    case Response(_, x) =>
      ReorderedDecodes(rules, depth + 1, x, v.inner, s);
      WrappedDecodes(rules, depth, u, v, s);
    case OptionalSome(x) =>
      ReorderedDecodes(rules, depth + 1, x, v.some, s);
      WrappedDecodes(rules, depth, u, v, s);
    case List(xs) =>
      ItemsDecode(rules, depth + 1, xs, v.items, s);
      ListDecodes(rules, depth, u, v, s);
    case Tuple(es) =>
      var fs :| ReordersEntries(es, fs) && multiset(fs) == multiset(v.entries);
      EntriesOk(rules, depth, v, fs);
      EntriesDecode(rules, depth + 1, es, fs, s);
      TupleDecodes(rules, depth, u, v, fs, s);
    case _ => SameDecodes(rules, depth, v, s);
  }

  lemma BoundedDecodes<T>(c: Codec<T>, max: nat, x: Bytes, v: T, s: Bytes)
    requires |x| <= max && c.get(x + Window(s, max - |x|)) == Ok(v, Window(s, max - |x|))
    ensures Bounded(c, max).get(x + s) == Ok(v, s)
  {
    WindowAppend(x, s, max);
  }

  lemma GetAt(rules: ValueRules, depth: nat, b: Bytes)
    ensures ValueAt(rules, depth).get(b) == GetValueAt(rules, depth, b)
  {
  }

  lemma DecodesWithin(rules: ValueRules, depth: nat, max: nat, u: Value, v: Value, s: Bytes)
    requires Reorders(u, v) && WellFormedAt(rules, v, depth) && |PutValue(u)| <= max
    ensures Bounded(ValueAt(rules, depth), max).get(PutValue(u) + s) == Ok(v, s)
  {
    var x := PutValue(u);
    ReorderedDecodes(rules, depth, u, v, Window(s, max - |x|));
    GetAt(rules, depth, x + Window(s, max - |x|));
    BoundedDecodes(ValueAt(rules, depth), max, x, v, s);
  }

  /** The same of a value in a message, within the 2 MiB a value may take; no values are open around it. */
  lemma ReorderedValueDecodes(rules: ValueRules, u: Value, v: Value, s: Bytes, depth: nat)
    requires depth == 0 && Reorders(u, v) && WellFormedAt(rules, v, depth) && |PutValue(u)| <= 0x20_0000
    ensures ValueCodec(rules).get(PutValue(u) + s) == Ok(v, s)
  {
    DecodesWithin(rules, depth, BOUND_VALUE_SERIALIZATION_BYTES, u, v, s);
  }

  /** A tuple that names an entry twice is refused, wherever it occurs. */
  lemma RepeatedNameRefused(rules: ValueRules, depth: nat, es: seq<Entry>, i: nat, j: nat, s: Bytes)
    requires depth < 16 && |es| <= MAX_VALUE_SIZE
    requires forall k | 0 <= k < |es| :: IsClarityName(es[k].name) && WellFormedAt(rules, es[k].value, depth + 1)
    requires i < j < |es| && es[i].name == es[j].name
    ensures GetValueAt(rules, depth, PutValue(Tuple(es)) + s) == Err(DeserializeError)
  {
    SameEntriesDecode(rules, depth + 1, es, s);
    NotBuilt(rules, es, i, j);
    UnbuiltRefused(rules, depth, Tuple(es), s);
  }

  lemma UnbuiltRefused(rules: ValueRules, depth: nat, u: Value, s: Bytes)
    requires depth < 16 && u.Tuple? && |u.entries| <= MAX_VALUE_SIZE && ToTuple(rules, u.entries) == None
    requires GetMany(EntryCodec(ValueAt(rules, depth + 1)).get, |u.entries|, PutEntries(u.entries) + s) == Ok(u.entries, s)
    ensures GetValueAt(rules, depth, PutValue(u) + s) == Err(DeserializeError)
  {
    var value := ValueAt(rules, depth + 1);
    TupleRead(rules, value, u, u.entries, s);
    assert Prefix(u) == 12;
    assert CompositeBody(rules, value, Prefix(u)).get(BodyOf(u) + s) == Err(DeserializeError);
    RefusedByBody(rules, depth, u, s);
  }

  lemma SameEntriesDecode(rules: ValueRules, depth: nat, es: seq<Entry>, s: Bytes)
    requires forall k | 0 <= k < |es| :: IsClarityName(es[k].name) && WellFormedAt(rules, es[k].value, depth)
    ensures GetMany(EntryCodec(ValueAt(rules, depth)).get, |es|, PutEntries(es) + s) == Ok(es, s)
  {
    var value := ValueAt(rules, depth);
    forall k, t: Bytes | 0 <= k < |es| ensures value.get(PutValue(es[k].value) + t) == Ok(es[k].value, t) {
      SameDecodes(rules, depth, es[k].value, t);
      assert value.get(PutValue(es[k].value) + t) == GetValueAt(rules, depth, PutValue(es[k].value) + t);
    }
    EntriesDecodeBy(value, es, es, s);
  }

  lemma NotBuilt(rules: ValueRules, es: seq<Entry>, i: nat, j: nat)
    requires i < j < |es| && es[i].name == es[j].name
    ensures ToTuple(rules, es) == None
  {
    FromDataIff(es);
  }

  lemma RefusedByBody(rules: ValueRules, depth: nat, u: Value, s: Bytes)
    requires depth < 16
    requires CompositeBody(rules, ValueAt(rules, depth + 1), Prefix(u)).get(BodyOf(u) + s) == Err(DeserializeError)
    ensures GetValueAt(rules, depth, PutValue(u) + s) == Err(DeserializeError)
  {
    assert PutValue(u) == [Prefix(u)] + BodyOf(u);
    Assoc([Prefix(u)], BodyOf(u), s);
    ReadU8Append(Prefix(u), BodyOf(u) + s);
  }
}
