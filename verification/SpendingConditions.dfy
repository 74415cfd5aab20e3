/**
  Spending conditions and transaction authorizations on the wire: the fields a
  multi-signature condition collects, the three kinds of condition told apart by
  looking at their hash mode byte, and standard or sponsored authorization.
 */
module SpendingConditions {
  import opened Wire
  import opened Codecs

  const PREAMBLE_ENCODED_SIZE: nat := 4 + 4 + 4 + 8 + 32 + 8 + 32 + 4 + 65 + 4
  const MAX_RELAYERS_LEN: nat := 16
  const RELAY_DATA_ENCODED_SIZE: nat := 16 + 2 + 20 + 4
  const MAX_PAYLOAD_LEN: nat := 1 + 16 * 1024 * 1024
  const MAX_MESSAGE_LEN: nat := MAX_PAYLOAD_LEN + (PREAMBLE_ENCODED_SIZE + MAX_RELAYERS_LEN * RELAY_DATA_ENCODED_SIZE)

  /** A public key is its 33-byte compressed point and the encoding it is used with. */
  datatype AuthField =
    | KeyField(point: Bytes, compressed: bool)
    | SignatureField(compressed: bool, signature: Bytes)

  /** `segwit` tells P2WPKH from P2PKH, and P2WSH from P2SH. */
  datatype SpendingCondition =
    | Singlesig(segwit: bool, signer: Bytes, nonce: u64, fee: u64, compressed: bool, signature: Bytes)
    | Multisig(segwit: bool, signer: Bytes, nonce: u64, fee: u64, fields: seq<AuthField>, required: u16)
    | OrderIndependent(segwit: bool, signer: Bytes, nonce: u64, fee: u64, fields: seq<AuthField>, required: u16)

  datatype Auth =
    | AuthStandard(origin: SpendingCondition)
    | AuthSponsored(origin: SpendingCondition, sponsor: SpendingCondition)

  /** What key recovery and memory layout contribute: which points are on the curve, and a field's size in memory. */
  datatype KeyRules = KeyRules(validPoint: Bytes -> bool, fieldSize: nat)

  // ---------- What the decoder and the verifier count ----------

  function NumSignatures(fields: seq<AuthField>): nat {
    if fields == [] then 0
    else NumSignatures(fields[..|fields| - 1]) + if fields[|fields| - 1].SignatureField? then 1 else 0
  }

  predicate AllCompressed(fields: seq<AuthField>) {
    forall i | 0 <= i < |fields| :: fields[i].compressed
  }

  lemma {:induction false} NumSignaturesMonotone(fields: seq<AuthField>, i: nat)
    requires i <= |fields|
    ensures NumSignatures(fields[..i]) <= NumSignatures(fields)
  {
    if i < |fields| {
      NumSignaturesMonotone(fields[..|fields| - 1], i);
      assert fields[..|fields| - 1][..i] == fields[..i];
    } else {
      assert fields[..i] == fields;
    }
  }

  /** The decoder's pass over the fields: a 16-bit counter that may overflow, and a flag. */
  method ScanFields(fields: seq<AuthField>) returns (count: Option<u16>, haveUncompressed: bool)
    ensures count.Some? <==> NumSignatures(fields) <= MAX_U16
    ensures count.Some? ==> count.value == NumSignatures(fields) && haveUncompressed == !AllCompressed(fields)
  {
    var numSigs: u16 := 0;
    haveUncompressed := false;
    for i := 0 to |fields|
      invariant numSigs == NumSignatures(fields[..i])
      invariant haveUncompressed == !AllCompressed(fields[..i])
    {
      assert fields[..i + 1][..i] == fields[..i];
      assert fields[..i + 1] == fields[..i] + [fields[i]];
      match fields[i]
      case SignatureField(compressed, _) =>
        if numSigs == MAX_U16 {
          NumSignaturesMonotone(fields, i + 1);
          return None, haveUncompressed;
        }
        numSigs := numSigs + 1;
        if !compressed {
          haveUncompressed := true;
        }
      case KeyField(_, compressed) =>
        if !compressed {
          haveUncompressed := true;
        }
    }
    assert fields[..|fields|] == fields;
    count := Some(numSigs);
  }

  /** Where the signatures are. */
  function Signatures(fields: seq<AuthField>): set<nat> {
    set i: nat | i < |fields| && fields[i].SignatureField?
  }

  lemma {:induction false} SignaturesCounted(fields: seq<AuthField>)
    ensures |Signatures(fields)| == NumSignatures(fields) <= |fields|
  {
    if fields != [] {
      var n := |fields| - 1;
      SignaturesCounted(fields[..n]);
      if fields[n].SignatureField? {
        assert Signatures(fields) == Signatures(fields[..n]) + {n};
      } else {
        assert Signatures(fields) == Signatures(fields[..n]);
      }
    }
  }

  /** Exactly the required number of signatures, or at least that many; P2WSH takes compressed keys only. */
  predicate FieldsAccepted(ordered: bool, segwit: bool, fields: seq<AuthField>, required: u16) {
    && NumSignatures(fields) <= MAX_U16
    && (if ordered then NumSignatures(fields) == required else NumSignatures(fields) >= required)
    && (segwit ==> AllCompressed(fields))
  }

  // ---------- Fields ----------

  predicate FieldOk(rules: KeyRules, f: AuthField) {
    match f
    case KeyField(point, _) => |point| == 33 && rules.validPoint(point)
    case SignatureField(_, sig) => |sig| == 65
  }

  function KeyView(rules: KeyRules, compressed: bool): View<Bytes, AuthField> {
    View((p: Bytes) => if rules.validPoint(p) then Some(KeyField(p, compressed)) else None,
         (f: AuthField) => if f.KeyField? then Some(f.point) else None,
         (f: AuthField) => f.KeyField? && f.compressed == compressed && FieldOk(rules, f))
  }

  function SignatureView(rules: KeyRules, compressed: bool): View<Bytes, AuthField> {
    View((s: Bytes) => Some(SignatureField(compressed, s)),
         (f: AuthField) => if f.SignatureField? then Some(f.signature) else None,
         (f: AuthField) => f.SignatureField? && f.compressed == compressed && FieldOk(rules, f))
  }

  function FieldTag(f: AuthField): byte {
    match f
    case KeyField(_, compressed) => if compressed then 0 else 1
    case SignatureField(compressed, _) => if compressed then 2 else 3
  }

  function FieldBody(rules: KeyRules, t: byte): Codec<AuthField> {
    if t == 0 || t == 1 then Via(Exact(33), KeyView(rules, t == 0))
    else if t == 2 || t == 3 then Via(Exact(65), SignatureView(rules, t == 2))
    else Nothing()
  }

  function FieldBodies(rules: KeyRules): byte -> Codec<AuthField> {
    (t: byte) => FieldBody(rules, t)
  }

  function FieldCodec(rules: KeyRules): Codec<AuthField> {
    Tagged(FieldTag, FieldBodies(rules))
  }

  lemma FieldBodyLawful(rules: KeyRules, t: byte)
    ensures Lawful(FieldBody(rules, t))
  {
    ExactLawful(33);
    ExactLawful(65);
    if t == 0 || t == 1 {
      ViaLawful(Exact(33), KeyView(rules, t == 0));
    } else if t == 2 || t == 3 {
      ViaLawful(Exact(65), SignatureView(rules, t == 2));
    } else {
      NothingLawful<AuthField>();
    }
  }

  lemma FieldLawful(rules: KeyRules)
    ensures Lawful(FieldCodec(rules))
    ensures forall f :: FieldCodec(rules).ok(f) <==> FieldOk(rules, f)
  {
    var bodies := FieldBodies(rules);
    forall t: byte ensures Lawful(bodies(t)) {
      FieldBodyLawful(rules, t);
    }
    TaggedLawful(FieldTag, bodies);
    forall f ensures FieldCodec(rules).ok(f) <==> FieldOk(rules, f) {
      assert bodies(FieldTag(f)) == FieldBody(rules, FieldTag(f));
    }
  }

  /** Before reading any item, a list's count is multiplied by the item's size in memory and checked. */
  function Fits(size: nat): nat -> bool {
    (n: nat) => size * n <= MAX_MESSAGE_LEN
  }

  /** The list of fields is read through a window of its own. */
  function FieldsCodec(rules: KeyRules): Codec<seq<AuthField>> {
    Bounded(Vec(FieldCodec(rules), Fits(rules.fieldSize)), MAX_MESSAGE_LEN)
  }

  lemma FieldsLawful(rules: KeyRules)
    ensures Lawful(FieldsCodec(rules))
  {
    FieldLawful(rules);
    VecLawful(FieldCodec(rules), Fits(rules.fieldSize));
    BoundedLawful(Vec(FieldCodec(rules), Fits(rules.fieldSize)), MAX_MESSAGE_LEN);
  }

  // ---------- Conditions ----------

  function HashMode(c: SpendingCondition): byte {
    match c
    case Singlesig(segwit, _, _, _, _, _) => if segwit then 2 else 0
    case Multisig(segwit, _, _, _, _, _) => if segwit then 3 else 1
    case OrderIndependent(segwit, _, _, _, _, _) => if segwit then 7 else 5
  }

  function KeyEncodingView(): View<byte, bool> {
    View((b: byte) => if b == 0 then Some(true) else if b == 1 then Some(false) else None,
         (compressed: bool) => Some(if compressed then 0 else 1),
         (compressed: bool) => true)
  }

  function KeyEncoding(): Codec<bool> {
    Via(Byte(), KeyEncodingView())
  }

  type Header<T> = (byte, (Bytes, (u64, (u64, T))))

  function ModeCodec(plain: byte, segwit: byte): Codec<byte> {
    Check(Byte(), b => b == plain || b == segwit)
  }

  /** Hash mode, signer, nonce and fee come first in every condition. */
  function HeaderCodec<T>(mode: Codec<byte>, tail: Codec<T>): Codec<Header<T>> {
    Both(mode, Both(Exact(20), Both(U64(), Both(U64(), tail))))
  }

  lemma HeaderLawful<T(!new)>(plain: byte, segwit: byte, tail: Codec<T>)
    requires Lawful(tail)
    ensures Lawful(HeaderCodec(ModeCodec(plain, segwit), tail))
  {
    ByteLawful();
    ExactLawful(20);
    U64Lawful();
    CheckLawful(Byte(), b => b == plain || b == segwit);
    BothLawful(U64(), tail);
    BothLawful(U64(), Both(U64(), tail));
    BothLawful(Exact(20), Both(U64(), Both(U64(), tail)));
    BothLawful(ModeCodec(plain, segwit), Both(Exact(20), Both(U64(), Both(U64(), tail))));
  }

  predicate SinglesigOk(c: SpendingCondition) {
    c.Singlesig? && |c.signer| == 20 && |c.signature| == 65 && (c.segwit ==> c.compressed)
  }

  function SinglesigView(): View<Header<(bool, Bytes)>, SpendingCondition> {
    View((h: Header<(bool, Bytes)>) =>
           var c := Singlesig(h.0 == 2, h.1.0, h.1.1.0, h.1.1.1.0, h.1.1.1.1.0, h.1.1.1.1.1);
           if c.segwit && !c.compressed then None else Some(c),
         (c: SpendingCondition) =>
           if c.Singlesig? then Some((HashMode(c), (c.signer, (c.nonce, (c.fee, (c.compressed, c.signature))))))
           else None,
         SinglesigOk)
  }

  function SinglesigCodec(): Codec<SpendingCondition> {
    Via(HeaderCodec(ModeCodec(0, 2), Both(KeyEncoding(), Exact(65))), SinglesigView())
  }

  lemma SinglesigLawful()
    ensures Lawful(SinglesigCodec())
  {
    ByteLawful();
    ExactLawful(65);
    ViaLawful(Byte(), KeyEncodingView());
    var tail := Both(KeyEncoding(), Exact(65));
    BothLawful(KeyEncoding(), Exact(65));
    HeaderLawful(0, 2, tail);
    ViaLawful(HeaderCodec(ModeCodec(0, 2), tail), SinglesigView());
  }

  /** `fields` is the format of the list of fields. */
  predicate MultisigOk(fields: Codec<seq<AuthField>>, ordered: bool, c: SpendingCondition) {
    && (if ordered then c.Multisig? else c.OrderIndependent?)
    && |c.signer| == 20
    && fields.ok(c.fields)
    && FieldsAccepted(ordered, c.segwit, c.fields, c.required)
  }

  type MultisigRep = Header<(seq<AuthField>, u16)>

  function FromMultisigRep(ordered: bool, h: MultisigRep): Option<SpendingCondition> {
    var (mode, (signer, (nonce, (fee, (fields, required))))) := h;
    var segwit := mode == 3 || mode == 7;
    if !FieldsAccepted(ordered, segwit, fields, required) then None
    else if ordered then Some(Multisig(segwit, signer, nonce, fee, fields, required))
    else Some(OrderIndependent(segwit, signer, nonce, fee, fields, required))
  }

  function MultisigView(fields: Codec<seq<AuthField>>, ordered: bool): View<MultisigRep, SpendingCondition> {
    View((h: MultisigRep) => FromMultisigRep(ordered, h),
         (c: SpendingCondition) =>
           if c.Singlesig? then None
           else Some((HashMode(c), (c.signer, (c.nonce, (c.fee, (c.fields, c.required)))))),
         (c: SpendingCondition) => MultisigOk(fields, ordered, c))
  }

  function MultisigModes(ordered: bool): Codec<byte> {
    if ordered then ModeCodec(1, 3) else ModeCodec(5, 7)
  }

  function MultisigCodec(fields: Codec<seq<AuthField>>, ordered: bool): Codec<SpendingCondition> {
    Via(HeaderCodec(MultisigModes(ordered), Both(fields, U16())), MultisigView(fields, ordered))
  }

  lemma MultisigLawful(fields: Codec<seq<AuthField>>, ordered: bool)
    requires Lawful(fields)
    ensures Lawful(MultisigCodec(fields, ordered))
  {
    U16Lawful();
    var tail := Both(fields, U16());
    BothLawful(fields, U16());
    HeaderLawful(if ordered then 1 else 5, if ordered then 3 else 7, tail);
    ViaLawful(HeaderCodec(MultisigModes(ordered), tail), MultisigView(fields, ordered));
  }

  /** The decoder looks at the hash mode without consuming it and hands the stream to the matching kind. */
  function ConditionBody(fields: Codec<seq<AuthField>>, t: byte): Codec<SpendingCondition> {
    if t == 0 || t == 2 then SinglesigCodec()
    else if t == 1 || t == 3 then MultisigCodec(fields, true)
    else if t == 5 || t == 7 then MultisigCodec(fields, false)
    else Nothing()
  }

  function ConditionBodies(fields: Codec<seq<AuthField>>): byte -> Codec<SpendingCondition> {
    (t: byte) => ConditionBody(fields, t)
  }

  function ConditionCodec(fields: Codec<seq<AuthField>>): Codec<SpendingCondition> {
    Peeked(HashMode, ConditionBodies(fields))
  }

  predicate ConditionOk(fields: Codec<seq<AuthField>>, c: SpendingCondition) {
    match c
    case Singlesig(_, _, _, _, _, _) => SinglesigOk(c)
    case Multisig(_, _, _, _, _, _) => MultisigOk(fields, true, c)
    case OrderIndependent(_, _, _, _, _, _) => MultisigOk(fields, false, c)
  }

  lemma ConditionBodyLawful(fields: Codec<seq<AuthField>>, t: byte)
    requires Lawful(fields)
    ensures Lawful(ConditionBody(fields, t))
  {
    if t == 0 || t == 2 {
      SinglesigLawful();
    } else if t == 1 || t == 3 {
      MultisigLawful(fields, true);
    } else if t == 5 || t == 7 {
      MultisigLawful(fields, false);
    } else {
      NothingLawful<SpendingCondition>();
    }
  }

  lemma ConditionLeads(fields: Codec<seq<AuthField>>, t: byte, c: SpendingCondition)
    requires ConditionBody(fields, t).ok(c)
    ensures ConditionBody(fields, HashMode(c)) == ConditionBody(fields, t)
    ensures |ConditionBody(fields, t).put(c)| > 0 && ConditionBody(fields, t).put(c)[0] == HashMode(c)
  {
    if t == 0 || t == 2 {
      SinglesigLeads(c);
    } else {
      MultisigLeads(fields, t == 1 || t == 3, c);
    }
  }

  lemma HeaderLeads<T>(mode: Codec<byte>, tail: Codec<T>, h: Header<T>)
    requires mode.put(h.0) == [h.0]
    ensures |HeaderCodec(mode, tail).put(h)| > 0 && HeaderCodec(mode, tail).put(h)[0] == h.0
  {
  }

  lemma SinglesigLeads(c: SpendingCondition)
    requires SinglesigCodec().ok(c)
    ensures HashMode(c) in {0, 2} && |SinglesigCodec().put(c)| > 0 && SinglesigCodec().put(c)[0] == HashMode(c)
  {
    HeaderLeads(ModeCodec(0, 2), Both(KeyEncoding(), Exact(65)),
                (HashMode(c), (c.signer, (c.nonce, (c.fee, (c.compressed, c.signature))))));
  }

  lemma MultisigLeads(fields: Codec<seq<AuthField>>, ordered: bool, c: SpendingCondition)
    requires MultisigCodec(fields, ordered).ok(c)
    ensures HashMode(c) in (if ordered then {1, 3} else {5, 7})
    ensures |MultisigCodec(fields, ordered).put(c)| > 0 && MultisigCodec(fields, ordered).put(c)[0] == HashMode(c)
  {
    HeaderLeads(MultisigModes(ordered), Both(fields, U16()),
                (HashMode(c), (c.signer, (c.nonce, (c.fee, (c.fields, c.required))))));
  }

  lemma ConditionLawful(fields: Codec<seq<AuthField>>)
    requires Lawful(fields)
    ensures Lawful(ConditionCodec(fields))
    ensures forall c :: ConditionCodec(fields).ok(c) <==> ConditionOk(fields, c)
  {
    var bodies := ConditionBodies(fields);
    forall t: byte ensures Lawful(bodies(t)) {
      ConditionBodyLawful(fields, t);
    }
    forall t: byte, c | bodies(t).ok(c)
      ensures bodies(HashMode(c)) == bodies(t) && |bodies(t).put(c)| > 0 && bodies(t).put(c)[0] == HashMode(c)
    {
      ConditionLeads(fields, t, c);
    }
    PeekedLawful(HashMode, bodies);
    forall c ensures ConditionCodec(fields).ok(c) <==> ConditionOk(fields, c) {
      assert bodies(HashMode(c)) == ConditionBody(fields, HashMode(c));
    }
  }

  // ---------- Authorizations ----------

  function AuthTag(a: Auth): byte {
    if a.AuthStandard? then 4 else 5
  }

  predicate AuthOk(condition: Codec<SpendingCondition>, a: Auth) {
    condition.ok(a.origin) && (a.AuthSponsored? ==> condition.ok(a.sponsor))
  }

  function StandardAuthView(condition: Codec<SpendingCondition>): View<SpendingCondition, Auth> {
    View((c: SpendingCondition) => Some(AuthStandard(c)),
         (a: Auth) => if a.AuthStandard? then Some(a.origin) else None,
         (a: Auth) => a.AuthStandard? && AuthOk(condition, a))
  }

  function SponsoredAuthView(condition: Codec<SpendingCondition>): View<(SpendingCondition, SpendingCondition), Auth> {
    View((p: (SpendingCondition, SpendingCondition)) => Some(AuthSponsored(p.0, p.1)),
         (a: Auth) => if a.AuthSponsored? then Some((a.origin, a.sponsor)) else None,
         (a: Auth) => a.AuthSponsored? && AuthOk(condition, a))
  }

  function AuthBodies(condition: Codec<SpendingCondition>): byte -> Codec<Auth> {
    (t: byte) =>
      if t == 4 then Via(condition, StandardAuthView(condition))
      else if t == 5 then Via(Both(condition, condition), SponsoredAuthView(condition))
      else Nothing()
  }

  function AuthCodec(condition: Codec<SpendingCondition>): Codec<Auth> {
    Tagged(AuthTag, AuthBodies(condition))
  }

  lemma AuthLawful(condition: Codec<SpendingCondition>)
    requires Lawful(condition)
    ensures Lawful(AuthCodec(condition))
    ensures forall a :: AuthCodec(condition).ok(a) <==> AuthOk(condition, a)
  {
    var bodies := AuthBodies(condition);
    BothLawful(condition, condition);
    ViaLawful(condition, StandardAuthView(condition));
    ViaLawful(Both(condition, condition), SponsoredAuthView(condition));
    NothingLawful<Auth>();
    assert forall t: byte :: Lawful(bodies(t));
    TaggedLawful(AuthTag, bodies);
  }
}
