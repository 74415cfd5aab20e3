/**
  What the transaction format promises to its users, stated for whole
  transactions and whole byte strings.
 */
module TransactionLaws {
  import opened Wire
  import opened Codecs
  import opened Values
  import opened SpendingConditions
  import opened Transactions

  function Encode(env: Env, tx: Transaction): Bytes {
    TransactionCodec(env).put(tx)
  }

  function Decode(env: Env, b: Bytes): Parsed<Transaction> {
    TransactionCodec(env).get(b)
  }

  // ---------- Well-formed transactions ----------

  predicate ListFits(size: nat, n: nat) {
    n <= MAX_U32 && size * n <= MAX_MESSAGE_LEN
  }

  predicate FieldsOk(env: Env, fields: seq<AuthField>) {
    && ListFits(env.keys.fieldSize, |fields|)
    && (forall i | 0 <= i < |fields| ::
          if fields[i].KeyField? then |fields[i].point| == 33 && env.keys.validPoint(fields[i].point) else |fields[i].signature| == 65)
    && |FieldsCodec(env.keys).put(fields)| <= MAX_MESSAGE_LEN
  }

  predicate CompressedIf(segwit: bool, fields: seq<AuthField>) {
    segwit ==> forall i | 0 <= i < |fields| :: fields[i].compressed
  }

  predicate ConditionWellFormed(env: Env, c: SpendingCondition) {
    && |c.signer| == 20
    && match c
       case Singlesig(segwit, _, _, _, compressed, signature) => |signature| == 65 && (segwit ==> compressed)
       case Multisig(segwit, _, _, _, fields, required) =>
         FieldsOk(env, fields) && |Signatures(fields)| == required && CompressedIf(segwit, fields)
       case OrderIndependent(segwit, _, _, _, fields, required) =>
         FieldsOk(env, fields) && required <= |Signatures(fields)| <= 65535 && CompressedIf(segwit, fields)
  }

  predicate ArgsOk(env: Env, args: seq<Value>) {
    && ListFits(env.valueSize, |args|)
    && (forall i | 0 <= i < |args| :: WellFormedValue(env.values, args[i]))
    && |ArgsCodec(env).put(args)| <= MAX_TRANSACTION_LEN
  }

  predicate GoodAddress(a: Address) { a.version < 32 && |a.hash| == 20 }

  predicate GoodContractName(n: Bytes) { 1 <= |n| <= 40 && IsContractName(n) }

  predicate GoodAsset(a: AssetInfo) {
    GoodAddress(a.address) && GoodContractName(a.contractName) && IsClarityName(a.assetName)
  }

  predicate PostConditionWellFormed(env: Env, p: PostCondition) {
    && (match p.principal
        case Origin => true
        case StandardAt(a) => GoodAddress(a)
        case ContractAt(a, n) => GoodAddress(a) && GoodContractName(n))
    && match p
       case STX(_, code, _) => 1 <= code <= 5
       case Fungible(_, asset, code, _) => GoodAsset(asset) && 1 <= code <= 5
       case Nonfungible(_, asset, v, code) => GoodAsset(asset) && WellFormedValue(env.values, v) && 0x10 <= code <= 0x12
       case Staking(_, code, _) => 1 <= code <= 5
       case Pox(_, code) => 0x30 <= code <= 0x32
  }

  predicate GoodHeader(env: Env, h: MicroblockHeader) {
    |h.prevBlock| == 32 && |h.txMerkleRoot| == 32 && |h.signature| == 65 && env.recoverable(h.signature)
  }

  predicate PayloadWellFormed(env: Env, p: Payload) {
    match p
    case TokenTransfer(Standard(a), _, memo) => GoodAddress(a) && |memo| == 34
    case TokenTransfer(Contract(a, n), _, memo) => GoodAddress(a) && IsContractName(n) && |memo| == 34
    case ContractCall(a, c, f, xs) => GoodAddress(a) && GoodContractName(c) && IsClarityName(f) && ArgsOk(env, xs)
    case SmartContract(n, body, version) =>
      && GoodContractName(n) && (version.Some? ==> 1 <= version.value <= 7)
      && 4 + |body| <= 16778054 && forall i | 0 <= i < |body| :: 0x20 <= body[i] <= 0x7e || body[i] == 0x09 || body[i] == 0x0a
    case PoisonMicroblock(h1, h2) =>
      && GoodHeader(env, h1) && GoodHeader(env, h2)
      && h1 != h2 && (h1.sequence == h2.sequence || h1.prevBlock == h2.prevBlock)
    case Coinbase(buffer, recipient, vrf) =>
      && |buffer| == 32
      && (vrf.Some? ==> |vrf.value| == 80 && env.vrfNormal(vrf.value) == Some(vrf.value))
      && (vrf.None? && recipient.Some? ==> WellFormedValue(env.values, PrincipalValue(recipient.value)))
      && (vrf.Some? && recipient.Some? ==> WellFormedValue(env.values, OptionalSome(PrincipalValue(recipient.value))))
    case TenureChange(t) =>
      && |t.tenure| == 20 && |t.prevTenure| == 20 && |t.burnView| == 20 && |t.previousEnd| == 32
      && t.cause <= 6 && |t.pubkeyHash| == 20
  }

  predicate WellFormed(env: Env, tx: Transaction) {
    && (tx.version == 0x00 || tx.version == 0x80)
    && ConditionWellFormed(env, tx.auth.origin)
    && (tx.auth.AuthSponsored? ==> ConditionWellFormed(env, tx.auth.sponsor))
    && 1 <= tx.anchorMode <= 3 && (tx.payload.PoisonMicroblock? || tx.payload.Coinbase? ==> tx.anchorMode == 1)
    && 1 <= tx.postConditionMode <= 3
    && ListFits(env.postConditionSize, |tx.postConditions|)
    && (forall i | 0 <= i < |tx.postConditions| :: PostConditionWellFormed(env, tx.postConditions[i]))
    && PayloadWellFormed(env, tx.payload)
  }

  // ---------- The format carries exactly the well-formed transactions ----------

  lemma FieldsCarried(env: Env, fields: seq<AuthField>)
    ensures FieldsCodec(env.keys).ok(fields) <==> FieldsOk(env, fields)
  {
    FieldLawful(env.keys);
  }

  lemma ConditionCarried(env: Env, c: SpendingCondition)
    ensures ConditionCodec(FieldsCodec(env.keys)).ok(c) <==> ConditionWellFormed(env, c)
  {
    FieldsLawful(env.keys);
    ConditionLawful(FieldsCodec(env.keys));
    if !c.Singlesig? {
      FieldsCarried(env, c.fields);
      SignaturesCounted(c.fields);
    }
  }

  lemma ArgsCarried(env: Env, args: seq<Value>)
    ensures ArgsCodec(env).ok(args) <==> ArgsOk(env, args)
  {
    ValueLawful(env.values);
  }

  lemma PostConditionsCarried(env: Env, ps: seq<PostCondition>)
    ensures PostConditionsCodec(env).ok(ps) <==>
              ListFits(env.postConditionSize, |ps|) && forall i | 0 <= i < |ps| :: PostConditionWellFormed(env, ps[i])
  {
    var value := ValueCodec(env.values);
    ValueLawful(env.values);
    PostPrincipalLawful();
    AssetInfoLawful();
    PostConditionLawful(PostPrincipalCodec(), AssetInfoCodec(), value);
    assert forall p :: PostConditionOk(value, p) <==> PostConditionWellFormed(env, p);
  }

  lemma PayloadCarried(env: Env, p: Payload)
    requires EnvLaw(env)
    ensures PartsOf(env).payload.ok(p) <==> PayloadWellFormed(env, p)
  {
    var value, args := ValueCodec(env.values), ArgsCodec(env);
    ValuePartLawful(env);
    ValueLawful(env.values);
    StringLawful();
    PayloadLawful(env, StringCodec(), value, args);
    if p.ContractCall? {
      ArgsCarried(env, p.args);
    }
    PayloadMeans(env, value, args, p);
  }

  lemma TextMeans(body: Bytes)
    ensures StringOk(body) <==>
              4 + |body| <= 16778054 && forall i | 0 <= i < |body| :: 0x20 <= body[i] <= 0x7e || body[i] == 0x09 || body[i] == 0x0a
  {
  }

  lemma PayloadMeans(env: Env, value: Codec<Value>, args: Codec<seq<Value>>, p: Payload)
    requires forall v :: value.ok(v) <==> WellFormedValue(env.values, v)
    requires p.ContractCall? ==> (args.ok(p.args) <==> ArgsOk(env, p.args))
    ensures PayloadOk(env, value, args, p) <==> PayloadWellFormed(env, p)
  {
    match p
    case SmartContract(_, body, _) => TextMeans(body);
    case Coinbase(_, _, _) => CoinbaseMeans(env, value, p);
    case _ =>
  }

  lemma CoinbaseMeans(env: Env, value: Codec<Value>, p: Payload)
    requires p.Coinbase? && forall v :: value.ok(v) <==> WellFormedValue(env.values, v)
    ensures CoinbaseOk(env, value, p) <==> PayloadWellFormed(env, p)
  {
  }

  lemma AuthCarried(env: Env, auth: Auth)
    ensures PartsOf(env).auth.ok(auth) <==>
              ConditionWellFormed(env, auth.origin) && (auth.AuthSponsored? ==> ConditionWellFormed(env, auth.sponsor))
  {
    var condition := ConditionCodec(FieldsCodec(env.keys));
    FieldsLawful(env.keys);
    ConditionLawful(FieldsCodec(env.keys));
    AuthLawful(condition);
    ConditionCarried(env, auth.origin);
    if auth.AuthSponsored? {
      ConditionCarried(env, auth.sponsor);
    }
  }

  lemma EnvelopeCarried(parts: Parts, tx: Transaction)
    ensures EnvelopeCodec(parts).ok(tx) <==> EnvelopeOk(parts, tx) && |EnvelopeCodec(parts).put(tx)| <= 2097152
  {
  }

  lemma TransactionCarried(env: Env, tx: Transaction)
    requires EnvLaw(env)
    ensures TransactionCodec(env).ok(tx) <==> WellFormed(env, tx) && |Encode(env, tx)| <= MAX_TRANSACTION_LEN
  {
    EnvelopeCarried(PartsOf(env), tx);
    AuthCarried(env, tx.auth);
    PostConditionsCarried(env, tx.postConditions);
    PayloadCarried(env, tx.payload);
    EnvelopeMeans(env, PartsOf(env), tx);
  }

  lemma EnvelopeMeans(env: Env, parts: Parts, tx: Transaction)
    requires parts.auth.ok(tx.auth) <==>
               ConditionWellFormed(env, tx.auth.origin) && (tx.auth.AuthSponsored? ==> ConditionWellFormed(env, tx.auth.sponsor))
    requires parts.postConditions.ok(tx.postConditions) <==>
               && ListFits(env.postConditionSize, |tx.postConditions|)
               && forall i | 0 <= i < |tx.postConditions| :: PostConditionWellFormed(env, tx.postConditions[i])
    requires parts.payload.ok(tx.payload) <==> PayloadWellFormed(env, tx.payload)
    ensures EnvelopeOk(parts, tx) <==> WellFormed(env, tx)
  {
  }

  // ---------- Main results ----------

  /**
    A transaction comes back from its encoding, whatever bytes follow, exactly when it is
    well formed and within the length bound.
   */
  lemma RoundTrip(env: Env, tx: Transaction, s: Bytes)
    requires EnvLaw(env)
    ensures Decode(env, Encode(env, tx) + s) == Ok(tx, s) <==>
              WellFormed(env, tx) && |Encode(env, tx)| <= 2097152
  {
    TransactionLawful(env);
    TransactionCarried(env, tx);
    RoundTripIff(TransactionCodec(env), tx, s);
  }

  /** Encodings of well-formed transactions are prefix-free, hence different transactions have different encodings. */
  lemma EncodingPrefixFree(env: Env, x: Transaction, y: Transaction, s: Bytes, t: Bytes)
    requires EnvLaw(env)
    requires WellFormed(env, x) && |Encode(env, x)| <= MAX_TRANSACTION_LEN
    requires WellFormed(env, y) && |Encode(env, y)| <= MAX_TRANSACTION_LEN
    requires Encode(env, x) + s == Encode(env, y) + t
    ensures x == y && s == t
  {
    TransactionLawful(env);
    TransactionCarried(env, x);
    TransactionCarried(env, y);
    PrefixFree(TransactionCodec(env), x, y, s, t);
  }

  /**
    Every accepted byte string yields a well-formed transaction.  What is left is the end of the
    input, and the re-encoding is no longer than the bytes consumed and decodes to the same transaction.
   */
  lemma DecodingNormalises(env: Env, b: Bytes, s: Bytes)
    requires EnvLaw(env) && Decode(env, b).Ok?
    ensures var tx, rest := Decode(env, b).value, Decode(env, b).rest;
            && WellFormed(env, tx)
            && IsSuffix(rest, b)
            && |Encode(env, tx)| <= |b| - |rest| <= MAX_TRANSACTION_LEN
            && Decode(env, Encode(env, tx) + s) == Ok(tx, s)
  {
    var tx := Decode(env, b).value;
    DecodedSettles(env, b, s);
    TransactionCarried(env, tx);
  }

  lemma DecodedSettles(env: Env, b: Bytes, s: Bytes)
    requires EnvLaw(env) && Decode(env, b).Ok?
    ensures var tx, rest := Decode(env, b).value, Decode(env, b).rest;
            && TransactionCodec(env).ok(tx)
            && IsSuffix(rest, b)
            && |Encode(env, tx)| <= |b| - |rest| <= MAX_TRANSACTION_LEN
            && Decode(env, Encode(env, tx) + s) == Ok(tx, s)
  {
    TransactionLawful(env);
    NormalEnvelope(TransactionCodec(env), b, s);
    BoundedReads(Via(EnvelopeFormat(PartsOf(env)), EnvelopeView(PartsOf(env))), MAX_TRANSACTION_LEN, b);
  }

  lemma NormalEnvelope(c: Codec<Transaction>, b: Bytes, s: Bytes)
    requires Lawful(c) && c.get(b).Ok?
    ensures var tx, rest := c.get(b).value, c.get(b).rest;
            c.ok(tx) && IsSuffix(rest, b) && |c.put(tx)| <= |b| - |rest| && c.get(c.put(tx) + s) == Ok(tx, s)
  {
    Normal(c, b, s);
    assert GoodResult(c, b);
  }

  /** Seven of the eight version bits never matter, so decoding is not injective. */
  lemma VersionBitsIgnored(env: Env, v: byte, w: byte, t: Bytes)
    requires v < 0x80 <==> w < 0x80
    ensures Decode(env, [v] + t) == Decode(env, [w] + t)
  {
    EnvelopeVersionBits(PartsOf(env), v, w, t);
  }

  lemma EnvelopeVersionBits(parts: Parts, v: byte, w: byte, t: Bytes)
    requires v < 0x80 <==> w < 0x80
    ensures EnvelopeCodec(parts).get([v] + t) == EnvelopeCodec(parts).get([w] + t)
  {
    var u := Window(t, MAX_TRANSACTION_LEN - 1);
    var tail := Both(U32(), Both(parts.auth, Both(Byte(), Both(Byte(), Both(parts.postConditions, parts.payload)))));
    WindowAppend([v], t, MAX_TRANSACTION_LEN);
    WindowAppend([w], t, MAX_TRANSACTION_LEN);
    assert ([v] + t)[|Window([v] + t, MAX_TRANSACTION_LEN)|..] == ([w] + t)[|Window([w] + t, MAX_TRANSACTION_LEN)|..];
    FirstByteIgnored(tail, EnvelopeView(parts), v, w, u);
  }

  /** A view that does not tell two leading bytes apart gives the same result for both. */
  lemma FirstByteIgnored<A(!new)>(tail: Codec<A>, view: View<(byte, A), Transaction>, v: byte, w: byte, u: Bytes)
    requires forall y :: view.to((v, y)) == view.to((w, y))
    ensures Via(Both(Byte(), tail), view).get([v] + u) == Via(Both(Byte(), tail), view).get([w] + u)
  {
    ReadU8Append(v, u);
    ReadU8Append(w, u);
  }

  // ---------- Lengths ----------

  /** The number of bytes the decoder reports having read. */
  function DecodeWithLen(env: Env, b: Bytes): Option<(Transaction, int)> {
    match Decode(env, b)
    case Err(_) => None
    case Ok(tx, rest) => Some((tx, |b| - |rest|))
  }

  /** On an encoding the reported length is the transaction's own. */
  lemma ReportedLength(env: Env, tx: Transaction, s: Bytes)
    requires EnvLaw(env) && WellFormed(env, tx) && |Encode(env, tx)| <= MAX_TRANSACTION_LEN
    ensures DecodeWithLen(env, Encode(env, tx) + s) == Some((tx, |Encode(env, tx)|))
  {
    RoundTrip(env, tx, s);
  }

  /** On any accepted input it is at least that. */
  lemma ReportedAtLeast(env: Env, b: Bytes)
    requires EnvLaw(env) && DecodeWithLen(env, b).Some?
    ensures DecodeWithLen(env, b).value.1 >= |Encode(env, DecodeWithLen(env, b).value.0)|
  {
    DecodedSettles(env, b, []);
  }

  // ---------- What can be written but not read ----------

  predicate ShortName(n: Bytes) {
    1 <= |n| <= CONTRACT_MAX_NAME_LENGTH
  }

  predicate ConditionNamesFit(p: PostCondition) {
    && (p.principal.ContractAt? ==> ShortName(p.principal.name))
    && (p.Fungible? || p.Nonfungible? ==> ShortName(p.asset.contractName))
  }

  /** Outside principals the serializer refuses contract names of more than 40 bytes. */
  predicate NamesFit(tx: Transaction) {
    && (tx.payload.ContractCall? ==> ShortName(tx.payload.contractName))
    && (tx.payload.SmartContract? ==> ShortName(tx.payload.name))
    && forall i | 0 <= i < |tx.postConditions| :: ConditionNamesFit(tx.postConditions[i])
  }

  function Serialize(env: Env, tx: Transaction): Option<Bytes> {
    if NamesFit(tx) then Some(Encode(env, tx)) else None
  }

  lemma WellFormedNamesFit(env: Env, p: PostCondition)
    requires PostConditionWellFormed(env, p)
    ensures ConditionNamesFit(p)
  {
  }

  lemma PayloadNamesFit(env: Env, p: Payload)
    requires PayloadWellFormed(env, p)
    ensures (p.ContractCall? ==> ShortName(p.contractName)) && (p.SmartContract? ==> ShortName(p.name))
  {
  }

  lemma AllNamesFit(env: Env, tx: Transaction)
    requires WellFormed(env, tx)
    ensures NamesFit(tx)
  {
    PayloadNamesFit(env, tx.payload);
    forall i | 0 <= i < |tx.postConditions| ensures ConditionNamesFit(tx.postConditions[i]) {
      WellFormedNamesFit(env, tx.postConditions[i]);
    }
  }

  /** A well-formed transaction can always be serialized. */
  lemma SerializeSucceeds(env: Env, tx: Transaction)
    requires WellFormed(env, tx)
    ensures Serialize(env, tx) == Some(Encode(env, tx))
  {
    AllNamesFit(env, tx);
  }

  const ZERO20: Bytes := seq(20, _ => 0)
  const ZERO34: Bytes := seq(34, _ => 0)
  const ZERO65: Bytes := seq(65, _ => 0)

  /** A transfer with `n` post-conditions of three bytes each. */
  function ManyConditions(n: nat): Transaction {
    Transaction(MAINNET, 1, AuthStandard(Singlesig(false, ZERO20, 0, 0, true, ZERO65)), ANY_CHAIN, 2,
                seq(n, _ => Pox(Origin, 0x30)), TokenTransfer(Standard(Address(22, ZERO20)), 1, ZERO34))
  }

  lemma EnvelopeLength(parts: Parts, tx: Transaction)
    ensures |EnvelopeCodec(parts).put(tx)| ==
              7 + |parts.auth.put(tx.auth)| + |parts.postConditions.put(tx.postConditions)| + |parts.payload.put(tx.payload)|
  {
  }

  lemma HeaderLength<T>(mode: Codec<byte>, tail: Codec<T>, h: Header<T>)
    requires |mode.put(h.0)| == 1 && |h.1.0| == 20
    ensures |HeaderCodec(mode, tail).put(h)| == 37 + |tail.put(h.1.1.1.1)|
  {
  }

  lemma SinglesigLength(c: SpendingCondition)
    requires SinglesigOk(c)
    ensures |SinglesigCodec().put(c)| == 103
  {
    var tail := Both(KeyEncoding(), Exact(65));
    var h := (HashMode(c), (c.signer, (c.nonce, (c.fee, (c.compressed, c.signature)))));
    HeaderLength(ModeCodec(0, 2), tail, h);
    assert |tail.put((c.compressed, c.signature))| == 66;
    assert SinglesigCodec().put(c) == HeaderCodec(ModeCodec(0, 2), tail).put(h);
  }

  lemma StandardLength(condition: Codec<SpendingCondition>, c: SpendingCondition)
    ensures |AuthCodec(condition).put(AuthStandard(c))| == 1 + |condition.put(c)|
  {
    var a := AuthStandard(c);
    assert AuthBodies(condition)(AuthTag(a)) == Via(condition, StandardAuthView(condition));
  }

  lemma SinglesigAuthLength(env: Env, c: SpendingCondition)
    requires SinglesigOk(c)
    ensures |PartsOf(env).auth.put(AuthStandard(c))| == 104
  {
    var fields := FieldsCodec(env.keys);
    StandardLength(ConditionCodec(fields), c);
    SinglesigLength(c);
    assert ConditionBodies(fields)(HashMode(c)) == SinglesigCodec();
  }

  lemma {:induction false} ConstantLength(c: Codec<PostCondition>, n: nat, p: PostCondition)
    ensures |PutMany(c.put, seq(n, _ => p))| == n * |c.put(p)|
  {
    if n > 0 {
      ConstantLength(c, n - 1, p);
      assert seq(n, _ => p)[1..] == seq(n - 1, _ => p);
    }
  }

  lemma OriginLength()
    ensures |PostPrincipalCodec().put(Origin)| == 1
  {
    var t := PostPrincipalTag(Origin);
    assert PostPrincipalCodec().put(Origin) == [t] + PostPrincipalBody(t).put(Origin);
    assert PostPrincipalBody(t) == Via(Exact(0), OriginView());
  }

  lemma PoxConditionLength(who: Codec<PostPrincipal>, asset: Codec<AssetInfo>, value: Codec<Value>, p: PostCondition)
    requires p.Pox?
    ensures |PostConditionCodec(who, asset, value).put(p)| == 2 + |who.put(p.principal)|
  {
    assert PostConditionBodies(who, asset, value)(PostConditionTag(p)) == Via(Both(who, Byte()), PoxView(value));
  }

  lemma PoxListLength(c: Codec<PostCondition>, fits: nat -> bool, n: nat)
    requires |c.put(Pox(Origin, 0x30))| == 3
    ensures |Vec(c, fits).put(seq(n, _ => Pox(Origin, 0x30)))| == 4 + 3 * n
  {
    ConstantLength(c, n, Pox(Origin, 0x30));
  }

  lemma PoxConditionsLength(env: Env, n: nat)
    ensures |PartsOf(env).postConditions.put(seq(n, _ => Pox(Origin, 0x30)))| == 4 + 3 * n
  {
    var who, asset, value := PostPrincipalCodec(), AssetInfoCodec(), ValueCodec(env.values);
    OriginLength();
    PoxConditionLength(who, asset, value, Pox(Origin, 0x30));
    PoxListLength(PostConditionCodec(who, asset, value), Fits(env.postConditionSize), n);
  }

  lemma TransferLength(env: Env, p: Payload)
    requires p.TokenTransfer? && p.recipient.Standard? && PrincipalOk(p.recipient) && |p.memo| == 34
    ensures |PartsOf(env).payload.put(p)| == 65
  {
    StandardPrincipalLength(p.recipient);
    TransferBodyLength(PrincipalCodec(), p);
    TaggedTransferLength(env, StringCodec(), ValueCodec(env.values), ArgsCodec(env), p);
  }

  lemma StandardPrincipalLength(p: Principal)
    requires p.Standard? && PrincipalOk(p)
    ensures |PrincipalCodec().put(p)| == 22
  {
    assert PrincipalBody(PrincipalTag(p)) == Via(StandardPrincipal(), StandardView());
    assert |StandardPrincipal().put(p.address)| == 21;
  }

  lemma TransferBodyLength(recipient: Codec<Principal>, p: Payload)
    requires p.TokenTransfer? && |p.memo| == 34
    ensures |TransferCodec(recipient).put(p)| == |recipient.put(p.recipient)| + 42
  {
  }

  lemma TaggedTransferLength(env: Env, text: Codec<Bytes>, value: Codec<Value>, args: Codec<seq<Value>>, p: Payload)
    requires p.TokenTransfer?
    ensures |PayloadCodec(env, text, value, args).put(p)| == 1 + |TransferCodec(PrincipalCodec()).put(p)|
  {
    assert PayloadBodies(env, text, value, args)(PayloadTag(p)) == TransferCodec(PrincipalCodec());
  }

  lemma ManyConditionsLength(env: Env, n: nat)
    ensures |Encode(env, ManyConditions(n))| == 3 * n + 180
  {
    var tx := ManyConditions(n);
    EnvelopeLength(PartsOf(env), tx);
    SinglesigAuthLength(env, tx.auth.origin);
    PoxConditionsLength(env, n);
    TransferLength(env, tx.payload);
  }

  lemma ManyConditionsWellFormed(env: Env, n: nat)
    requires n <= MAX_U32
    ensures WellFormed(env, ManyConditions(n)) <==> env.postConditionSize * n <= MAX_MESSAGE_LEN
    ensures NamesFit(ManyConditions(n))
  {
    var tx := ManyConditions(n);
    assert PostConditionWellFormed(env, Pox(Origin, 0x30));
    assert forall i | 0 <= i < n :: tx.postConditions[i] == Pox(Origin, 0x30);
  }

  /**
    Staying within the length bound is not enough.  The decoder refuses lists that would take too
    much memory, however short their items are on the wire: a transaction all of whose parts are
    fine, and which is serialized without complaint, is rejected when it is read back.
   */
  lemma LongListsAreRefused(env: Env, n: nat, s: Bytes)
    requires EnvLaw(env)
    requires 3 * n + 180 <= MAX_TRANSACTION_LEN && env.postConditionSize * n > MAX_MESSAGE_LEN
    ensures var tx := ManyConditions(n);
            && Serialize(env, tx) == Some(Encode(env, tx))
            && |Encode(env, tx)| <= MAX_TRANSACTION_LEN
            && WellFormed(env.(postConditionSize := 0), tx)
            && Decode(env, Encode(env, tx) + s) != Ok(tx, s)
  {
    ManyConditionsLength(env, n);
    ManyConditionsWellFormed(env, n);
    ManyConditionsWellFormed(env.(postConditionSize := 0), n);
    RoundTrip(env, ManyConditions(n), s);
  }
}
