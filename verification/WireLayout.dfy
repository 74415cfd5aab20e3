/**
  The bytes of a transaction written out field by field, as the serializers
  write them, and the proof that the composed format produces exactly these
  bytes.  This pins down the order and the width of every field; that decoding
  undoes encoding would also hold of a format with its fields in another order.
 */
module WireLayout {
  import opened Wire
  import opened Codecs
  import opened Values
  import opened SpendingConditions
  import opened Transactions
  import opened TransactionLaws

  function BytesOfMany<T>(put: T -> Bytes, xs: seq<T>): Bytes {
    PutU32(|xs| % 0x1_0000_0000) + PutMany(put, xs)
  }

  // ---------- Authorization ----------

  function BytesOfField(f: AuthField): Bytes {
    match f
    case KeyField(point, compressed) => [if compressed then 0 else 1] + point
    case SignatureField(compressed, signature) => [if compressed then 2 else 3] + signature
  }

  function BytesOfCondition(c: SpendingCondition): Bytes {
    match c
    case Singlesig(segwit, signer, nonce, fee, compressed, signature) =>
      [if segwit then 2 else 0] + signer + PutU64(nonce) + PutU64(fee) + [if compressed then 0 else 1] + signature
    case Multisig(segwit, signer, nonce, fee, fields, required) =>
      [if segwit then 3 else 1] + signer + PutU64(nonce) + PutU64(fee) + BytesOfMany(BytesOfField, fields) + PutU16(required)
    case OrderIndependent(segwit, signer, nonce, fee, fields, required) =>
      [if segwit then 7 else 5] + signer + PutU64(nonce) + PutU64(fee) + BytesOfMany(BytesOfField, fields) + PutU16(required)
  }

  function BytesOfAuth(a: Auth): Bytes {
    match a
    case AuthStandard(origin) => [4] + BytesOfCondition(origin)
    case AuthSponsored(origin, sponsor) => [5] + BytesOfCondition(origin) + BytesOfCondition(sponsor)
  }

  // ---------- Post-conditions ----------

  function BytesOfAddress(a: Address): Bytes {
    [a.version] + a.hash
  }

  function BytesOfPostPrincipal(p: PostPrincipal): Bytes {
    match p
    case Origin => [1]
    case StandardAt(a) => [2] + BytesOfAddress(a)
    case ContractAt(a, n) => [3] + BytesOfAddress(a) + PutShortString(n)
  }

  function BytesOfAsset(a: AssetInfo): Bytes {
    BytesOfAddress(a.address) + PutShortString(a.contractName) + PutShortString(a.assetName)
  }

  function BytesOfPostCondition(p: PostCondition): Bytes {
    match p
    case STX(who, code, amount) => [0] + BytesOfPostPrincipal(who) + [code] + PutU64(amount)
    case Fungible(who, asset, code, amount) =>
      [1] + BytesOfPostPrincipal(who) + BytesOfAsset(asset) + [code] + PutU64(amount)
    case Nonfungible(who, asset, value, code) =>
      [2] + BytesOfPostPrincipal(who) + BytesOfAsset(asset) + PutValue(value) + [code]
    case Staking(who, code, amount) => [3] + BytesOfPostPrincipal(who) + [code] + PutU64(amount)
    case Pox(who, code) => [4] + BytesOfPostPrincipal(who) + [code]
  }

  // ---------- Payloads ----------

  function BytesOfPrincipal(p: Principal): Bytes {
    match p
    case Standard(a) => [5] + BytesOfAddress(a)
    case Contract(a, n) => [6] + BytesOfAddress(a) + PutShortString(n)
  }

  function BytesOfHeader(h: MicroblockHeader): Bytes {
    [h.version] + PutU16(h.sequence) + h.prevBlock + h.txMerkleRoot + h.signature
  }

  function BytesOfTenureChange(t: TenureChange): Bytes {
    t.tenure + t.prevTenure + t.burnView + t.previousEnd + PutU32(t.previousBlocks) + [t.cause] + t.pubkeyHash
  }

  function BytesOfPayload(p: Payload): Bytes {
    match p
    case TokenTransfer(recipient, amount, memo) => [0] + BytesOfPrincipal(recipient) + PutU64(amount) + memo
    case SmartContract(name, body, None) => [1] + PutShortString(name) + PutByteString(body)
    case SmartContract(name, body, Some(version)) => [6] + [version] + PutShortString(name) + PutByteString(body)
    case ContractCall(address, contract, func, args) =>
      [2] + BytesOfAddress(address) + PutShortString(contract) + PutShortString(func) + BytesOfMany(PutValue, args)
    case PoisonMicroblock(h1, h2) => [3] + BytesOfHeader(h1) + BytesOfHeader(h2)
    case Coinbase(buffer, None, None) => [4] + buffer
    case Coinbase(buffer, Some(r), None) => [5] + buffer + PutValue(PrincipalValue(r))
    case Coinbase(buffer, None, Some(proof)) => [8] + buffer + PutValue(OptionalNone) + proof
    case Coinbase(buffer, Some(r), Some(proof)) => [8] + buffer + PutValue(OptionalSome(PrincipalValue(r))) + proof
    case TenureChange(change) => [7] + BytesOfTenureChange(change)
  }

  function BytesOf(tx: Transaction): Bytes {
    [tx.version] + PutU32(tx.chainId) + BytesOfAuth(tx.auth) + [tx.anchorMode] + [tx.postConditionMode]
    + BytesOfMany(BytesOfPostCondition, tx.postConditions) + BytesOfPayload(tx.payload)
  }

  // ---------- The composed format writes these bytes ----------

  lemma Flat3(a: Bytes, b: Bytes, c: Bytes, d: Bytes)
    ensures a + (b + (c + d)) == a + b + c + d
  {
    Assoc(a, b, c + d);
    Assoc(a + b, c, d);
  }

  lemma Flat4(a: Bytes, b: Bytes, c: Bytes, d: Bytes, e: Bytes)
    ensures a + (b + (c + (d + e))) == a + b + c + d + e
  {
    Assoc(a, b, c + (d + e));
    Flat3(a + b, c, d, e);
  }

  lemma Flat6(a: Bytes, b: Bytes, c: Bytes, d: Bytes, e: Bytes, f: Bytes, g: Bytes)
    ensures a + (b + (c + (d + (e + (f + g))))) == a + b + c + d + e + f + g
  {
    Assoc(a, b, c + (d + (e + (f + g))));
    Assoc(a + b, c, d + (e + (f + g)));
    Flat4(a + b + c, d, e, f, g);
  }

  lemma {:induction false} SameMany<T>(f: T -> Bytes, g: T -> Bytes, xs: seq<T>)
    requires forall i | 0 <= i < |xs| :: f(xs[i]) == g(xs[i])
    ensures PutMany(f, xs) == PutMany(g, xs)
  {
    if xs != [] {
      SameMany(f, g, xs[1..]);
    }
  }

  lemma FieldLayout(rules: KeyRules, f: AuthField)
    ensures FieldCodec(rules).put(f) == BytesOfField(f)
  {
    assert FieldBodies(rules)(FieldTag(f)) == FieldBody(rules, FieldTag(f));
  }

  lemma FieldsLayout(rules: KeyRules, fields: seq<AuthField>)
    ensures FieldsCodec(rules).put(fields) == BytesOfMany(BytesOfField, fields)
  {
    forall i | 0 <= i < |fields| ensures FieldCodec(rules).put(fields[i]) == BytesOfField(fields[i]) {
      FieldLayout(rules, fields[i]);
    }
    SameMany(FieldCodec(rules).put, BytesOfField, fields);
  }

  lemma HeaderLayout<T>(mode: Codec<byte>, tail: Codec<T>, h: Header<T>)
    requires mode.put(h.0) == [h.0]
    ensures HeaderCodec(mode, tail).put(h) ==
              [h.0] + h.1.0 + PutU64(h.1.1.0) + PutU64(h.1.1.1.0) + tail.put(h.1.1.1.1)
  {
    var (m, (signer, (nonce, (fee, t)))) := h;
    Flat4([m], signer, PutU64(nonce), PutU64(fee), tail.put(t));
  }

  lemma SinglesigLayout(c: SpendingCondition)
    requires c.Singlesig?
    ensures SinglesigCodec().put(c) == BytesOfCondition(c)
  {
    var tail := Both(KeyEncoding(), Exact(65));
    HeaderLayout(ModeCodec(0, 2), tail, (HashMode(c), (c.signer, (c.nonce, (c.fee, (c.compressed, c.signature))))));
    var encoding: Bytes := [if c.compressed then 0 else 1];
    assert tail.put((c.compressed, c.signature)) == encoding + c.signature;
    Assoc([HashMode(c)] + c.signer + PutU64(c.nonce) + PutU64(c.fee), encoding, c.signature);
  }

  lemma MultisigLayout(fields: Codec<seq<AuthField>>, ordered: bool, c: SpendingCondition)
    requires if ordered then c.Multisig? else c.OrderIndependent?
    requires fields.put(c.fields) == BytesOfMany(BytesOfField, c.fields)
    ensures MultisigCodec(fields, ordered).put(c) == BytesOfCondition(c)
  {
    var tail := Both(fields, U16());
    HeaderLayout(MultisigModes(ordered), tail, (HashMode(c), (c.signer, (c.nonce, (c.fee, (c.fields, c.required))))));
    assert tail.put((c.fields, c.required)) == fields.put(c.fields) + PutU16(c.required);
    Assoc([HashMode(c)] + c.signer + PutU64(c.nonce) + PutU64(c.fee), fields.put(c.fields), PutU16(c.required));
  }

  lemma ConditionLayout(env: Env, c: SpendingCondition)
    ensures ConditionCodec(FieldsCodec(env.keys)).put(c) == BytesOfCondition(c)
  {
    var fields := FieldsCodec(env.keys);
    assert ConditionBodies(fields)(HashMode(c)) == ConditionBody(fields, HashMode(c));
    if c.Singlesig? {
      SinglesigLayout(c);
    } else {
      FieldsLayout(env.keys, c.fields);
      MultisigLayout(fields, c.Multisig?, c);
    }
  }

  lemma AuthLayout(condition: Codec<SpendingCondition>, a: Auth)
    requires condition.put(a.origin) == BytesOfCondition(a.origin)
    requires a.AuthSponsored? ==> condition.put(a.sponsor) == BytesOfCondition(a.sponsor)
    ensures AuthCodec(condition).put(a) == BytesOfAuth(a)
  {
    if a.AuthStandard? {
      assert AuthBodies(condition)(AuthTag(a)) == Via(condition, StandardAuthView(condition));
    } else {
      assert AuthBodies(condition)(AuthTag(a)) == Via(Both(condition, condition), SponsoredAuthView(condition));
    }
  }

  lemma AddressLayout(a: Address)
    ensures AddressCodec().put(a) == BytesOfAddress(a) && StandardPrincipal().put(a) == BytesOfAddress(a)
  {
  }

  lemma ContractAtLayout(address: Codec<Address>, p: PostPrincipal)
    requires p.ContractAt?
    ensures Via(Both(address, ContractName()), ContractAtView()).put(p) == address.put(p.address) + PutShortString(p.name)
  {
  }

  lemma PostPrincipalLayout(p: PostPrincipal)
    ensures PostPrincipalCodec().put(p) == BytesOfPostPrincipal(p)
  {
    var t := PostPrincipalTag(p);
    assert PostPrincipalCodec().put(p) == [t] + PostPrincipalBody(t).put(p);
    match p
    case Origin =>
      assert PostPrincipalBody(t) == Via(Exact(0), OriginView());
    case StandardAt(a) =>
      AddressLayout(a);
    case ContractAt(a, n) =>
      AddressLayout(a);
      ContractAtLayout(AddressCodec(), p);
      Assoc([3], BytesOfAddress(a), PutShortString(n));
  }

  lemma AssetLayout(a: AssetInfo)
    ensures AssetInfoCodec().put(a) == BytesOfAsset(a)
  {
  }

  lemma AmountLayout(who: Codec<PostPrincipal>, value: Codec<Value>, p: PostCondition)
    requires p.STX? || p.Staking?
    ensures var view := if p.STX? then STXView(value) else StakingView(value);
            Via(Both(who, Both(Byte(), U64())), view).put(p) == who.put(p.principal) + ([p.code] + PutU64(p.amount))
  {
  }

  lemma FungibleLayout(who: Codec<PostPrincipal>, asset: Codec<AssetInfo>, value: Codec<Value>, p: PostCondition)
    requires p.Fungible?
    ensures Via(Both(who, Both(asset, Both(Byte(), U64()))), FungibleView(value)).put(p) ==
              who.put(p.principal) + (asset.put(p.asset) + ([p.code] + PutU64(p.amount)))
  {
  }

  lemma NonfungibleLayout(who: Codec<PostPrincipal>, asset: Codec<AssetInfo>, value: Codec<Value>, p: PostCondition)
    requires p.Nonfungible?
    ensures Via(Both(who, Both(asset, Both(value, Byte()))), NonfungibleView(value)).put(p) ==
              who.put(p.principal) + (asset.put(p.asset) + (value.put(p.value) + [p.code]))
  {
  }

  lemma PostConditionBodyPut(who: Codec<PostPrincipal>, asset: Codec<AssetInfo>, value: Codec<Value>, p: PostCondition)
    ensures PostConditionCodec(who, asset, value).put(p) ==
              [PostConditionTag(p)] + PostConditionBody(who, asset, value, PostConditionTag(p)).put(p)
  {
  }

  lemma PostConditionLayout(who: Codec<PostPrincipal>, asset: Codec<AssetInfo>, value: Codec<Value>, p: PostCondition)
    requires who.put(p.principal) == BytesOfPostPrincipal(p.principal)
    requires (p.Fungible? || p.Nonfungible?) ==> asset.put(p.asset) == BytesOfAsset(p.asset)
    requires p.Nonfungible? ==> value.put(p.value) == PutValue(p.value)
    ensures PostConditionCodec(who, asset, value).put(p) == BytesOfPostCondition(p)
  {
    PostConditionBodyPut(who, asset, value, p);
    var w := who.put(p.principal);
    match p
    case STX(_, code, amount) =>
      AmountLayout(who, value, p);
      Flat3([0], w, [code], PutU64(amount));
    case Staking(_, code, amount) =>
      AmountLayout(who, value, p);
      Flat3([3], w, [code], PutU64(amount));
    case Fungible(_, a, code, amount) =>
      FungibleLayout(who, asset, value, p);
      Flat4([1], w, asset.put(a), [code], PutU64(amount));
    case Nonfungible(_, a, v, code) =>
      NonfungibleLayout(who, asset, value, p);
      Flat4([2], w, asset.put(a), value.put(v), [code]);
    case Pox(_, code) =>
      Assoc([4], w, [code]);
  }

  lemma PostConditionsLayout(env: Env, ps: seq<PostCondition>)
    ensures PostConditionsCodec(env).put(ps) == BytesOfMany(BytesOfPostCondition, ps)
  {
    var who, asset, value := PostPrincipalCodec(), AssetInfoCodec(), ValueCodec(env.values);
    var c := PostConditionCodec(who, asset, value);
    forall i | 0 <= i < |ps| ensures c.put(ps[i]) == BytesOfPostCondition(ps[i]) {
      PostPrincipalLayout(ps[i].principal);
      if ps[i].Fungible? || ps[i].Nonfungible? {
        AssetLayout(ps[i].asset);
      }
      PostConditionLayout(who, asset, value, ps[i]);
    }
    SameMany(c.put, BytesOfPostCondition, ps);
  }

  lemma PrincipalLayout(p: Principal)
    ensures PrincipalCodec().put(p) == BytesOfPrincipal(p)
  {
    var t := PrincipalTag(p);
    assert PrincipalCodec().put(p) == [t] + PrincipalBody(t).put(p);
    match p
    case Standard(a) =>
      AddressLayout(a);
    case Contract(a, n) =>
      AddressLayout(a);
      ContractPrincipalLayout(StandardPrincipal(), p);
      Assoc([6], BytesOfAddress(a), PutShortString(n));
  }

  lemma ContractPrincipalLayout(address: Codec<Address>, p: Principal)
    requires p.Contract?
    ensures Via(Both(address, LongContractName()), Values.ContractView()).put(p) == address.put(p.issuer) + PutShortString(p.name)
  {
  }

  lemma MicroblockHeaderLayout(env: Env, h: MicroblockHeader)
    ensures MicroblockHeaderCodec(env).put(h) == BytesOfHeader(h)
  {
    Flat4([h.version], PutU16(h.sequence), h.prevBlock, h.txMerkleRoot, h.signature);
  }

  lemma TenureLayout(p: Payload)
    requires p.TenureChange?
    ensures Via(TenureFormat(), TenureView()).put(p) == BytesOfTenureChange(p.change)
  {
    var t := p.change;
    Flat6(t.tenure, t.prevTenure, t.burnView, t.previousEnd, PutU32(t.previousBlocks), [t.cause], t.pubkeyHash);
  }

  lemma TransferLayout(recipient: Codec<Principal>, p: Payload)
    requires p.TokenTransfer? && recipient.put(p.recipient) == BytesOfPrincipal(p.recipient)
    ensures [0] + TransferCodec(recipient).put(p) == BytesOfPayload(p)
  {
    Flat3([0], recipient.put(p.recipient), PutU64(p.amount), p.memo);
  }

  lemma CallLayout(args: Codec<seq<Value>>, p: Payload)
    requires p.ContractCall? && args.put(p.args) == BytesOfMany(PutValue, p.args)
    ensures [2] + CallCodec(args).put(p) == BytesOfPayload(p)
  {
    AddressLayout(p.address);
    Flat4([2], BytesOfAddress(p.address), PutShortString(p.contractName), PutShortString(p.functionName), args.put(p.args));
  }

  lemma ContractLayout(text: Codec<Bytes>, p: Payload)
    requires p.SmartContract? && text.put(p.codeBody) == PutByteString(p.codeBody)
    ensures p.version.None? ==> [1] + ContractCodec(text).put(p) == BytesOfPayload(p)
    ensures p.version.Some? ==> [6] + VersionedCodec(text).put(p) == BytesOfPayload(p)
  {
    if p.version.Some? {
      Flat3([6], [p.version.value], PutShortString(p.name), text.put(p.codeBody));
    } else {
      Assoc([1], PutShortString(p.name), text.put(p.codeBody));
    }
  }

  lemma PoisonBodyLayout(header: Codec<MicroblockHeader>, view: View<(MicroblockHeader, MicroblockHeader), Payload>, p: Payload)
    requires p.PoisonMicroblock? && view.from(p) == Some((p.h1, p.h2))
    ensures Via(Both(header, header), view).put(p) == header.put(p.h1) + header.put(p.h2)
  {
  }

  lemma PoisonLayout(env: Env, p: Payload)
    requires p.PoisonMicroblock?
    ensures [3] + PoisonCodec(env).put(p) == BytesOfPayload(p)
  {
    MicroblockHeaderLayout(env, p.h1);
    MicroblockHeaderLayout(env, p.h2);
    PoisonBodyLayout(MicroblockHeaderCodec(env), PoisonView(env), p);
    Assoc([3], BytesOfHeader(p.h1), BytesOfHeader(p.h2));
  }

  lemma NakamotoLayout(env: Env, value: Codec<Value>, p: Payload)
    requires p.Coinbase? && p.vrf.Some? && value.put == PutValue
    ensures [8] + NakamotoCodec(env, value).put(p) == BytesOfPayload(p)
  {
    var v := PutValue(RecipientValue(p.altRecipient));
    assert Via(value, RecipientView(value)).put(p.altRecipient) == v;
    assert NakamotoCodec(env, value).put(p) == p.buffer + (v + p.vrf.value);
    Flat3([8], p.buffer, v, p.vrf.value);
  }

  lemma EarlyCoinbaseLayout(value: Codec<Value>, p: Payload)
    requires p.Coinbase? && p.vrf.None? && value.put == PutValue
    ensures p.altRecipient.None? ==> [4] + Via(Exact(32), PlainCoinbaseView()).put(p) == BytesOfPayload(p)
    ensures p.altRecipient.Some? ==> [5] + AltCoinbaseCodec(value).put(p) == BytesOfPayload(p)
  {
    if p.altRecipient.Some? {
      Assoc([5], p.buffer, PutValue(PrincipalValue(p.altRecipient.value)));
    }
  }

  lemma ArgsLayout(env: Env, args: seq<Value>)
    ensures ArgsCodec(env).put(args) == BytesOfMany(PutValue, args)
  {
    SameMany(ValueCodec(env.values).put, PutValue, args);
  }

  lemma PayloadBodyPut(env: Env, text: Codec<Bytes>, value: Codec<Value>, args: Codec<seq<Value>>, p: Payload)
    ensures PayloadCodec(env, text, value, args).put(p) ==
              [PayloadTag(p)] + PayloadBody(env, text, value, args, PayloadTag(p)).put(p)
  {
  }

  lemma CallOrContractLayout(env: Env, text: Codec<Bytes>, value: Codec<Value>, args: Codec<seq<Value>>, p: Payload)
    requires p.ContractCall? || p.SmartContract?
    requires p.ContractCall? ==> args.put(p.args) == BytesOfMany(PutValue, p.args)
    requires p.SmartContract? ==> text.put(p.codeBody) == PutByteString(p.codeBody)
    ensures [PayloadTag(p)] + PayloadBody(env, text, value, args, PayloadTag(p)).put(p) == BytesOfPayload(p)
  {
    if p.ContractCall? {
      assert PayloadBody(env, text, value, args, 2) == CallCodec(args);
      CallLayout(args, p);
    } else {
      assert PayloadBody(env, text, value, args, 1) == ContractCodec(text);
      assert PayloadBody(env, text, value, args, 6) == VersionedCodec(text);
      ContractLayout(text, p);
    }
  }

  lemma LaterCoinbaseLayout(env: Env, text: Codec<Bytes>, value: Codec<Value>, args: Codec<seq<Value>>, p: Payload)
    requires p.Coinbase? && p.vrf.Some? && value.put == PutValue
    ensures [PayloadTag(p)] + PayloadBody(env, text, value, args, PayloadTag(p)).put(p) == BytesOfPayload(p)
  {
    assert PayloadBody(env, text, value, args, 8) == NakamotoCodec(env, value);
    NakamotoLayout(env, value, p);
  }

  lemma CoinbaseLayout(env: Env, text: Codec<Bytes>, value: Codec<Value>, args: Codec<seq<Value>>, p: Payload)
    requires p.Coinbase? && value.put == PutValue
    ensures [PayloadTag(p)] + PayloadBody(env, text, value, args, PayloadTag(p)).put(p) == BytesOfPayload(p)
  {
    if p.vrf.Some? {
      LaterCoinbaseLayout(env, text, value, args, p);
    } else if p.altRecipient.Some? {
      assert PayloadBody(env, text, value, args, 5) == AltCoinbaseCodec(value);
      EarlyCoinbaseLayout(value, p);
    } else {
      assert PayloadBody(env, text, value, args, 4) == Via(Exact(32), PlainCoinbaseView());
      EarlyCoinbaseLayout(value, p);
    }
  }

  lemma OtherPayloadLayout(env: Env, text: Codec<Bytes>, value: Codec<Value>, args: Codec<seq<Value>>, p: Payload)
    requires p.TokenTransfer? || p.PoisonMicroblock? || p.TenureChange?
    ensures [PayloadTag(p)] + PayloadBody(env, text, value, args, PayloadTag(p)).put(p) == BytesOfPayload(p)
  {
    if p.TokenTransfer? {
      assert PayloadBody(env, text, value, args, 0) == TransferCodec(PrincipalCodec());
      PrincipalLayout(p.recipient);
      TransferLayout(PrincipalCodec(), p);
    } else if p.PoisonMicroblock? {
      assert PayloadBody(env, text, value, args, 3) == PoisonCodec(env);
      PoisonLayout(env, p);
    } else {
      assert PayloadBody(env, text, value, args, 7) == Via(TenureFormat(), TenureView());
      TenureLayout(p);
    }
  }

  lemma PayloadBodyLayout(env: Env, text: Codec<Bytes>, value: Codec<Value>, args: Codec<seq<Value>>, p: Payload)
    requires p.ContractCall? ==> args.put(p.args) == BytesOfMany(PutValue, p.args)
    requires p.SmartContract? ==> text.put(p.codeBody) == PutByteString(p.codeBody)
    requires value.put == PutValue
    ensures PayloadCodec(env, text, value, args).put(p) == BytesOfPayload(p)
  {
    PayloadBodyPut(env, text, value, args, p);
    if p.ContractCall? || p.SmartContract? {
      CallOrContractLayout(env, text, value, args, p);
    } else if p.Coinbase? {
      CoinbaseLayout(env, text, value, args, p);
    } else {
      OtherPayloadLayout(env, text, value, args, p);
    }
  }

  lemma PayloadLayout(env: Env, p: Payload)
    ensures PartsOf(env).payload.put(p) == BytesOfPayload(p)
  {
    if p.ContractCall? {
      ArgsLayout(env, p.args);
    }
    PayloadBodyLayout(env, StringCodec(), ValueCodec(env.values), ArgsCodec(env), p);
  }

  lemma EnvelopeLayout(parts: Parts, tx: Transaction)
    ensures EnvelopeCodec(parts).put(tx) ==
              [tx.version] + PutU32(tx.chainId) + parts.auth.put(tx.auth) + [tx.anchorMode] + [tx.postConditionMode]
              + parts.postConditions.put(tx.postConditions) + parts.payload.put(tx.payload)
  {
    Flat6([tx.version], PutU32(tx.chainId), parts.auth.put(tx.auth), [tx.anchorMode], [tx.postConditionMode],
          parts.postConditions.put(tx.postConditions), parts.payload.put(tx.payload));
  }

  /** The composed format writes the fields of every transaction in the documented order and widths. */
  lemma TransactionLayout(env: Env, tx: Transaction)
    ensures Encode(env, tx) == BytesOf(tx)
  {
    EnvelopeLayout(PartsOf(env), tx);
    var condition := ConditionCodec(FieldsCodec(env.keys));
    ConditionLayout(env, tx.auth.origin);
    if tx.auth.AuthSponsored? {
      ConditionLayout(env, tx.auth.sponsor);
    }
    AuthLayout(condition, tx.auth);
    PostConditionsLayout(env, tx.postConditions);
    PayloadLayout(env, tx.payload);
  }
}
