/**
  The consensus wire format of a transaction: post-conditions, payloads and the
  envelope around them, following sections "Transaction Encoding" and "Clarity
  Value Representation" of SIP-005.

  The format is assembled from its parts, and so is the proof that it is
  lawful: a transaction survives the round trip exactly when it is well formed
  and not too long, and every accepted byte string decodes to a well-formed
  transaction that re-encodes to no more bytes than were read.
 */
module Transactions {
  import opened Wire
  import opened Codecs
  import opened Values
  import opened SpendingConditions

  const MAX_TRANSACTION_LEN: nat := 2 * 1024 * 1024

  /**
    What the format takes from elsewhere: curve points, recoverable signatures, the canonical
    form of a VRF proof, the type system of values, and the sizes of items in memory.
   */
  datatype Env = Env(
    keys: KeyRules,
    recoverable: Bytes -> bool,
    vrfNormal: Bytes -> Option<Bytes>,
    values: ValueRules,
    valueSize: nat,
    postConditionSize: nat)

  /** Parsing a VRF proof and writing it again gives 80 bytes that parse to the same proof. */
  ghost predicate EnvLaw(env: Env) {
    forall b, y :: env.vrfNormal(b) == Some(y) ==> |y| == 80 && env.vrfNormal(y) == Some(y)
  }

  // ---------- Post-conditions ----------

  datatype PostPrincipal = Origin | StandardAt(address: Address) | ContractAt(address: Address, name: Bytes)

  datatype AssetInfo = AssetInfo(address: Address, contractName: Bytes, assetName: Bytes)

  datatype PostCondition =
    | STX(principal: PostPrincipal, code: byte, amount: u64)
    | Fungible(principal: PostPrincipal, asset: AssetInfo, code: byte, amount: u64)
    | Nonfungible(principal: PostPrincipal, asset: AssetInfo, value: Value, code: byte)
    | Staking(principal: PostPrincipal, code: byte, amount: u64)
    | Pox(principal: PostPrincipal, code: byte)

  predicate FungibleCode(c: byte) { 1 <= c <= 5 }

  predicate NonfungibleCode(c: byte) { 0x10 <= c <= 0x12 }

  predicate PoxCode(c: byte) { 0x30 <= c <= 0x32 }

  predicate ContractNameOk(n: Bytes) {
    1 <= |n| <= CONTRACT_MAX_NAME_LENGTH && IsContractName(n)
  }

  predicate PostPrincipalOk(p: PostPrincipal) {
    match p
    case Origin => true
    case StandardAt(a) => AddressOk(a)
    case ContractAt(a, n) => AddressOk(a) && ContractNameOk(n)
  }

  predicate AssetInfoOk(a: AssetInfo) {
    AddressOk(a.address) && ContractNameOk(a.contractName) && IsClarityName(a.assetName)
  }

  predicate PostConditionOk(value: Codec<Value>, p: PostCondition) {
    && PostPrincipalOk(p.principal)
    && match p
       case STX(_, code, _) => FungibleCode(code)
       case Fungible(_, asset, code, _) => AssetInfoOk(asset) && FungibleCode(code)
       case Nonfungible(_, asset, v, code) => AssetInfoOk(asset) && value.ok(v) && NonfungibleCode(code)
       case Staking(_, code, _) => FungibleCode(code)
       case Pox(_, code) => PoxCode(code)
  }

  function PostPrincipalTag(p: PostPrincipal): byte {
    match p
    case Origin => 1
    case StandardAt(_) => 2
    case ContractAt(_, _) => 3
  }

  function OriginView(): View<Bytes, PostPrincipal> {
    View((b: Bytes) => Some(Origin), (p: PostPrincipal) => Some([]), (p: PostPrincipal) => p.Origin?)
  }

  function StandardAtView(): View<Address, PostPrincipal> {
    View((a: Address) => Some(StandardAt(a)),
         (p: PostPrincipal) => if p.StandardAt? then Some(p.address) else None,
         (p: PostPrincipal) => p.StandardAt? && PostPrincipalOk(p))
  }

  function ContractAtView(): View<(Address, Bytes), PostPrincipal> {
    View((q: (Address, Bytes)) => Some(ContractAt(q.0, q.1)),
         (p: PostPrincipal) => if p.ContractAt? then Some((p.address, p.name)) else None,
         (p: PostPrincipal) => p.ContractAt? && PostPrincipalOk(p))
  }

  function PostPrincipalBody(t: byte): Codec<PostPrincipal> {
    if t == 1 then Via(Exact(0), OriginView())
    else if t == 2 then Via(AddressCodec(), StandardAtView())
    else if t == 3 then Via(Both(AddressCodec(), ContractName()), ContractAtView())
    else Nothing()
  }

  function PostPrincipalCodec(): Codec<PostPrincipal> {
    Tagged(PostPrincipalTag, PostPrincipalBody)
  }

  lemma PostPrincipalBodyLawful(t: byte)
    ensures Lawful(PostPrincipalBody(t))
  {
    AddressLawful();
    NamesLawful();
    if t == 1 {
      ExactLawful(0);
      ViaLawful(Exact(0), OriginView());
    } else if t == 2 {
      ViaLawful(AddressCodec(), StandardAtView());
    } else if t == 3 {
      BothLawful(AddressCodec(), ContractName());
      ViaLawful(Both(AddressCodec(), ContractName()), ContractAtView());
    } else {
      NothingLawful<PostPrincipal>();
    }
  }

  lemma PostPrincipalLawful()
    ensures Lawful(PostPrincipalCodec())
    ensures forall p :: PostPrincipalCodec().ok(p) <==> PostPrincipalOk(p)
  {
    forall t: byte ensures Lawful(PostPrincipalBody(t)) {
      PostPrincipalBodyLawful(t);
    }
    TaggedLawful(PostPrincipalTag, PostPrincipalBody);
    forall p ensures PostPrincipalCodec().ok(p) <==> PostPrincipalOk(p) {
      assert PostPrincipalBody(PostPrincipalTag(p)).ok(p) <==> PostPrincipalOk(p);
    }
  }

  type AssetRep = (Address, (Bytes, Bytes))

  function AssetInfoView(): View<AssetRep, AssetInfo> {
    View((a: AssetRep) => Some(AssetInfo(a.0, a.1.0, a.1.1)),
         (a: AssetInfo) => Some((a.address, (a.contractName, a.assetName))),
         AssetInfoOk)
  }

  function AssetInfoCodec(): Codec<AssetInfo> {
    Via(Both(AddressCodec(), Both(ContractName(), ClarityName())), AssetInfoView())
  }

  lemma AssetInfoLawful()
    ensures Lawful(AssetInfoCodec())
  {
    AddressLawful();
    NamesLawful();
    BothLawful(ContractName(), ClarityName());
    BothLawful(AddressCodec(), Both(ContractName(), ClarityName()));
    ViaLawful(Both(AddressCodec(), Both(ContractName(), ClarityName())), AssetInfoView());
  }

  type AmountRep = (PostPrincipal, (byte, u64))
  type FungibleRep = (PostPrincipal, (AssetInfo, (byte, u64)))
  type NonfungibleRep = (PostPrincipal, (AssetInfo, (Value, byte)))

  /** Condition codes are checked after everything has been read. */
  function Checked(p: PostCondition): Option<PostCondition> {
    var valid := match p
      case STX(_, code, _) => FungibleCode(code)
      case Fungible(_, _, code, _) => FungibleCode(code)
      case Nonfungible(_, _, _, code) => NonfungibleCode(code)
      case Staking(_, code, _) => FungibleCode(code)
      case Pox(_, code) => PoxCode(code);
    if valid then Some(p) else None
  }

  function STXView(value: Codec<Value>): View<AmountRep, PostCondition> {
    View((a: AmountRep) => Checked(STX(a.0, a.1.0, a.1.1)),
         (p: PostCondition) => if p.STX? then Some((p.principal, (p.code, p.amount))) else None,
         (p: PostCondition) => p.STX? && PostConditionOk(value, p))
  }

  function StakingView(value: Codec<Value>): View<AmountRep, PostCondition> {
    View((a: AmountRep) => Checked(Staking(a.0, a.1.0, a.1.1)),
         (p: PostCondition) => if p.Staking? then Some((p.principal, (p.code, p.amount))) else None,
         (p: PostCondition) => p.Staking? && PostConditionOk(value, p))
  }

  function FungibleView(value: Codec<Value>): View<FungibleRep, PostCondition> {
    View((a: FungibleRep) => Checked(Fungible(a.0, a.1.0, a.1.1.0, a.1.1.1)),
         (p: PostCondition) => if p.Fungible? then Some((p.principal, (p.asset, (p.code, p.amount)))) else None,
         (p: PostCondition) => p.Fungible? && PostConditionOk(value, p))
  }

  function NonfungibleView(value: Codec<Value>): View<NonfungibleRep, PostCondition> {
    View((a: NonfungibleRep) => Checked(Nonfungible(a.0, a.1.0, a.1.1.0, a.1.1.1)),
         (p: PostCondition) => if p.Nonfungible? then Some((p.principal, (p.asset, (p.value, p.code)))) else None,
         (p: PostCondition) => p.Nonfungible? && PostConditionOk(value, p))
  }

  function PoxView(value: Codec<Value>): View<(PostPrincipal, byte), PostCondition> {
    View((a: (PostPrincipal, byte)) => Checked(Pox(a.0, a.1)),
         (p: PostCondition) => if p.Pox? then Some((p.principal, p.code)) else None,
         (p: PostCondition) => p.Pox? && PostConditionOk(value, p))
  }

  function PostConditionTag(p: PostCondition): byte {
    match p
    case STX(_, _, _) => 0
    case Fungible(_, _, _, _) => 1
    case Nonfungible(_, _, _, _) => 2
    case Staking(_, _, _) => 3
    case Pox(_, _) => 4
  }

  function PostConditionBody(who: Codec<PostPrincipal>, asset: Codec<AssetInfo>, value: Codec<Value>, t: byte)
    : Codec<PostCondition>
  {
    if t == 0 then Via(Both(who, Both(Byte(), U64())), STXView(value))
    else if t == 1 then Via(Both(who, Both(asset, Both(Byte(), U64()))), FungibleView(value))
    else if t == 2 then Via(Both(who, Both(asset, Both(value, Byte()))), NonfungibleView(value))
    else if t == 3 then Via(Both(who, Both(Byte(), U64())), StakingView(value))
    else if t == 4 then Via(Both(who, Byte()), PoxView(value))
    else Nothing()
  }

  function PostConditionBodies(who: Codec<PostPrincipal>, asset: Codec<AssetInfo>, value: Codec<Value>)
    : byte -> Codec<PostCondition>
  {
    (t: byte) => PostConditionBody(who, asset, value, t)
  }

  function PostConditionCodec(who: Codec<PostPrincipal>, asset: Codec<AssetInfo>, value: Codec<Value>)
    : Codec<PostCondition>
  {
    Tagged(PostConditionTag, PostConditionBodies(who, asset, value))
  }

  /** The formats of the principal and the asset carry what they should. */
  ghost predicate PartsOk(who: Codec<PostPrincipal>, asset: Codec<AssetInfo>) {
    && Lawful(who) && (forall p :: who.ok(p) <==> PostPrincipalOk(p))
    && Lawful(asset) && (forall a :: asset.ok(a) <==> AssetInfoOk(a))
  }

  lemma PostConditionBodyLawful(who: Codec<PostPrincipal>, asset: Codec<AssetInfo>, value: Codec<Value>, t: byte)
    requires PartsOk(who, asset) && Lawful(value)
    ensures Lawful(PostConditionBody(who, asset, value, t))
  {
    ByteLawful();
    U64Lawful();
    var amount := Both(Byte(), U64());
    BothLawful(Byte(), U64());
    if t == 0 {
      BothLawful(who, amount);
      ViaLawful(Both(who, amount), STXView(value));
    } else if t == 1 {
      BothLawful(asset, amount);
      BothLawful(who, Both(asset, amount));
      ViaLawful(Both(who, Both(asset, amount)), FungibleView(value));
    } else if t == 2 {
      BothLawful(value, Byte());
      BothLawful(asset, Both(value, Byte()));
      BothLawful(who, Both(asset, Both(value, Byte())));
      ViaLawful(Both(who, Both(asset, Both(value, Byte()))), NonfungibleView(value));
    } else if t == 3 {
      BothLawful(who, amount);
      ViaLawful(Both(who, amount), StakingView(value));
    } else if t == 4 {
      BothLawful(who, Byte());
      ViaLawful(Both(who, Byte()), PoxView(value));
    } else {
      NothingLawful<PostCondition>();
    }
  }

  lemma PostConditionLawful(who: Codec<PostPrincipal>, asset: Codec<AssetInfo>, value: Codec<Value>)
    requires PartsOk(who, asset) && Lawful(value)
    ensures Lawful(PostConditionCodec(who, asset, value))
    ensures forall p :: PostConditionCodec(who, asset, value).ok(p) <==> PostConditionOk(value, p)
  {
    var bodies := PostConditionBodies(who, asset, value);
    forall t: byte ensures Lawful(bodies(t)) {
      PostConditionBodyLawful(who, asset, value, t);
    }
    TaggedLawful(PostConditionTag, bodies);
    forall p ensures PostConditionCodec(who, asset, value).ok(p) <==> PostConditionOk(value, p) {
      assert bodies(PostConditionTag(p)) == PostConditionBody(who, asset, value, PostConditionTag(p));
    }
  }

  // ---------- Payloads ----------

  datatype MicroblockHeader = MicroblockHeader(
    version: byte, sequence: u16, prevBlock: Bytes, txMerkleRoot: Bytes, signature: Bytes)

  datatype TenureChange = TenureChangePayload(
    tenure: Bytes, prevTenure: Bytes, burnView: Bytes, previousEnd: Bytes, previousBlocks: u32,
    cause: byte, pubkeyHash: Bytes)

  datatype Payload =
    | TokenTransfer(recipient: Principal, amount: u64, memo: Bytes)
    | ContractCall(address: Address, contractName: Bytes, functionName: Bytes, args: seq<Value>)
    | SmartContract(name: Bytes, codeBody: Bytes, version: Option<byte>)
    | PoisonMicroblock(h1: MicroblockHeader, h2: MicroblockHeader)
    | Coinbase(buffer: Bytes, altRecipient: Option<Principal>, vrf: Option<Bytes>)
    | TenureChange(change: TenureChange)

  /** Space to tilde, tab and newline. */
  predicate PrintableByte(c: byte) {
    !((c < 0x20 && c != 0x09 && c != 0x0a) || c > 0x7e)
  }

  predicate Printable(s: Bytes) {
    forall i | 0 <= i < |s| :: PrintableByte(s[i])
  }

  /** The check scans the bytes and stops at the first one out of range. */
  method IsPrintable(s: Bytes) returns (ok: bool)
    ensures ok <==> Printable(s)
  {
    for i := 0 to |s|
      invariant forall j | 0 <= j < i :: PrintableByte(s[j])
    {
      if (s[i] < 0x20 && s[i] != 0x09 && s[i] != 0x0a) || s[i] > 0x7e {
        assert !PrintableByte(s[i]);
        return false;
      }
    }
    return true;
  }

  predicate HeaderOk(env: Env, h: MicroblockHeader) {
    |h.prevBlock| == 32 && |h.txMerkleRoot| == 32 && |h.signature| == 65 && env.recoverable(h.signature)
  }

  /** Two different headers that share a sequence number or a parent. */
  predicate IdentifiesFork(h1: MicroblockHeader, h2: MicroblockHeader) {
    h1 != h2 && (h1.sequence == h2.sequence || h1.prevBlock == h2.prevBlock)
  }

  predicate TenureChangeOk(t: TenureChange) {
    && |t.tenure| == 20 && |t.prevTenure| == 20 && |t.burnView| == 20 && |t.previousEnd| == 32
    && t.cause <= 6 && |t.pubkeyHash| == 20
  }

  predicate StringOk(s: Bytes) {
    4 + |s| <= MAX_MESSAGE_LEN && Printable(s)
  }

  /** A recipient as the optional value it is sent as. */
  function RecipientValue(r: Option<Principal>): Value {
    match r
    case None => OptionalNone
    case Some(p) => OptionalSome(PrincipalValue(p))
  }

  predicate CoinbaseOk(env: Env, value: Codec<Value>, p: Payload)
    requires p.Coinbase?
  {
    && |p.buffer| == 32
    && match (p.altRecipient, p.vrf)
       case (None, None) => true
       case (Some(r), None) => value.ok(PrincipalValue(r))
       case (_, Some(proof)) =>
         value.ok(RecipientValue(p.altRecipient)) && |proof| == 80 && env.vrfNormal(proof) == Some(proof)
  }

  predicate PayloadOk(env: Env, value: Codec<Value>, args: Codec<seq<Value>>, p: Payload) {
    match p
    case TokenTransfer(r, _, memo) => PrincipalOk(r) && |memo| == 34
    case ContractCall(a, c, f, xs) => AddressOk(a) && ContractNameOk(c) && IsClarityName(f) && args.ok(xs)
    case SmartContract(n, body, version) =>
      ContractNameOk(n) && StringOk(body) && (version.Some? ==> 1 <= version.value <= 7)
    case PoisonMicroblock(h1, h2) => HeaderOk(env, h1) && HeaderOk(env, h2) && IdentifiesFork(h1, h2)
    case Coinbase(_, _, _) => CoinbaseOk(env, value, p)
    case TenureChange(t) => TenureChangeOk(t)
  }

  type HeaderRep = (byte, (u16, (Bytes, (Bytes, Bytes))))

  function MicroblockHeaderView(env: Env): View<HeaderRep, MicroblockHeader> {
    View((h: HeaderRep) =>
           if env.recoverable(h.1.1.1.1)
           then Some(MicroblockHeader(h.0, h.1.0, h.1.1.0, h.1.1.1.0, h.1.1.1.1)) else None,
         (h: MicroblockHeader) => Some((h.version, (h.sequence, (h.prevBlock, (h.txMerkleRoot, h.signature))))),
         (h: MicroblockHeader) => HeaderOk(env, h))
  }

  function MicroblockHeaderFormat(): Codec<HeaderRep> {
    Both(Byte(), Both(U16(), Both(Exact(32), Both(Exact(32), Exact(65)))))
  }

  function MicroblockHeaderCodec(env: Env): Codec<MicroblockHeader> {
    Via(MicroblockHeaderFormat(), MicroblockHeaderView(env))
  }

  lemma MicroblockHeaderLawful(env: Env)
    ensures Lawful(MicroblockHeaderCodec(env))
  {
    ByteLawful();
    U16Lawful();
    ExactLawful(32);
    ExactLawful(65);
    BothLawful(Exact(32), Exact(65));
    BothLawful(Exact(32), Both(Exact(32), Exact(65)));
    BothLawful(U16(), Both(Exact(32), Both(Exact(32), Exact(65))));
    BothLawful(Byte(), Both(U16(), Both(Exact(32), Both(Exact(32), Exact(65)))));
    ViaLawful(MicroblockHeaderFormat(), MicroblockHeaderView(env));
  }

  type TenureRep = (Bytes, (Bytes, (Bytes, (Bytes, (u32, (byte, Bytes))))))

  function CauseCodec(): Codec<byte> {
    Check(Byte(), c => c <= 6)
  }

  function TenureFormat(): Codec<TenureRep> {
    Both(Exact(20), Both(Exact(20), Both(Exact(20), Both(Exact(32), Both(U32(), Both(CauseCodec(), Exact(20)))))))
  }

  function TenureView(): View<TenureRep, Payload> {
    View((t: TenureRep) =>
           Some(TenureChange(TenureChangePayload(
             t.0, t.1.0, t.1.1.0, t.1.1.1.0, t.1.1.1.1.0, t.1.1.1.1.1.0, t.1.1.1.1.1.1))),
         (p: Payload) =>
           if p.TenureChange? then
             var c := p.change;
             Some((c.tenure, (c.prevTenure, (c.burnView, (c.previousEnd, (c.previousBlocks, (c.cause, c.pubkeyHash)))))))
           else None,
         (p: Payload) => p.TenureChange? && TenureChangeOk(p.change))
  }

  lemma TenureFormatLawful()
    ensures Lawful(TenureFormat())
  {
    ByteLawful();
    CheckLawful(Byte(), c => c <= 6);
    U32Lawful();
    ExactLawful(20);
    ExactLawful(32);
    var a := Both(CauseCodec(), Exact(20));
    BothLawful(CauseCodec(), Exact(20));
    var b := Both(U32(), a);
    BothLawful(U32(), a);
    var c := Both(Exact(32), b);
    BothLawful(Exact(32), b);
    var d := Both(Exact(20), c);
    BothLawful(Exact(20), c);
    BothLawful(Exact(20), d);
    BothLawful(Exact(20), Both(Exact(20), d));
  }

  lemma TenureLawful()
    ensures Lawful(Via(TenureFormat(), TenureView()))
  {
    TenureFormatLawful();
    ViaLawful(TenureFormat(), TenureView());
  }

  type TransferRep = (Principal, (u64, Bytes))

  function TransferView(): View<TransferRep, Payload> {
    View((t: TransferRep) => Some(TokenTransfer(t.0, t.1.0, t.1.1)),
         (p: Payload) => if p.TokenTransfer? then Some((p.recipient, (p.amount, p.memo))) else None,
         (p: Payload) => p.TokenTransfer? && PrincipalOk(p.recipient) && |p.memo| == 34)
  }

  function TransferCodec(recipient: Codec<Principal>): Codec<Payload> {
    Via(Both(recipient, Both(U64(), Exact(34))), TransferView())
  }

  lemma TransferLawful(recipient: Codec<Principal>)
    requires Lawful(recipient) && forall p :: recipient.ok(p) <==> PrincipalOk(p)
    ensures Lawful(TransferCodec(recipient))
  {
    U64Lawful();
    ExactLawful(34);
    BothLawful(U64(), Exact(34));
    BothLawful(recipient, Both(U64(), Exact(34)));
    ViaLawful(Both(recipient, Both(U64(), Exact(34))), TransferView());
  }

  type CallRep = (Address, (Bytes, (Bytes, seq<Value>)))

  function CallView(args: Codec<seq<Value>>): View<CallRep, Payload> {
    View((c: CallRep) =>
           if IsClarityName(c.1.1.0) then Some(ContractCall(c.0, c.1.0, c.1.1.0, c.1.1.1)) else None,
         (p: Payload) =>
           if p.ContractCall? then Some((p.address, (p.contractName, (p.functionName, p.args)))) else None,
         (p: Payload) =>
           p.ContractCall? && AddressOk(p.address) && ContractNameOk(p.contractName) && IsClarityName(p.functionName)
           && args.ok(p.args))
  }

  function CallCodec(args: Codec<seq<Value>>): Codec<Payload> {
    Via(Both(AddressCodec(), Both(ContractName(), Both(ClarityName(), args))), CallView(args))
  }

  lemma CallLawful(args: Codec<seq<Value>>)
    requires Lawful(args)
    ensures Lawful(CallCodec(args))
  {
    AddressLawful();
    NamesLawful();
    BothLawful(ClarityName(), args);
    BothLawful(ContractName(), Both(ClarityName(), args));
    var c := Both(AddressCodec(), Both(ContractName(), Both(ClarityName(), args)));
    BothLawful(AddressCodec(), Both(ContractName(), Both(ClarityName(), args)));
    ViaLawful(c, CallView(args));
  }

  /** Text is read through a window of one message, then checked. */
  function StringCodec(): Codec<Bytes> {
    Check(Bounded(ByteString(Fits(1)), MAX_MESSAGE_LEN), Printable)
  }

  lemma StringLawful()
    ensures Lawful(StringCodec())
    ensures forall s :: StringCodec().ok(s) <==> StringOk(s)
  {
    ByteStringLawful(Fits(1));
    BoundedLawful(ByteString(Fits(1)), MAX_MESSAGE_LEN);
    CheckLawful(Bounded(ByteString(Fits(1)), MAX_MESSAGE_LEN), Printable);
    var text := ByteString(Fits(1));
    var window := Bounded(text, MAX_MESSAGE_LEN);
    forall s: Bytes ensures StringCodec().ok(s) <==> StringOk(s) {
      assert text.ok(s) <==> |s| <= MAX_U32 && |s| <= MAX_MESSAGE_LEN;
      assert |text.put(s)| == 4 + |s|;
      assert window.ok(s) <==> text.ok(s) && |text.put(s)| <= MAX_MESSAGE_LEN;
      assert StringCodec().ok(s) <==> window.ok(s) && Printable(s);
    }
  }

  function ContractView(): View<(Bytes, Bytes), Payload> {
    View((c: (Bytes, Bytes)) => Some(SmartContract(c.0, c.1, None)),
         (p: Payload) => if p.SmartContract? then Some((p.name, p.codeBody)) else None,
         (p: Payload) => p.SmartContract? && p.version.None? && ContractNameOk(p.name) && StringOk(p.codeBody))
  }

  function VersionedView(): View<(byte, (Bytes, Bytes)), Payload> {
    View((c: (byte, (Bytes, Bytes))) => Some(SmartContract(c.1.0, c.1.1, Some(c.0))),
         (p: Payload) =>
           if p.SmartContract? && p.version.Some? then Some((p.version.value, (p.name, p.codeBody))) else None,
         (p: Payload) =>
           && p.SmartContract? && p.version.Some? && 1 <= p.version.value <= 7
           && ContractNameOk(p.name) && StringOk(p.codeBody))
  }

  function ClarityVersion(): Codec<byte> {
    Check(Byte(), v => 1 <= v <= 7)
  }

  function ContractCodec(text: Codec<Bytes>): Codec<Payload> {
    Via(Both(ContractName(), text), ContractView())
  }

  function VersionedCodec(text: Codec<Bytes>): Codec<Payload> {
    Via(Both(ClarityVersion(), Both(ContractName(), text)), VersionedView())
  }

  lemma ContractsLawful(text: Codec<Bytes>)
    requires Lawful(text) && forall s :: text.ok(s) <==> StringOk(s)
    ensures Lawful(ContractCodec(text)) && Lawful(VersionedCodec(text))
  {
    NamesLawful();
    ByteLawful();
    CheckLawful(Byte(), v => 1 <= v <= 7);
    BothLawful(ContractName(), text);
    ViaLawful(Both(ContractName(), text), ContractView());
    BothLawful(ClarityVersion(), Both(ContractName(), text));
    ViaLawful(Both(ClarityVersion(), Both(ContractName(), text)), VersionedView());
  }

  function PoisonView(env: Env): View<(MicroblockHeader, MicroblockHeader), Payload> {
    View((h: (MicroblockHeader, MicroblockHeader)) =>
           if IdentifiesFork(h.0, h.1) then Some(PoisonMicroblock(h.0, h.1)) else None,
         (p: Payload) => if p.PoisonMicroblock? then Some((p.h1, p.h2)) else None,
         (p: Payload) => p.PoisonMicroblock? && HeaderOk(env, p.h1) && HeaderOk(env, p.h2) && IdentifiesFork(p.h1, p.h2))
  }

  function PoisonCodec(env: Env): Codec<Payload> {
    Via(Both(MicroblockHeaderCodec(env), MicroblockHeaderCodec(env)), PoisonView(env))
  }

  lemma PoisonLawful(env: Env)
    ensures Lawful(PoisonCodec(env))
  {
    var h := MicroblockHeaderCodec(env);
    MicroblockHeaderLawful(env);
    BothLawful(h, h);
    ViaLawful(Both(h, h), PoisonView(env));
  }

  function PlainCoinbaseView(): View<Bytes, Payload> {
    View((b: Bytes) => Some(Coinbase(b, None, None)),
         (p: Payload) => if p.Coinbase? then Some(p.buffer) else None,
         (p: Payload) => p.Coinbase? && p.altRecipient.None? && p.vrf.None? && |p.buffer| == 32)
  }

  function AltCoinbaseView(value: Codec<Value>): View<(Bytes, Value), Payload> {
    View((c: (Bytes, Value)) =>
           if c.1.PrincipalValue? then Some(Coinbase(c.0, Some(c.1.principal), None)) else None,
         (p: Payload) =>
           if p.Coinbase? && p.altRecipient.Some? then Some((p.buffer, PrincipalValue(p.altRecipient.value))) else None,
         (p: Payload) =>
           && p.Coinbase? && p.altRecipient.Some? && p.vrf.None? && |p.buffer| == 32
           && value.ok(PrincipalValue(p.altRecipient.value)))
  }

  /** Any optional value is accepted; what it holds is dropped unless it is a principal. */
  function ToRecipient(v: Value): Option<Option<Principal>> {
    match v
    case OptionalNone => Some(None)
    case OptionalSome(x) => Some(if x.PrincipalValue? then Some(x.principal) else None)
    case _ => None
  }

  function RecipientView(value: Codec<Value>): View<Value, Option<Principal>> {
    View(ToRecipient,
         (r: Option<Principal>) => Some(RecipientValue(r)),
         (r: Option<Principal>) => value.ok(RecipientValue(r)))
  }

  function VrfView(env: Env): View<Bytes, Bytes> {
    View(env.vrfNormal, (b: Bytes) => Some(b), (b: Bytes) => |b| == 80 && env.vrfNormal(b) == Some(b))
  }

  type NakamotoRep = (Bytes, (Option<Principal>, Bytes))

  function NakamotoView(env: Env, value: Codec<Value>): View<NakamotoRep, Payload> {
    View((c: NakamotoRep) => Some(Coinbase(c.0, c.1.0, Some(c.1.1))),
         (p: Payload) =>
           if p.Coinbase? && p.vrf.Some? then Some((p.buffer, (p.altRecipient, p.vrf.value))) else None,
         (p: Payload) => p.Coinbase? && p.vrf.Some? && CoinbaseOk(env, value, p))
  }

  function NakamotoCodec(env: Env, value: Codec<Value>): Codec<Payload> {
    Via(Both(Exact(32), Both(Via(value, RecipientView(value)), Via(Exact(80), VrfView(env)))), NakamotoView(env, value))
  }

  /** The empty optional is carried and nothing is shorter. */
  ghost predicate NoneIsShortest(value: Codec<Value>) {
    value.ok(OptionalNone) && forall v :: value.ok(v) ==> |value.put(OptionalNone)| <= |value.put(v)|
  }

  lemma NakamotoLawful(env: Env, value: Codec<Value>)
    requires EnvLaw(env) && Lawful(value) && NoneIsShortest(value)
    ensures Lawful(NakamotoCodec(env, value))
  {
    var recipient, vrf := Via(value, RecipientView(value)), Via(Exact(80), VrfView(env));
    ExactLawful(32);
    ExactLawful(80);
    ViaLawful(value, RecipientView(value));
    ViaLawful(Exact(80), VrfView(env));
    BothLawful(recipient, vrf);
    BothLawful(Exact(32), Both(recipient, vrf));
    ViaLawful(Both(Exact(32), Both(recipient, vrf)), NakamotoView(env, value));
  }

  /** A coinbase whose optional recipient holds anything but a principal is accepted, and the recipient is dropped. */
  lemma RecipientDropped(env: Env, value: Codec<Value>, buffer: Bytes, x: Value, proof: Bytes, s: Bytes)
    requires Lawful(value) && value.ok(OptionalSome(x)) && !x.PrincipalValue?
    requires |buffer| == 32 && |proof| == 80 && env.vrfNormal(proof) == Some(proof)
    ensures NakamotoCodec(env, value).get(buffer + (value.put(OptionalSome(x)) + (proof + s))) ==
              Ok(Coinbase(buffer, None, Some(proof)), s)
  {
    var rest := value.put(OptionalSome(x)) + (proof + s);
    ReadExactAppend(buffer, rest);
    assert value.get(rest) == Ok(OptionalSome(x), proof + s);
    ReadExactAppend(proof, s);
    var recipient, vrf := Via(value, RecipientView(value)), Via(Exact(80), VrfView(env));
    assert recipient.get(rest) == Ok(None, proof + s);
    assert vrf.get(proof + s) == Ok(proof, s);
    assert Both(recipient, vrf).get(rest) == Ok((None, proof), s);
  }

  function AltCoinbaseCodec(value: Codec<Value>): Codec<Payload> {
    Via(Both(Exact(32), value), AltCoinbaseView(value))
  }

  lemma CoinbasesLawful(value: Codec<Value>)
    requires Lawful(value)
    ensures Lawful(Via(Exact(32), PlainCoinbaseView()))
    ensures Lawful(AltCoinbaseCodec(value))
  {
    ExactLawful(32);
    ViaLawful(Exact(32), PlainCoinbaseView());
    BothLawful(Exact(32), value);
    ViaLawful(Both(Exact(32), value), AltCoinbaseView(value));
  }

  function PayloadTag(p: Payload): byte {
    match p
    case TokenTransfer(_, _, _) => 0
    case SmartContract(_, _, version) => if version.None? then 1 else 6
    case ContractCall(_, _, _, _) => 2
    case PoisonMicroblock(_, _) => 3
    case Coinbase(_, r, vrf) => if vrf.Some? then 8 else if r.Some? then 5 else 4
    case TenureChange(_) => 7
  }

  function PayloadBody(env: Env, text: Codec<Bytes>, value: Codec<Value>, args: Codec<seq<Value>>, t: byte)
    : Codec<Payload>
  {
    if t == 0 then TransferCodec(PrincipalCodec())
    else if t == 1 then ContractCodec(text)
    else if t == 2 then CallCodec(args)
    else if t == 3 then PoisonCodec(env)
    else if t == 4 then Via(Exact(32), PlainCoinbaseView())
    else if t == 5 then AltCoinbaseCodec(value)
    else if t == 6 then VersionedCodec(text)
    else if t == 7 then Via(TenureFormat(), TenureView())
    else if t == 8 then NakamotoCodec(env, value)
    else Nothing()
  }

  function PayloadBodies(env: Env, text: Codec<Bytes>, value: Codec<Value>, args: Codec<seq<Value>>)
    : byte -> Codec<Payload>
  {
    (t: byte) => PayloadBody(env, text, value, args, t)
  }

  function PayloadCodec(env: Env, text: Codec<Bytes>, value: Codec<Value>, args: Codec<seq<Value>>): Codec<Payload> {
    Tagged(PayloadTag, PayloadBodies(env, text, value, args))
  }

  lemma PayloadBodyLawful(env: Env, text: Codec<Bytes>, value: Codec<Value>, args: Codec<seq<Value>>, t: byte)
    requires EnvLaw(env) && Lawful(value) && NoneIsShortest(value) && Lawful(args)
    requires Lawful(text) && forall s :: text.ok(s) <==> StringOk(s)
    ensures Lawful(PayloadBody(env, text, value, args, t))
  {
    if t == 0 {
      PrincipalLawful();
      TransferLawful(PrincipalCodec());
    } else if t == 1 || t == 6 {
      ContractsLawful(text);
    } else if t == 2 {
      CallLawful(args);
    } else if t == 3 {
      PoisonLawful(env);
    } else if t == 4 || t == 5 {
      CoinbasesLawful(value);
    } else if t == 7 {
      TenureLawful();
    } else if t == 8 {
      NakamotoLawful(env, value);
    } else {
      NothingLawful<Payload>();
    }
  }

  lemma PayloadTagged(env: Env, text: Codec<Bytes>, value: Codec<Value>, args: Codec<seq<Value>>, t: byte, p: Payload)
    ensures PayloadBody(env, text, value, args, t).ok(p) ==> PayloadTag(p) == t
  {
  }

  lemma PayloadCarries(env: Env, text: Codec<Bytes>, value: Codec<Value>, args: Codec<seq<Value>>, p: Payload)
    ensures PayloadBody(env, text, value, args, PayloadTag(p)).ok(p) <==> PayloadOk(env, value, args, p)
  {
    match p
    case TokenTransfer(_, _, _) =>
      assert PayloadBody(env, text, value, args, 0) == TransferCodec(PrincipalCodec());
      TransferCarries(PrincipalCodec(), p);
    case ContractCall(_, _, _, _) =>
      assert PayloadBody(env, text, value, args, 2) == CallCodec(args);
      CallCarries(args, p);
    case SmartContract(_, _, _) =>
      assert PayloadBody(env, text, value, args, 1) == ContractCodec(text);
      assert PayloadBody(env, text, value, args, 6) == VersionedCodec(text);
      ContractCarries(text, p);
    case PoisonMicroblock(_, _) =>
      assert PayloadBody(env, text, value, args, 3) == PoisonCodec(env);
    case Coinbase(_, _, _) => CoinbaseCarries(env, text, value, args, p);
    case TenureChange(_) =>
      assert PayloadBody(env, text, value, args, 7) == Via(TenureFormat(), TenureView());
  }

  lemma TransferCarries(recipient: Codec<Principal>, p: Payload)
    ensures TransferCodec(recipient).ok(p) <==> p.TokenTransfer? && PrincipalOk(p.recipient) && |p.memo| == 34
  {
  }

  lemma CallCarries(args: Codec<seq<Value>>, p: Payload)
    ensures CallCodec(args).ok(p) <==>
              p.ContractCall? && AddressOk(p.address) && ContractNameOk(p.contractName) && IsClarityName(p.functionName) && args.ok(p.args)
  {
  }

  lemma ContractCarries(text: Codec<Bytes>, p: Payload)
    ensures ContractCodec(text).ok(p) <==> p.SmartContract? && p.version.None? && ContractNameOk(p.name) && StringOk(p.codeBody)
    ensures VersionedCodec(text).ok(p) <==>
              && p.SmartContract? && p.version.Some? && 1 <= p.version.value <= 7
              && ContractNameOk(p.name) && StringOk(p.codeBody)
  {
  }

  lemma CoinbaseCarries(env: Env, text: Codec<Bytes>, value: Codec<Value>, args: Codec<seq<Value>>, p: Payload)
    requires p.Coinbase?
    ensures PayloadBody(env, text, value, args, PayloadTag(p)).ok(p) <==> CoinbaseOk(env, value, p)
  {
    if p.vrf.Some? {
      assert PayloadBody(env, text, value, args, 8) == NakamotoCodec(env, value);
    }
  }

  lemma PayloadLawful(env: Env, text: Codec<Bytes>, value: Codec<Value>, args: Codec<seq<Value>>)
    requires EnvLaw(env) && Lawful(value) && NoneIsShortest(value) && Lawful(args)
    requires Lawful(text) && forall s :: text.ok(s) <==> StringOk(s)
    ensures Lawful(PayloadCodec(env, text, value, args))
    ensures forall p :: PayloadCodec(env, text, value, args).ok(p) <==> PayloadOk(env, value, args, p)
  {
    var bodies := PayloadBodies(env, text, value, args);
    forall t: byte ensures Lawful(bodies(t)) {
      PayloadBodyLawful(env, text, value, args, t);
    }
    forall t: byte, p | bodies(t).ok(p) ensures PayloadTag(p) == t {
      PayloadTagged(env, text, value, args, t, p);
    }
    TaggedLawful(PayloadTag, bodies);
    forall p ensures PayloadCodec(env, text, value, args).ok(p) <==> PayloadOk(env, value, args, p) {
      PayloadCarries(env, text, value, args, p);
    }
  }

  // ---------- The transaction ----------

  const MAINNET: byte := 0x00
  const TESTNET: byte := 0x80

  const ON_CHAIN_ONLY: byte := 1
  const ANY_CHAIN: byte := 3

  /** The post-condition modes are allow, deny and originator, numbered from 1. */
  datatype Transaction = Transaction(
    version: byte, chainId: u32, auth: Auth, anchorMode: byte, postConditionMode: byte,
    postConditions: seq<PostCondition>, payload: Payload)

  predicate AnchorOk(anchorMode: byte, payload: Payload) {
    && ON_CHAIN_ONLY <= anchorMode <= ANY_CHAIN
    && (payload.PoisonMicroblock? || payload.Coinbase? ==> anchorMode == ON_CHAIN_ONLY)
  }

  type TxRep = (byte, (u32, (Auth, (byte, (byte, (seq<PostCondition>, Payload))))))

  /** Only the top bit of the version byte is looked at. */
  function FromTxRep(r: TxRep): Option<Transaction> {
    var (version, (chainId, (auth, (anchorMode, (mode, (postConditions, payload)))))) := r;
    if !AnchorOk(anchorMode, payload) || !(1 <= mode <= 3) then None
    else
      Some(Transaction(if version < 0x80 then MAINNET else TESTNET, chainId, auth, anchorMode, mode, postConditions, payload))
  }

  datatype Parts = Parts(auth: Codec<Auth>, postConditions: Codec<seq<PostCondition>>, payload: Codec<Payload>)

  predicate EnvelopeOk(parts: Parts, tx: Transaction) {
    && (tx.version == MAINNET || tx.version == TESTNET)
    && parts.auth.ok(tx.auth)
    && AnchorOk(tx.anchorMode, tx.payload)
    && 1 <= tx.postConditionMode <= 3
    && parts.postConditions.ok(tx.postConditions)
    && parts.payload.ok(tx.payload)
  }

  function EnvelopeView(parts: Parts): View<TxRep, Transaction> {
    View(FromTxRep,
         (tx: Transaction) =>
           Some((tx.version, (tx.chainId, (tx.auth, (tx.anchorMode, (tx.postConditionMode, (tx.postConditions, tx.payload))))))),
         (tx: Transaction) => EnvelopeOk(parts, tx))
  }

  function EnvelopeFormat(parts: Parts): Codec<TxRep> {
    Both(Byte(), Both(U32(), Both(parts.auth, Both(Byte(), Both(Byte(), Both(parts.postConditions, parts.payload))))))
  }

  function EnvelopeCodec(parts: Parts): Codec<Transaction> {
    Bounded(Via(EnvelopeFormat(parts), EnvelopeView(parts)), MAX_TRANSACTION_LEN)
  }

  ghost predicate PartsLawful(parts: Parts) {
    Lawful(parts.auth) && Lawful(parts.postConditions) && Lawful(parts.payload)
  }

  lemma EnvelopeFormatLawful(parts: Parts)
    requires PartsLawful(parts)
    ensures Lawful(EnvelopeFormat(parts))
  {
    ByteLawful();
    U32Lawful();
    var a := Both(parts.postConditions, parts.payload);
    BothLawful(parts.postConditions, parts.payload);
    var b := Both(Byte(), a);
    BothLawful(Byte(), a);
    var c := Both(Byte(), b);
    BothLawful(Byte(), b);
    var d := Both(parts.auth, c);
    BothLawful(parts.auth, c);
    BothLawful(U32(), d);
    BothLawful(Byte(), Both(U32(), d));
  }

  lemma EnvelopeLawful(parts: Parts)
    requires PartsLawful(parts)
    ensures Lawful(EnvelopeCodec(parts))
  {
    EnvelopeFormatLawful(parts);
    ViaLawful(EnvelopeFormat(parts), EnvelopeView(parts));
    BoundedLawful(Via(EnvelopeFormat(parts), EnvelopeView(parts)), MAX_TRANSACTION_LEN);
  }

  // ---------- Putting the parts together ----------

  function ArgsCodec(env: Env): Codec<seq<Value>> {
    Bounded(Vec(ValueCodec(env.values), Fits(env.valueSize)), MAX_TRANSACTION_LEN)
  }

  function PostConditionsCodec(env: Env): Codec<seq<PostCondition>> {
    Vec(PostConditionCodec(PostPrincipalCodec(), AssetInfoCodec(), ValueCodec(env.values)), Fits(env.postConditionSize))
  }

  function PartsOf(env: Env): Parts {
    Parts(AuthCodec(ConditionCodec(FieldsCodec(env.keys))),
          PostConditionsCodec(env),
          PayloadCodec(env, StringCodec(), ValueCodec(env.values), ArgsCodec(env)))
  }

  function TransactionCodec(env: Env): Codec<Transaction> {
    EnvelopeCodec(PartsOf(env))
  }

  lemma ValuePartLawful(env: Env)
    ensures Lawful(ValueCodec(env.values)) && NoneIsShortest(ValueCodec(env.values))
    ensures Lawful(ArgsCodec(env))
  {
    var value := ValueCodec(env.values);
    ValueLawful(env.values);
    VecLawful(value, Fits(env.valueSize));
    BoundedLawful(Vec(value, Fits(env.valueSize)), MAX_TRANSACTION_LEN);
    assert WellFormedValue(env.values, OptionalNone);
  }

  lemma PostConditionsLawful(env: Env)
    ensures Lawful(PostConditionsCodec(env))
  {
    ValueLawful(env.values);
    PostPrincipalLawful();
    AssetInfoLawful();
    PostConditionLawful(PostPrincipalCodec(), AssetInfoCodec(), ValueCodec(env.values));
    VecLawful(PostConditionCodec(PostPrincipalCodec(), AssetInfoCodec(), ValueCodec(env.values)),
              Fits(env.postConditionSize));
  }

  /** The whole transaction format is lawful. */
  lemma TransactionLawful(env: Env)
    requires EnvLaw(env)
    ensures Lawful(TransactionCodec(env))
  {
    FieldsLawful(env.keys);
    ConditionLawful(FieldsCodec(env.keys));
    AuthLawful(ConditionCodec(FieldsCodec(env.keys)));
    PostConditionsLawful(env);
    ValuePartLawful(env);
    StringLawful();
    PayloadLawful(env, StringCodec(), ValueCodec(env.values), ArgsCodec(env));
    EnvelopeLawful(PartsOf(env));
  }
}
