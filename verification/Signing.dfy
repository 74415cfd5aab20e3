/**
  Signing and verifying transactions, following sections "Transaction
  Authorization" and "Transaction Signing and Verifying" of SIP-005.

  Signers sign a rolling hash: each signature covers the hash left by the one
  before it.  Order-independent conditions instead have every signer sign the
  same hash.  A sponsored transaction is signed in two stages, the sponsor
  continuing from the hash the origin arrived at.

  Hashing, key recovery and the hashing of keys into addresses are parameters.
  The one law assumed of them is that a signature recovers to the public key of
  the secret that made it.
 */
module Signing {
  import opened Wire
  import opened Codecs
  import opened SpendingConditions
  import opened Transactions

  datatype PublicKey = PublicKey(point: Bytes, compressed: bool)
  datatype PrivateKey = PrivateKey(secret: Bytes, compressed: bool)

  datatype AddressMode = P2PKH | P2SH | P2WPKH | P2WSH

  datatype Crypto = Crypto(
    hash: Bytes -> Bytes,
    txid: Transaction -> Bytes,
    pointOf: Bytes -> Bytes,
    sign: (Bytes, Bytes) -> Option<Bytes>,
    recover: (bool, Bytes, Bytes) -> Option<Bytes>,
    addressHash: (AddressMode, nat, seq<PublicKey>) -> Bytes)

  /** What `secret` signs recovers to its own point, with or without the check for low S. */
  ghost predicate CryptoLaw(c: Crypto) {
    forall secret, digest, allowHighS :: c.sign(secret, digest).Some? ==>
      c.recover(allowHighS, digest, c.sign(secret, digest).value) == Some(c.pointOf(secret))
  }

  function FromPrivate(c: Crypto, k: PrivateKey): PublicKey {
    PublicKey(c.pointOf(k.secret), k.compressed)
  }

  function EmptySignature(): Bytes {
    seq(65, _ => 0)
  }

  // ---------- Addresses ----------

  predicate KeysCompressed(keys: seq<PublicKey>) {
    forall i | 0 <= i < |keys| :: keys[i].compressed
  }

  /** The address of a set of keys, if the combination is supported. */
  function FromPublicKeys(c: Crypto, mode: AddressMode, numSigs: nat, keys: seq<PublicKey>): Option<Bytes> {
    if |keys| < numSigs then None
    else if (mode.P2PKH? || mode.P2WPKH?) && (numSigs != 1 || |keys| != 1) then None
    else if (mode.P2WPKH? || mode.P2WSH?) && !KeysCompressed(keys) then None
    else Some(c.addressHash(mode, numSigs, keys))
  }

  function ModeOf(cond: SpendingCondition): AddressMode {
    if cond.Singlesig? then (if cond.segwit then P2WPKH else P2PKH)
    else if cond.segwit then P2WSH else P2SH
  }

  function Required(cond: SpendingCondition): u16 {
    if cond.Singlesig? then 1 else cond.required
  }

  function NewSinglesig(c: Crypto, segwit: bool, key: PublicKey): Option<SpendingCondition> {
    match FromPublicKeys(c, if segwit then P2WPKH else P2PKH, 1, [key])
    case None => None
    case Some(signer) => Some(Singlesig(segwit, signer, 0, 0, segwit || key.compressed, EmptySignature()))
  }

  function NewMultisig(c: Crypto, ordered: bool, segwit: bool, numSigs: u16, keys: seq<PublicKey>)
    : Option<SpendingCondition>
  {
    match FromPublicKeys(c, if segwit then P2WSH else P2SH, numSigs, keys)
    case None => None
    case Some(signer) =>
      if ordered then Some(Multisig(segwit, signer, 0, 0, [], numSigs))
      else Some(OrderIndependent(segwit, signer, 0, 0, [], numSigs))
  }

  // ---------- The rolling hash ----------

  const AUTH_STANDARD: byte := 4
  const AUTH_SPONSORED: byte := 5

  /** Everything but the hash that one signature covers. */
  datatype Scope = Scope(flag: byte, fee: u64, nonce: u64)

  function ScopeOf(cond: SpendingCondition, flag: byte): Scope {
    Scope(flag, cond.fee, cond.nonce)
  }

  function PresignInput(cur: Bytes, scope: Scope): Bytes {
    cur + [scope.flag] + PutU64(scope.fee) + PutU64(scope.nonce)
  }

  function Presign(c: Crypto, cur: Bytes, scope: Scope): Bytes {
    c.hash(PresignInput(cur, scope))
  }

  function PostsignInput(presign: Bytes, compressed: bool, sig: Bytes): Bytes {
    presign + [if compressed then 0 else 1] + sig
  }

  function Postsign(c: Crypto, presign: Bytes, compressed: bool, sig: Bytes): Bytes {
    c.hash(PostsignInput(presign, compressed, sig))
  }

  function NextSignature(c: Crypto, cur: Bytes, scope: Scope, k: PrivateKey): Option<(Bytes, Bytes)> {
    var presign := Presign(c, cur, scope);
    match c.sign(k.secret, presign)
    case None => None
    case Some(sig) => Some((sig, Postsign(c, presign, k.compressed, sig)))
  }

  function NextVerification(c: Crypto, cur: Bytes, scope: Scope, compressed: bool, sig: Bytes, allowHighS: bool)
    : Option<(PublicKey, Bytes)>
  {
    var presign := Presign(c, cur, scope);
    match c.recover(allowHighS, presign, sig)
    case None => None
    case Some(point) => Some((PublicKey(point, compressed), Postsign(c, presign, compressed, sig)))
  }

  /** One step of verifying undoes one step of signing and arrives at the same hash. */
  lemma StepsAgree(c: Crypto, cur: Bytes, scope: Scope, k: PrivateKey, allowHighS: bool)
    requires CryptoLaw(c) && NextSignature(c, cur, scope, k).Some?
    ensures var (sig, next) := NextSignature(c, cur, scope, k).value;
            NextVerification(c, cur, scope, k.compressed, sig, allowHighS) == Some((FromPrivate(c, k), next))
  {
    var presign := Presign(c, cur, scope);
    assert c.recover(allowHighS, presign, c.sign(k.secret, presign).value) == Some(c.pointOf(k.secret));
  }

  // ---------- Verification ----------

  datatype AuthError =
    | RecoveryFailed | TooManySignatures | WrongSignatureCount | UncompressedKeys | UnsupportedAddress | SignerMismatch

  datatype AuthResult = Verified(sighash: Bytes) | Rejected(error: AuthError)

  datatype Scan = Scanned(keys: seq<PublicKey>, sighash: Bytes) | Failed(error: AuthError)

  /**
    The keys the fields stand for and the hash after them.  `rolling` tells whether each
    signature covers the hash left by the previous one; `seen` signatures came before.
   */
  function ScanKeys(c: Crypto, rolling: bool, scope: Scope, allowHighS: bool, cur: Bytes, seen: nat, fields: seq<AuthField>): Scan
    decreases fields
  {
    if fields == [] then Scanned([], cur) else
    match fields[0]
    case KeyField(point, compressed) =>
      Prepend(PublicKey(point, compressed), ScanKeys(c, rolling, scope, allowHighS, cur, seen, fields[1..]))
    case SignatureField(compressed, sig) =>
      match NextVerification(c, cur, scope, compressed, sig, allowHighS)
      case None => Failed(RecoveryFailed)
      case Some((key, next)) =>
        if seen >= MAX_U16 then Failed(TooManySignatures)
        else Prepend(key, ScanKeys(c, rolling, scope, allowHighS, if rolling then next else cur, seen + 1, fields[1..]))
  }

  function Prepend(key: PublicKey, s: Scan): Scan {
    match s
    case Scanned(keys, h) => Scanned([key] + keys, h)
    case Failed(e) => Failed(e)
  }

  /** What is left to check once the keys are known. */
  function CheckKeys(c: Crypto, cond: SpendingCondition, numSigs: nat, allCompressed: bool, keys: seq<PublicKey>, h: Bytes): AuthResult {
    if !cond.Singlesig? && (if cond.Multisig? then numSigs != cond.required else numSigs < cond.required) then
      Rejected(WrongSignatureCount)
    else if !cond.Singlesig? && cond.segwit && !allCompressed then Rejected(UncompressedKeys)
    else match FromPublicKeys(c, ModeOf(cond), Required(cond), keys)
         case None => Rejected(UnsupportedAddress)
         case Some(signer) => if signer == cond.signer then Verified(h) else Rejected(SignerMismatch)
  }

  function VerifyCondition(c: Crypto, cond: SpendingCondition, initial: Bytes, flag: byte, allowHighS: bool): AuthResult {
    if cond.Singlesig? then
      match NextVerification(c, initial, ScopeOf(cond, flag), cond.compressed, cond.signature, allowHighS)
      case None => Rejected(RecoveryFailed)
      case Some((key, next)) => CheckKeys(c, cond, 1, key.compressed, [key], next)
    else
      match ScanKeys(c, cond.Multisig?, ScopeOf(cond, flag), allowHighS, initial, 0, cond.fields)
      case Failed(e) => Rejected(e)
      case Scanned(keys, h) => CheckKeys(c, cond, NumSignatures(cond.fields), AllCompressed(cond.fields), keys, h)
  }

  lemma {:induction false} NumSignaturesFront(fields: seq<AuthField>)
    requires fields != []
    ensures NumSignatures(fields) == (if fields[0].SignatureField? then 1 else 0) + NumSignatures(fields[1..])
  {
    var n := |fields| - 1;
    if n > 0 {
      NumSignaturesFront(fields[..n]);
      assert fields[..n][1..] == fields[1..][..n - 1];
    }
  }

  ghost function ScanFrom(
    c: Crypto, rolling: bool, scope: Scope, allowHighS: bool, cur: Bytes, seen: nat, fields: seq<AuthField>, i: nat): Scan
    requires i <= |fields|
  {
    ScanKeys(c, rolling, scope, allowHighS, cur, seen, fields[i..])
  }

  /** The loop of both multi-signature verifiers. */
  method RecoverKeys(c: Crypto, rolling: bool, scope: Scope, allowHighS: bool, initial: Bytes, fields: seq<AuthField>)
    returns (r: Scan, numSigs: u16, haveUncompressed: bool)
    ensures r == ScanKeys(c, rolling, scope, allowHighS, initial, 0, fields)
    ensures r.Scanned? ==> numSigs == NumSignatures(fields) && haveUncompressed == !AllCompressed(fields)
  {
    var keys: seq<PublicKey> := [];
    var cur := initial;
    numSigs, haveUncompressed := 0, false;
    ghost var whole := ScanKeys(c, rolling, scope, allowHighS, initial, 0, fields);
    assert whole.Scanned? ==> [] + whole.keys == whole.keys;
    for i := 0 to |fields|
      invariant numSigs == NumSignatures(fields[..i])
      invariant haveUncompressed == !AllCompressed(fields[..i])
      invariant whole == Joined(keys, ScanFrom(c, rolling, scope, allowHighS, cur, numSigs, fields, i))
    {
      PrefixStep(fields, i);
      ScanFromStep(c, rolling, scope, allowHighS, cur, numSigs, fields, i);
      ghost var before := ScanFrom(c, rolling, scope, allowHighS, cur, numSigs, fields, i);
      if !fields[i].compressed {
        haveUncompressed := true;
      }
      var key;
      match fields[i] {
        case KeyField(point, compressed) =>
          key := PublicKey(point, compressed);
        case SignatureField(compressed, sig) =>
          var recovered := NextVerification(c, cur, scope, compressed, sig, allowHighS);
          if recovered.None? {
            return Failed(RecoveryFailed), numSigs, haveUncompressed;
          }
          if numSigs == MAX_U16 {
            return Failed(TooManySignatures), numSigs, haveUncompressed;
          }
          cur := if rolling then recovered.value.1 else cur;
          numSigs := numSigs + 1;
          key := recovered.value.0;
      }
      ghost var after := ScanFrom(c, rolling, scope, allowHighS, cur, numSigs, fields, i + 1);
      assert before == Prepend(key, after);
      JoinedStep(keys, key, after);
      keys := keys + [key];
    }
    assert fields[..|fields|] == fields;
    assert keys + [] == keys;
    r := Scanned(keys, cur);
  }

  lemma ScanFromStep(
    c: Crypto, rolling: bool, scope: Scope, allowHighS: bool, cur: Bytes, seen: nat, fields: seq<AuthField>, i: nat)
    requires i < |fields|
    ensures ScanFrom(c, rolling, scope, allowHighS, cur, seen, fields, i) ==
              match fields[i]
              case KeyField(point, compressed) =>
                Prepend(PublicKey(point, compressed), ScanFrom(c, rolling, scope, allowHighS, cur, seen, fields, i + 1))
              case SignatureField(compressed, sig) =>
                match NextVerification(c, cur, scope, compressed, sig, allowHighS)
                case None => Failed(RecoveryFailed)
                case Some((key, next)) =>
                  if seen >= MAX_U16 then Failed(TooManySignatures)
                  else Prepend(key, ScanFrom(c, rolling, scope, allowHighS, if rolling then next else cur, seen + 1, fields, i + 1))
  {
    assert fields[i..][0] == fields[i] && fields[i..][1..] == fields[i + 1..];
  }

  lemma PrefixStep(fields: seq<AuthField>, i: nat)
    requires i < |fields|
    ensures NumSignatures(fields[..i + 1]) == NumSignatures(fields[..i]) + if fields[i].SignatureField? then 1 else 0
    ensures AllCompressed(fields[..i + 1]) <==> AllCompressed(fields[..i]) && fields[i].compressed
  {
    assert fields[..i + 1][..i] == fields[..i];
    assert fields[..i + 1] == fields[..i] + [fields[i]];
  }

  method VerifyMultisig(c: Crypto, cond: SpendingCondition, initial: Bytes, flag: byte, allowHighS: bool)
    returns (r: AuthResult)
    requires !cond.Singlesig?
    ensures r == VerifyCondition(c, cond, initial, flag, allowHighS)
  {
    var scan, numSigs, haveUncompressed :=
      RecoverKeys(c, cond.Multisig?, Scope(flag, cond.fee, cond.nonce), allowHighS, initial, cond.fields);
    match scan
    case Failed(e) =>
      return Rejected(e);
    case Scanned(keys, final) =>
      if (cond.Multisig? && numSigs != cond.required) || (cond.OrderIndependent? && numSigs < cond.required) {
        return Rejected(WrongSignatureCount);
      }
      if haveUncompressed && cond.segwit {
        return Rejected(UncompressedKeys);
      }
      match FromPublicKeys(c, ModeOf(cond), cond.required, keys) {
        case None =>
          return Rejected(UnsupportedAddress);
        case Some(signer) =>
          if signer != cond.signer {
            return Rejected(SignerMismatch);
          }
          return Verified(final);
      }
  }

  ghost function Joined(keys: seq<PublicKey>, s: Scan): Scan {
    match s
    case Scanned(more, h) => Scanned(keys + more, h)
    case Failed(e) => Failed(e)
  }

  lemma JoinedStep(keys: seq<PublicKey>, key: PublicKey, s: Scan)
    ensures Joined(keys, Prepend(key, s)) == Joined(keys + [key], s)
  {
    if s.Scanned? {
      assert keys + ([key] + s.keys) == (keys + [key]) + s.keys;
    }
  }

  /** The counter of `num_signatures`; `None` stands for the panic on overflow. */
  method CountSignatures(cond: SpendingCondition) returns (n: Option<u16>)
    ensures cond.Singlesig? ==> n == Some(if cond.signature != EmptySignature() then 1 else 0)
    ensures !cond.Singlesig? ==>
              n == if NumSignatures(cond.fields) <= MAX_U16 then Some(NumSignatures(cond.fields)) else None
  {
    if cond.Singlesig? {
      return Some(if cond.signature != EmptySignature() then 1 else 0);
    }
    var count: u16 := 0;
    for i := 0 to |cond.fields|
      invariant count == NumSignatures(cond.fields[..i])
    {
      assert cond.fields[..i + 1][..i] == cond.fields[..i];
      if cond.fields[i].SignatureField? {
        if count == MAX_U16 {
          NumSignaturesMonotone(cond.fields, i + 1);
          return None;
        }
        count := count + 1;
      }
    }
    assert cond.fields[..|cond.fields|] == cond.fields;
    n := Some(count);
  }

  // ---------- Signing ----------

  function WithFields(cond: SpendingCondition, fields: seq<AuthField>): SpendingCondition {
    match cond
    case Singlesig(_, _, _, _, _, _) => cond
    case Multisig(segwit, signer, nonce, fee, _, required) => Multisig(segwit, signer, nonce, fee, fields, required)
    case OrderIndependent(segwit, signer, nonce, fee, _, required) =>
      OrderIndependent(segwit, signer, nonce, fee, fields, required)
  }

  function WithSponsor(auth: Auth, cond: SpendingCondition): Auth {
    match auth
    case AuthStandard(_) => auth
    case AuthSponsored(origin, _) => AuthSponsored(origin, cond)
  }

  /** Adds a signature and gives the hash the next signer signs. */
  function SignAndAppend(c: Crypto, cond: SpendingCondition, cur: Bytes, flag: byte, k: PrivateKey)
    : Option<(SpendingCondition, Bytes)>
  {
    match NextSignature(c, cur, ScopeOf(cond, flag), k)
    case None => None
    case Some((sig, next)) =>
      if cond.Singlesig? then Some((cond.(signature := sig), next))
      else
        Some((WithFields(cond, cond.fields + [SignatureField(k.compressed, sig)]), if cond.Multisig? then next else cur))
  }

  function AppendPubkey(cond: SpendingCondition, key: PublicKey): Option<SpendingCondition> {
    if cond.Singlesig? then None
    else Some(WithFields(cond, cond.fields + [KeyField(key.point, key.compressed)]))
  }

  /** Takes back the last field, or the only signature unless it is empty. */
  function PopField(cond: SpendingCondition): SpendingCondition {
    if cond.Singlesig? then cond.(signature := EmptySignature())
    else if cond.fields == [] then cond
    else WithFields(cond, cond.fields[..|cond.fields| - 1])
  }

  function Clear(cond: SpendingCondition): SpendingCondition {
    if cond.Singlesig? then cond.(fee := 0, nonce := 0, signature := EmptySignature())
    else cond.(fee := 0, nonce := 0, fields := [])
  }

  /** The stand-in for a sponsor the origin knows nothing about. */
  function Sentinel(): SpendingCondition {
    Singlesig(false, seq(20, _ => 0), 0, 0, true, EmptySignature())
  }

  function InitialAuth(auth: Auth): Auth {
    match auth
    case AuthStandard(origin) => AuthStandard(Clear(origin))
    case AuthSponsored(origin, _) => AuthSponsored(Clear(origin), Sentinel())
  }

  /** The hash signing and verifying start from. */
  function InitialSighash(c: Crypto, tx: Transaction): Bytes {
    c.txid(tx.(auth := InitialAuth(tx.auth)))
  }

  function VerifyOrigin(c: Crypto, tx: Transaction, allowHighS: bool): AuthResult {
    VerifyCondition(c, tx.auth.origin, InitialSighash(c, tx), AUTH_STANDARD, allowHighS)
  }

  function Verify(c: Crypto, tx: Transaction, allowHighS: bool): AuthResult {
    var origin := VerifyOrigin(c, tx, allowHighS);
    if origin.Rejected? || tx.auth.AuthStandard? then origin
    else VerifyCondition(c, tx.auth.sponsor, origin.sighash, AUTH_SPONSORED, allowHighS)
  }

  // ---------- Everything that changes an authorization ----------

  datatype Op =
    | SignOrigin(cur: Bytes, key: PrivateKey)
    | AppendOrigin(pubkey: PublicKey)
    | SignSponsor(cur: Bytes, key: PrivateKey)
    | AppendSponsor(pubkey: PublicKey)
    | PopOrigin
    | PopSponsor
    | SetOriginNonce(nonce: u64)
    | SetSponsorNonce(nonce: u64)
    | SetFee(fee: u64)
    | SetSponsor(condition: SpendingCondition)

  datatype Outcome = Done(auth: Auth) | Signed(auth: Auth, next: Bytes) | Refused

  function Apply(c: Crypto, auth: Auth, op: Op): Outcome {
    match op
    case SignOrigin(cur, k) =>
      (match SignAndAppend(c, auth.origin, cur, AUTH_STANDARD, k)
       case None => Refused
       case Some((cond, next)) => Signed(auth.(origin := cond), next))
    case AppendOrigin(key) =>
      (match AppendPubkey(auth.origin, key)
       case None => Refused
       case Some(cond) => Done(auth.(origin := cond)))
    case SignSponsor(cur, k) =>
      if auth.AuthStandard? then Refused else
      (match SignAndAppend(c, auth.sponsor, cur, AUTH_SPONSORED, k)
       case None => Refused
       case Some((cond, next)) => Signed(WithSponsor(auth, cond), next))
    case AppendSponsor(key) =>
      if auth.AuthStandard? then Refused else
      (match AppendPubkey(auth.sponsor, key)
       case None => Refused
       case Some(cond) => Done(WithSponsor(auth, cond)))
    case PopOrigin => Done(auth.(origin := PopField(auth.origin)))
    case PopSponsor => if auth.AuthStandard? then Refused else Done(WithSponsor(auth, PopField(auth.sponsor)))
    case SetOriginNonce(n) => Done(auth.(origin := auth.origin.(nonce := n)))
    case SetSponsorNonce(n) =>
      if auth.AuthStandard? then Refused else Done(WithSponsor(auth, auth.sponsor.(nonce := n)))
    case SetFee(fee) =>
      if auth.AuthStandard? then Done(AuthStandard(auth.origin.(fee := fee)))
      else Done(WithSponsor(auth, auth.sponsor.(fee := fee)))
    case SetSponsor(cond) => if auth.AuthStandard? then Refused else Done(WithSponsor(auth, cond))
  }

  function AuthAfter(auth: Auth, outcome: Outcome): Auth {
    if outcome.Refused? then auth else outcome.auth
  }

  /** A transaction whose authorization is filled in step by step; nothing else about it changes. */
  class StacksTransaction {
    const version: byte
    const chainId: u32
    var auth: Auth
    const anchorMode: byte
    const postConditionMode: byte
    const postConditions: seq<PostCondition>
    const payload: Payload

    constructor (tx: Transaction)
      ensures Value() == tx
    {
      version, chainId, auth, anchorMode := tx.version, tx.chainId, tx.auth, tx.anchorMode;
      postConditionMode, postConditions, payload := tx.postConditionMode, tx.postConditions, tx.payload;
    }

    function Value(): Transaction
      reads this
    {
      Transaction(version, chainId, auth, anchorMode, postConditionMode, postConditions, payload)
    }

    method SignNextOrigin(c: Crypto, cur: Bytes, k: PrivateKey) returns (next: Option<Bytes>)
      modifies this`auth
      ensures auth == AuthAfter(old(auth), Apply(c, old(auth), SignOrigin(cur, k)))
      ensures next == if Apply(c, old(auth), SignOrigin(cur, k)).Signed?
                      then Some(Apply(c, old(auth), SignOrigin(cur, k)).next) else None
    {
      var condition;
      condition, next := AddSignature(c, auth.origin, cur, AUTH_STANDARD, k);
      auth := auth.(origin := condition);
    }

    method SignNextSponsor(c: Crypto, cur: Bytes, k: PrivateKey) returns (next: Option<Bytes>)
      modifies this`auth
      ensures auth == AuthAfter(old(auth), Apply(c, old(auth), SignSponsor(cur, k)))
      ensures next == if Apply(c, old(auth), SignSponsor(cur, k)).Signed?
                      then Some(Apply(c, old(auth), SignSponsor(cur, k)).next) else None
    {
      if auth.AuthStandard? {
        return None;
      }
      var condition;
      condition, next := AddSignature(c, auth.sponsor, cur, AUTH_SPONSORED, k);
      auth := AuthSponsored(auth.origin, condition);
    }

    method AppendNextOrigin(c: Crypto, key: PublicKey) returns (ok: bool)
      modifies this`auth
      ensures auth == AuthAfter(old(auth), Apply(c, old(auth), AppendOrigin(key)))
      ensures ok <==> Apply(c, old(auth), AppendOrigin(key)).Done?
    {
      var appended := AppendPubkey(auth.origin, key);
      ok := appended.Some?;
      if ok {
        auth := auth.(origin := appended.value);
      }
    }

    method AppendNextSponsor(c: Crypto, key: PublicKey) returns (ok: bool)
      modifies this`auth
      ensures auth == AuthAfter(old(auth), Apply(c, old(auth), AppendSponsor(key)))
      ensures ok <==> Apply(c, old(auth), AppendSponsor(key)).Done?
    {
      if auth.AuthStandard? {
        return false;
      }
      var appended := AppendPubkey(auth.sponsor, key);
      ok := appended.Some?;
      if ok {
        auth := AuthSponsored(auth.origin, appended.value);
      }
    }

    /** A sponsored transaction's fee is the sponsor's. */
    method SetTxFee(c: Crypto, fee: u64)
      modifies this`auth
      ensures auth == Apply(c, old(auth), SetFee(fee)).auth
    {
      match auth
      case AuthStandard(origin) => auth := AuthStandard(origin.(fee := fee));
      case AuthSponsored(origin, sponsor) => auth := AuthSponsored(origin, sponsor.(fee := fee));
    }

    method ReplaceSponsor(c: Crypto, cond: SpendingCondition) returns (ok: bool)
      modifies this`auth
      ensures auth == AuthAfter(old(auth), Apply(c, old(auth), SetSponsor(cond)))
      ensures ok <==> old(auth).AuthSponsored?
    {
      match auth
      case AuthStandard(_) => ok := false;
      case AuthSponsored(origin, _) => auth, ok := AuthSponsored(origin, cond), true;
    }

    method VerifySignatures(c: Crypto, allowHighS: bool) returns (r: AuthResult)
      ensures r == Verify(c, Value(), allowHighS)
    {
      var initial := InitialSighash(c, Value());
      r := VerifyOne(c, auth.origin, initial, AUTH_STANDARD, allowHighS);
      if r.Verified? && auth.AuthSponsored? {
        r := VerifyOne(c, auth.sponsor, r.sighash, AUTH_SPONSORED, allowHighS);
      }
    }
  }

  /** Signs the current hash and pushes the signature; on failure the condition stays as it was. */
  method AddSignature(c: Crypto, cond: SpendingCondition, cur: Bytes, flag: byte, k: PrivateKey)
    returns (after: SpendingCondition, next: Option<Bytes>)
    ensures var r := SignAndAppend(c, cond, cur, flag, k);
            if r.Some? then (after, next) == (r.value.0, Some(r.value.1)) else after == cond && next == None
  {
    after := cond;
    match NextSignature(c, cur, Scope(flag, cond.fee, cond.nonce), k)
    case None =>
      next := None;
    case Some((sig, rolled)) =>
      match cond {
        case Singlesig(segwit, signer, nonce, fee, compressed, _) =>
          after, next := Singlesig(segwit, signer, nonce, fee, compressed, sig), Some(rolled);
        case Multisig(_, _, _, _, fields, _) =>
          after, next := WithFields(cond, fields + [SignatureField(k.compressed, sig)]), Some(rolled);
        case OrderIndependent(_, _, _, _, fields, _) =>
          after, next := WithFields(cond, fields + [SignatureField(k.compressed, sig)]), Some(cur);
      }
  }

  method VerifyOne(c: Crypto, cond: SpendingCondition, initial: Bytes, flag: byte, allowHighS: bool)
    returns (r: AuthResult)
    ensures r == VerifyCondition(c, cond, initial, flag, allowHighS)
  {
    if !cond.Singlesig? {
      r := VerifyMultisig(c, cond, initial, flag, allowHighS);
      return;
    }
    match NextVerification(c, initial, Scope(flag, cond.fee, cond.nonce), cond.compressed, cond.signature, allowHighS) {
      case None =>
        return Rejected(RecoveryFailed);
      case Some((key, next)) =>
        match FromPublicKeys(c, ModeOf(cond), 1, [key]) {
          case None =>
            return Rejected(UnsupportedAddress);
          case Some(signer) =>
            if signer != cond.signer {
              return Rejected(SignerMismatch);
            }
            return Verified(next);
        }
    }
  }
}
