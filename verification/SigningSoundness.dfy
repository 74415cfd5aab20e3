/**
  What a verified authorization proves.

  A condition verifies if and only if there are keys, one for each field, and
  hashes, one before each field and one after the last, that belong together:
  a key field stands for its own key, and a signature for the key it recovers
  to on what it covers.  The keys must hash to the signer of the condition, and
  there must be enough signatures.
 */
module SigningSoundness {
  import opened Wire
  import opened Codecs
  import opened SpendingConditions
  import opened Transactions
  import opened Signing

  /** A single signature is a condition with one field. */
  function FieldsOf(cond: SpendingCondition): seq<AuthField> {
    if cond.Singlesig? then [SignatureField(cond.compressed, cond.signature)] else cond.fields
  }

  /** What a signature covers: the hash so far, the role, the fee and the nonce. */
  function Digest(c: Crypto, hash: Bytes, flag: byte, cond: SpendingCondition): Bytes {
    c.hash(hash + [flag] + PutU64(cond.fee) + PutU64(cond.nonce))
  }

  /** The field stands for `key`, and takes the hash from `before` to `after`. */
  predicate StandsFor(
    c: Crypto, cond: SpendingCondition, flag: byte, allowHighS: bool, f: AuthField, key: PublicKey, before: Bytes, after: Bytes)
  {
    match f
    case KeyField(point, compressed) => key == PublicKey(point, compressed) && after == before
    case SignatureField(compressed, sig) =>
      var digest := Digest(c, before, flag, cond);
      && c.recover(allowHighS, digest, sig) == Some(key.point) && key.compressed == compressed
      && after == if cond.OrderIndependent? then before else c.hash(digest + [if compressed then 0 else 1] + sig)
  }

  predicate Chain(
    c: Crypto, cond: SpendingCondition, flag: byte, allowHighS: bool, fields: seq<AuthField>, keys: seq<PublicKey>, hashes: seq<Bytes>)
  {
    && |keys| == |fields| && |hashes| == |fields| + 1
    && forall i | 0 <= i < |fields| :: StandsFor(c, cond, flag, allowHighS, fields[i], keys[i], hashes[i], hashes[i + 1])
  }

  /** Exactly or at least as many signatures as required, and no more than a 16-bit counter can hold. */
  predicate EnoughSignatures(cond: SpendingCondition) {
    match cond
    case Singlesig(_, _, _, _, _, _) => true
    case Multisig(_, _, _, _, fields, required) => |Signatures(fields)| == required
    case OrderIndependent(_, _, _, _, fields, required) => required <= |Signatures(fields)| <= 65535
  }

  /** The keys are those of the signer named in the condition. */
  predicate SignerOwns(c: Crypto, cond: SpendingCondition, keys: seq<PublicKey>) {
    match cond
    case Singlesig(segwit, signer, _, _, _, _) =>
      && |keys| == 1 && (segwit ==> keys[0].compressed)
      && signer == c.addressHash(if segwit then P2WPKH else P2PKH, 1, keys)
    case Multisig(segwit, signer, _, _, _, required) =>
      && |keys| >= required && (segwit ==> forall i | 0 <= i < |keys| :: keys[i].compressed)
      && signer == c.addressHash(if segwit then P2WSH else P2SH, required, keys)
    case OrderIndependent(segwit, signer, _, _, _, required) =>
      && |keys| >= required && (segwit ==> forall i | 0 <= i < |keys| :: keys[i].compressed)
      && signer == c.addressHash(if segwit then P2WSH else P2SH, required, keys)
  }

  /** The holders of `keys` authorized the condition, starting from the first hash and ending with the last. */
  predicate Authorized(
    c: Crypto, cond: SpendingCondition, flag: byte, allowHighS: bool, keys: seq<PublicKey>, hashes: seq<Bytes>)
  {
    && Chain(c, cond, flag, allowHighS, FieldsOf(cond), keys, hashes)
    && EnoughSignatures(cond) && SignerOwns(c, cond, keys)
  }

  // ---------- Counting ----------

  lemma {:induction false} CompressedByKeys(fields: seq<AuthField>, keys: seq<PublicKey>)
    requires |keys| == |fields| && forall i | 0 <= i < |fields| :: keys[i].compressed == fields[i].compressed
    ensures AllCompressed(fields) <==> KeysCompressed(keys)
  {
  }

  // ---------- The scan finds the chain ----------

  predicate Rolls(cond: SpendingCondition) { !cond.OrderIndependent? }

  /** The chain starts at `cur`. */
  predicate ChainFrom(
    c: Crypto, cond: SpendingCondition, flag: byte, allowHighS: bool, cur: Bytes,
    fields: seq<AuthField>, keys: seq<PublicKey>, hashes: seq<Bytes>)
  {
    Chain(c, cond, flag, allowHighS, fields, keys, hashes) && hashes[0] == cur
  }

  lemma ChainCons(
    c: Crypto, cond: SpendingCondition, flag: byte, allowHighS: bool, cur: Bytes, f: AuthField, fields: seq<AuthField>,
    key: PublicKey, next: Bytes, keys: seq<PublicKey>, hashes: seq<Bytes>)
    requires StandsFor(c, cond, flag, allowHighS, f, key, cur, next)
    requires ChainFrom(c, cond, flag, allowHighS, next, fields, keys, hashes)
    ensures ChainFrom(c, cond, flag, allowHighS, cur, [f] + fields, [key] + keys, [cur] + hashes)
  {
    var fs, ks, hs := [f] + fields, [key] + keys, [cur] + hashes;
    forall i | 0 <= i < |fs| ensures StandsFor(c, cond, flag, allowHighS, fs[i], ks[i], hs[i], hs[i + 1]) {
      if i > 0 {
        assert fs[i] == fields[i - 1] && ks[i] == keys[i - 1] && hs[i] == hashes[i - 1] && hs[i + 1] == hashes[i];
      }
    }
  }

  lemma ChainTail(
    c: Crypto, cond: SpendingCondition, flag: byte, allowHighS: bool, cur: Bytes, fields: seq<AuthField>,
    keys: seq<PublicKey>, hashes: seq<Bytes>)
    requires fields != [] && ChainFrom(c, cond, flag, allowHighS, cur, fields, keys, hashes)
    ensures StandsFor(c, cond, flag, allowHighS, fields[0], keys[0], cur, hashes[1])
    ensures ChainFrom(c, cond, flag, allowHighS, hashes[1], fields[1..], keys[1..], hashes[1..])
  {
    forall i | 0 <= i < |fields| - 1
      ensures StandsFor(c, cond, flag, allowHighS, fields[1..][i], keys[1..][i], hashes[1..][i], hashes[1..][i + 1])
    {
      assert StandsFor(c, cond, flag, allowHighS, fields[i + 1], keys[i + 1], hashes[i + 1], hashes[i + 2]);
    }
  }

  /** One field of the scan. */
  lemma FieldScanned(c: Crypto, cond: SpendingCondition, flag: byte, allowHighS: bool, f: AuthField, cur: Bytes, key: PublicKey, next: Bytes)
    ensures StandsFor(c, cond, flag, allowHighS, f, key, cur, next) <==>
              match f
              case KeyField(point, compressed) => key == PublicKey(point, compressed) && next == cur
              case SignatureField(compressed, sig) =>
                var v := NextVerification(c, cur, ScopeOf(cond, flag), compressed, sig, allowHighS);
                v.Some? && v.value.0 == key && next == if Rolls(cond) then v.value.1 else cur
  {
  }

  lemma {:induction false} ScanFindsChain(
    c: Crypto, cond: SpendingCondition, flag: byte, allowHighS: bool, cur: Bytes, seen: nat, fields: seq<AuthField>)
    returns (hashes: seq<Bytes>)
    requires ScanKeys(c, Rolls(cond), ScopeOf(cond, flag), allowHighS, cur, seen, fields).Scanned?
    ensures var s := ScanKeys(c, Rolls(cond), ScopeOf(cond, flag), allowHighS, cur, seen, fields);
            ChainFrom(c, cond, flag, allowHighS, cur, fields, s.keys, hashes) && hashes[|fields|] == s.sighash
    ensures seen <= MAX_U16 ==> seen + NumSignatures(fields) <= MAX_U16
    decreases fields
  {
    if fields == [] {
      hashes := [cur];
    } else {
      NumSignaturesFront(fields);
      var f, rest := fields[0], fields[1..];
      var key, next := FirstScanned(c, cond, flag, allowHighS, cur, seen, fields);
      var more := if f.SignatureField? then seen + 1 else seen;
      var later := ScanFindsChain(c, cond, flag, allowHighS, next, more, rest);
      hashes := [cur] + later;
      ChainCons(c, cond, flag, allowHighS, cur, f, rest, key, next,
                ScanKeys(c, Rolls(cond), ScopeOf(cond, flag), allowHighS, next, more, rest).keys, later);
      assert [f] + rest == fields;
    }
  }

  lemma FirstScanned(c: Crypto, cond: SpendingCondition, flag: byte, allowHighS: bool, cur: Bytes, seen: nat, fields: seq<AuthField>)
    returns (key: PublicKey, next: Bytes)
    requires fields != [] && ScanKeys(c, Rolls(cond), ScopeOf(cond, flag), allowHighS, cur, seen, fields).Scanned?
    ensures StandsFor(c, cond, flag, allowHighS, fields[0], key, cur, next)
    ensures fields[0].SignatureField? ==> seen < MAX_U16
    ensures var more := if fields[0].SignatureField? then seen + 1 else seen;
            ScanKeys(c, Rolls(cond), ScopeOf(cond, flag), allowHighS, cur, seen, fields) ==
              Prepend(key, ScanKeys(c, Rolls(cond), ScopeOf(cond, flag), allowHighS, next, more, fields[1..]))
  {
    match fields[0] {
      case KeyField(point, compressed) => key, next := PublicKey(point, compressed), cur;
      case SignatureField(compressed, sig) =>
        var v := NextVerification(c, cur, ScopeOf(cond, flag), compressed, sig, allowHighS).value;
        key, next := v.0, if Rolls(cond) then v.1 else cur;
    }
    FieldScanned(c, cond, flag, allowHighS, fields[0], cur, key, next);
  }

  lemma {:induction false} ChainScans(
    c: Crypto, cond: SpendingCondition, flag: byte, allowHighS: bool, cur: Bytes, seen: nat, fields: seq<AuthField>,
    keys: seq<PublicKey>, hashes: seq<Bytes>)
    requires ChainFrom(c, cond, flag, allowHighS, cur, fields, keys, hashes) && seen + NumSignatures(fields) <= MAX_U16
    ensures ScanKeys(c, Rolls(cond), ScopeOf(cond, flag), allowHighS, cur, seen, fields) == Scanned(keys, hashes[|fields|])
    decreases fields
  {
    if fields != [] {
      NumSignaturesFront(fields);
      ChainTail(c, cond, flag, allowHighS, cur, fields, keys, hashes);
      FieldScanned(c, cond, flag, allowHighS, fields[0], cur, keys[0], hashes[1]);
      ChainScans(c, cond, flag, allowHighS, hashes[1], if fields[0].SignatureField? then seen + 1 else seen,
                 fields[1..], keys[1..], hashes[1..]);
      assert keys == [keys[0]] + keys[1..];
    }
  }

  lemma ChainCompressed(
    c: Crypto, cond: SpendingCondition, flag: byte, allowHighS: bool, fields: seq<AuthField>, keys: seq<PublicKey>, hashes: seq<Bytes>)
    requires Chain(c, cond, flag, allowHighS, fields, keys, hashes)
    ensures AllCompressed(fields) <==> KeysCompressed(keys)
  {
    forall i | 0 <= i < |fields| ensures keys[i].compressed == fields[i].compressed {
      assert StandsFor(c, cond, flag, allowHighS, fields[i], keys[i], hashes[i], hashes[i + 1]);
    }
    CompressedByKeys(fields, keys);
  }

  // ---------- Conditions ----------

  lemma SinglesigChain(c: Crypto, cond: SpendingCondition, flag: byte, allowHighS: bool, key: PublicKey, cur: Bytes, next: Bytes)
    requires cond.Singlesig? && StandsFor(c, cond, flag, allowHighS, FieldsOf(cond)[0], key, cur, next)
    ensures Chain(c, cond, flag, allowHighS, FieldsOf(cond), [key], [cur, next])
  {
  }

  /** A condition that verifies was authorized by the keys of its signer. */
  lemma VerifiedIsAuthorized(c: Crypto, cond: SpendingCondition, initial: Bytes, flag: byte, allowHighS: bool)
    returns (keys: seq<PublicKey>, hashes: seq<Bytes>)
    requires VerifyCondition(c, cond, initial, flag, allowHighS).Verified?
    ensures Authorized(c, cond, flag, allowHighS, keys, hashes) && hashes[0] == initial
    ensures VerifyCondition(c, cond, initial, flag, allowHighS) == Verified(hashes[|hashes| - 1])
  {
    if cond.Singlesig? {
      var v := NextVerification(c, initial, ScopeOf(cond, flag), cond.compressed, cond.signature, allowHighS).value;
      keys, hashes := [v.0], [initial, v.1];
      FieldScanned(c, cond, flag, allowHighS, FieldsOf(cond)[0], initial, v.0, v.1);
      SinglesigChain(c, cond, flag, allowHighS, v.0, initial, v.1);
      assert KeysCompressed(keys) ==> keys[0].compressed;
    } else {
      keys := ScanKeys(c, cond.Multisig?, ScopeOf(cond, flag), allowHighS, initial, 0, cond.fields).keys;
      hashes := ScanFindsChain(c, cond, flag, allowHighS, initial, 0, cond.fields);
      SignaturesCounted(cond.fields);
    }
  }

  /** And what is authorized verifies. */
  lemma AuthorizedVerifies(
    c: Crypto, cond: SpendingCondition, flag: byte, allowHighS: bool, keys: seq<PublicKey>, hashes: seq<Bytes>)
    requires Authorized(c, cond, flag, allowHighS, keys, hashes)
    ensures VerifyCondition(c, cond, hashes[0], flag, allowHighS) == Verified(hashes[|hashes| - 1])
  {
    var fields := FieldsOf(cond);
    if cond.Singlesig? {
      assert StandsFor(c, cond, flag, allowHighS, fields[0], keys[0], hashes[0], hashes[1]);
      FieldScanned(c, cond, flag, allowHighS, fields[0], hashes[0], keys[0], hashes[1]);
      assert keys == [keys[0]];
    } else {
      SignaturesCounted(fields);
      ChainScans(c, cond, flag, allowHighS, hashes[0], 0, fields, keys, hashes);
      ChainCompressed(c, cond, flag, allowHighS, fields, keys, hashes);
    }
  }

  // ---------- Transactions ----------

  /** The origin is authorized from the starting hash as role 4, and the sponsor, if any, from where the origin ended, as role 5. */
  predicate TransactionAuthorized(
    c: Crypto, tx: Transaction, allowHighS: bool,
    originKeys: seq<PublicKey>, originHashes: seq<Bytes>, sponsorKeys: seq<PublicKey>, sponsorHashes: seq<Bytes>)
  {
    && Authorized(c, tx.auth.origin, 4, allowHighS, originKeys, originHashes)
    && originHashes[0] == InitialSighash(c, tx)
    && (tx.auth.AuthSponsored? ==>
          && Authorized(c, tx.auth.sponsor, 5, allowHighS, sponsorKeys, sponsorHashes)
          && sponsorHashes[0] == originHashes[|originHashes| - 1])
  }

  /** A transaction that verifies was authorized by the keys of its origin and, if it has one, of its sponsor. */
  lemma TransactionSound(c: Crypto, tx: Transaction, allowHighS: bool)
    returns (originKeys: seq<PublicKey>, originHashes: seq<Bytes>, sponsorKeys: seq<PublicKey>, sponsorHashes: seq<Bytes>)
    requires Verify(c, tx, allowHighS).Verified?
    ensures TransactionAuthorized(c, tx, allowHighS, originKeys, originHashes, sponsorKeys, sponsorHashes)
  {
    originKeys, originHashes := VerifiedIsAuthorized(c, tx.auth.origin, InitialSighash(c, tx), 4, allowHighS);
    sponsorKeys, sponsorHashes := [], [];
    if tx.auth.AuthSponsored? {
      sponsorKeys, sponsorHashes :=
        VerifiedIsAuthorized(c, tx.auth.sponsor, originHashes[|originHashes| - 1], 5, allowHighS);
    }
  }

  lemma TransactionSufficient(
    c: Crypto, tx: Transaction, allowHighS: bool,
    originKeys: seq<PublicKey>, originHashes: seq<Bytes>, sponsorKeys: seq<PublicKey>, sponsorHashes: seq<Bytes>)
    requires TransactionAuthorized(c, tx, allowHighS, originKeys, originHashes, sponsorKeys, sponsorHashes)
    ensures Verify(c, tx, allowHighS) ==
              Verified(if tx.auth.AuthSponsored? then sponsorHashes[|sponsorHashes| - 1] else originHashes[|originHashes| - 1])
  {
    AuthorizedVerifies(c, tx.auth.origin, 4, allowHighS, originKeys, originHashes);
    if tx.auth.AuthSponsored? {
      AuthorizedVerifies(c, tx.auth.sponsor, 5, allowHighS, sponsorKeys, sponsorHashes);
    }
  }
}
