/**
  What the starting hash of a transaction commits to.

  The starting hash is the transaction identifier, a hash of the encoding, of
  the transaction with its authorization cleared.  A cleared condition with
  several signatures is one the decoder would refuse, so that encodings differ
  is shown from their bytes.
 */
module SighashLaws {
  import opened Wire
  import opened Codecs
  import opened Values
  import opened SpendingConditions
  import opened Transactions
  import opened TransactionLaws
  import opened WireLayout
  import opened Signing
  import opened SigningLaws

  /** Identifiers are hashes of encodings. */
  ghost predicate TxidLaw(env: Env, c: Crypto) {
    forall tx :: c.txid(tx) == c.hash(Encode(env, tx))
  }

  lemma SameLength(a: Bytes, s: Bytes, b: Bytes, t: Bytes)
    requires |a| == |b| && a + s == b + t
    ensures a == b && s == t
  {
    assert (a + s)[..|a|] == a && (b + t)[..|b|] == b;
    assert (a + s)[|a|..] == s && (b + t)[|b|..] == t;
  }

  predicate IsCleared(c: SpendingCondition) {
    |c.signer| == 20 && c == Clear(c)
  }

  function ClearedLen(c: SpendingCondition): nat { if c.Singlesig? then 103 else 43 }

  /** What every cleared condition starts with: its mode, its signer, and no nonce or fee. */
  function ClearedHead(c: SpendingCondition): (h: Bytes)
    requires |c.signer| == 20
    ensures |h| == 37 && h[0] == HashMode(c) && h[1..21] == c.signer
  {
    HeadPlaces(HashMode(c), c.signer, PutU64(0), PutU64(0));
    [HashMode(c)] + c.signer + PutU64(0) + PutU64(0)
  }

  lemma HeadPlaces(mode: byte, signer: Bytes, nonce: Bytes, fee: Bytes)
    requires |signer| == 20 && |nonce| == 8 && |fee| == 8
    ensures var h := [mode] + signer + nonce + fee;
            |h| == 37 && h[0] == mode && h[1..21] == signer
  {
    var m := [mode] + signer;
    assert m[1..21] == signer;
    Assoc(m, nonce, fee);
    FrontStays(m, nonce + fee);
  }

  lemma FrontStays(m: Bytes, t: Bytes)
    requires |m| == 21
    ensures (m + t)[0] == m[0] && (m + t)[1..21] == m[1..21]
  {
  }

  lemma HeadStays(h: Bytes, t: Bytes)
    requires |h| == 37
    ensures (h + t)[0] == h[0] && (h + t)[1..21] == h[1..21] && (h + t)[37..] == t
  {
  }

  function ClearedTail(c: SpendingCondition): (t: Bytes)
    ensures |t| == ClearedLen(c) - 37
    ensures c.Singlesig? ==> t[0] == if c.compressed then 0 else 1
    ensures !c.Singlesig? ==> t[4..6] == PutU16(c.required)
  {
    if c.Singlesig? then [if c.compressed then 0 else 1] + EmptySignature() else PutU32(0) + PutU16(c.required)
  }

  lemma SinglesigBytes(c: SpendingCondition)
    requires IsCleared(c) && c.Singlesig?
    ensures BytesOfCondition(c) == ClearedHead(c) + ClearedTail(c)
  {
    Assoc(ClearedHead(c), [if c.compressed then 0 else 1], EmptySignature());
  }

  lemma MultisigBytes(c: SpendingCondition)
    requires IsCleared(c) && !c.Singlesig?
    ensures BytesOfCondition(c) == ClearedHead(c) + ClearedTail(c)
  {
    assert PutMany(BytesOfField, c.fields) == [];
    assert BytesOfMany(BytesOfField, c.fields) == PutU32(0);
    Assoc(ClearedHead(c), PutU32(0), PutU16(c.required));
  }

  /** The layout of a cleared condition: its length depends only on its kind, and every field has its place. */
  lemma ClearedLayout(c: SpendingCondition)
    requires IsCleared(c)
    ensures var b := BytesOfCondition(c);
            && |b| == ClearedLen(c) && b[0] == HashMode(c) && b[1..21] == c.signer && b[37..] == ClearedTail(c)
  {
    if c.Singlesig? {
      SinglesigBytes(c);
    } else {
      MultisigBytes(c);
    }
    HeadStays(ClearedHead(c), ClearedTail(c));
  }

  lemma ClearedPrefixFree(x: SpendingCondition, y: SpendingCondition, s: Bytes, t: Bytes)
    requires IsCleared(x) && IsCleared(y) && BytesOfCondition(x) + s == BytesOfCondition(y) + t
    ensures x == y && s == t
  {
    var a, b := BytesOfCondition(x), BytesOfCondition(y);
    ClearedLayout(x);
    ClearedLayout(y);
    assert (a + s)[0] == a[0] && (b + t)[0] == b[0];
    SameLength(a, s, b, t);
    assert ClearedTail(x) == ClearedTail(y);
    if !x.Singlesig? {
      ReadU16Put(x.required, []);
      ReadU16Put(y.required, []);
    }
  }

  predicate AuthCleared(a: Auth) {
    IsCleared(a.origin) && (a.AuthSponsored? ==> IsCleared(a.sponsor))
  }

  lemma AuthPrefixFree(x: Auth, y: Auth, s: Bytes, t: Bytes)
    requires AuthCleared(x) && AuthCleared(y) && BytesOfAuth(x) + s == BytesOfAuth(y) + t
    ensures x == y && s == t
  {
    assert (BytesOfAuth(x) + s)[0] == BytesOfAuth(x)[0] && (BytesOfAuth(y) + t)[0] == BytesOfAuth(y)[0];
    var m, n := BytesOfCondition(x.origin), BytesOfCondition(y.origin);
    if x.AuthStandard? {
      Assoc([4], m, s);
      Assoc([4], n, t);
      SameLength([4], m + s, [4], n + t);
      ClearedPrefixFree(x.origin, y.origin, s, t);
    } else {
      var p, q := BytesOfCondition(x.sponsor), BytesOfCondition(y.sponsor);
      SponsoredBytes(m, p, s);
      SponsoredBytes(n, q, t);
      SameLength([5], m + (p + s), [5], n + (q + t));
      ClearedPrefixFree(x.origin, y.origin, p + s, q + t);
      ClearedPrefixFree(x.sponsor, y.sponsor, s, t);
    }
  }

  lemma SponsoredBytes(m: Bytes, p: Bytes, s: Bytes)
    ensures [5] + m + p + s == [5] + (m + (p + s))
  {
    Assoc([5], m, p);
    Assoc([5], m + p, s);
    Assoc(m, p, s);
  }

  /** The encoding of a transaction, field after field. */
  lemma EncodeNested(env: Env, tx: Transaction)
    ensures Encode(env, tx) ==
              [tx.version] + (PutU32(tx.chainId) + (BytesOfAuth(tx.auth) + ([tx.anchorMode] + ([tx.postConditionMode]
              + (PartsOf(env).postConditions.put(tx.postConditions) + PartsOf(env).payload.put(tx.payload))))))
  {
    var condition := ConditionCodec(FieldsCodec(env.keys));
    ConditionLayout(env, tx.auth.origin);
    if tx.auth.AuthSponsored? {
      ConditionLayout(env, tx.auth.sponsor);
    }
    AuthLayout(condition, tx.auth);
    EnvelopeNested(PartsOf(env), tx);
  }

  lemma EnvelopeNested(parts: Parts, tx: Transaction)
    ensures EnvelopeCodec(parts).put(tx) ==
              [tx.version] + (PutU32(tx.chainId) + (parts.auth.put(tx.auth) + ([tx.anchorMode] + ([tx.postConditionMode]
              + (parts.postConditions.put(tx.postConditions) + parts.payload.put(tx.payload))))))
  {
  }

  /** Everything that is not authorization is well formed. */
  predicate RestWellFormed(env: Env, tx: Transaction) {
    && ListFits(env.postConditionSize, |tx.postConditions|)
    && (forall i | 0 <= i < |tx.postConditions| :: PostConditionWellFormed(env, tx.postConditions[i]))
    && PayloadWellFormed(env, tx.payload)
  }

  lemma RestPrefixFree(env: Env, x: Transaction, y: Transaction)
    requires EnvLaw(env) && RestWellFormed(env, x) && RestWellFormed(env, y)
    requires var p := PartsOf(env);
             p.postConditions.put(x.postConditions) + p.payload.put(x.payload) ==
             p.postConditions.put(y.postConditions) + p.payload.put(y.payload)
    ensures x.postConditions == y.postConditions && x.payload == y.payload
  {
    var p := PartsOf(env);
    PostConditionsLawful(env);
    PostConditionsCarried(env, x.postConditions);
    PostConditionsCarried(env, y.postConditions);
    PrefixFree(p.postConditions, x.postConditions, y.postConditions, p.payload.put(x.payload), p.payload.put(y.payload));
    ValuePartLawful(env);
    StringLawful();
    PayloadLawful(env, StringCodec(), ValueCodec(env.values), ArgsCodec(env));
    PayloadCarried(env, x.payload);
    PayloadCarried(env, y.payload);
    assert p.payload.put(x.payload) + [] == p.payload.put(y.payload) + [];
    PrefixFree(p.payload, x.payload, y.payload, [], []);
  }

  /** Transactions with cleared authorizations are told apart by their encodings. */
  lemma ClearedEncodingsDiffer(env: Env, x: Transaction, y: Transaction)
    requires EnvLaw(env) && RestWellFormed(env, x) && RestWellFormed(env, y) && AuthCleared(x.auth) && AuthCleared(y.auth)
    requires Encode(env, x) == Encode(env, y)
    ensures x == y
  {
    var p := PartsOf(env);
    var xs := p.postConditions.put(x.postConditions) + p.payload.put(x.payload);
    var ys := p.postConditions.put(y.postConditions) + p.payload.put(y.payload);
    EncodeNested(env, x);
    EncodeNested(env, y);
    FieldsAgree(x, xs, y, ys);
    RestPrefixFree(env, x, y);
  }

  lemma FieldsAgree(x: Transaction, xs: Bytes, y: Transaction, ys: Bytes)
    requires AuthCleared(x.auth) && AuthCleared(y.auth)
    requires [x.version] + (PutU32(x.chainId) + (BytesOfAuth(x.auth) + ([x.anchorMode] + ([x.postConditionMode] + xs)))) ==
             [y.version] + (PutU32(y.chainId) + (BytesOfAuth(y.auth) + ([y.anchorMode] + ([y.postConditionMode] + ys))))
    ensures x.version == y.version && x.chainId == y.chainId && x.auth == y.auth
    ensures x.anchorMode == y.anchorMode && x.postConditionMode == y.postConditionMode && xs == ys
  {
    var x1, y1 := [x.postConditionMode] + xs, [y.postConditionMode] + ys;
    var x2, y2 := [x.anchorMode] + x1, [y.anchorMode] + y1;
    var x3, y3 := BytesOfAuth(x.auth) + x2, BytesOfAuth(y.auth) + y2;
    SameLength([x.version], PutU32(x.chainId) + x3, [y.version], PutU32(y.chainId) + y3);
    SameLength(PutU32(x.chainId), x3, PutU32(y.chainId), y3);
    ReadU32Put(x.chainId, []);
    ReadU32Put(y.chainId, []);
    AuthPrefixFree(x.auth, y.auth, x2, y2);
    SameLength([x.anchorMode], x1, [y.anchorMode], y1);
    SameLength([x.postConditionMode], xs, [y.postConditionMode], ys);
  }

  function Initial(tx: Transaction): Transaction { tx.(auth := InitialAuth(tx.auth)) }

  lemma InitialIsCleared(env: Env, tx: Transaction)
    requires WellFormed(env, tx)
    ensures RestWellFormed(env, Initial(tx)) && AuthCleared(InitialAuth(tx.auth))
  {
  }

  lemma SighashesDiffer(env: Env, c: Crypto, x: Transaction, y: Transaction)
    requires EnvLaw(env) && TxidLaw(env, c) && WellFormed(env, x) && WellFormed(env, y)
    requires !Collide(c, Encode(env, Initial(x)), Encode(env, Initial(y)))
    ensures InitialSighash(c, x) == InitialSighash(c, y) <==> Initial(x) == Initial(y)
  {
    var a, b := Initial(x), Initial(y);
    assert c.txid(a) == c.hash(Encode(env, a)) && c.txid(b) == c.hash(Encode(env, b));
    if c.hash(Encode(env, a)) == c.hash(Encode(env, b)) {
      InitialIsCleared(env, x);
      InitialIsCleared(env, y);
      ClearedEncodingsDiffer(env, a, b);
    }
  }

  /**
    Two well-formed transactions start from the same hash exactly when they agree in everything but
    the authorization, are both sponsored or both not, and have the same origin account, unless their
    encodings collide.
   */
  lemma InitialSighashCommits(env: Env, c: Crypto, x: Transaction, y: Transaction)
    requires EnvLaw(env) && TxidLaw(env, c) && WellFormed(env, x) && WellFormed(env, y)
    requires !Collide(c, Encode(env, Initial(x)), Encode(env, Initial(y)))
    ensures InitialSighash(c, x) == InitialSighash(c, y) <==>
              && x.(auth := y.auth) == y
              && (x.auth.AuthStandard? <==> y.auth.AuthStandard?) && SameAccount(x.auth.origin, y.auth.origin)
  {
    SighashesDiffer(env, c, x, y);
    InitialAuthCommits(x.auth, y.auth);
  }

  /** On the wire the stand-in for a sponsor is a hundred and three zero bytes. */
  lemma SentinelBytes()
    ensures BytesOfCondition(Sentinel()) == seq(103, _ => 0)
  {
    var c := Sentinel();
    SinglesigBytes(c);
    var h, t := ClearedHead(c), ClearedTail(c);
    ZeroNumber();
    assert forall i | 0 <= i < 37 :: h[i] == 0;
    assert forall i | 0 <= i < 66 :: t[i] == 0;
  }

  lemma ZeroNumber()
    ensures PutU64(0) == seq(8, _ => 0)
  {
    forall i: nat | i < 8 ensures PutU64(0)[i] == 0 {
      BigEndianAt(8, 0, i);
    }
  }
}
