/**
  What signing and verifying promise each other: the starting hash does not
  depend on anything filled in while signing, what is signed in key order is
  accepted, the sponsor can be chosen after the origin has signed, and what the
  decoder lets through passes all of the verifier's checks but the two that
  need the keys.
 */
module SigningLaws {
  import opened Wire
  import opened Codecs
  import opened SpendingConditions
  import opened Transactions
  import opened Signing

  // ---------- The starting hash ----------

  function RunOps(c: Crypto, auth: Auth, ops: seq<Op>): Auth
    decreases ops
  {
    if ops == [] then auth else RunOps(c, AuthAfter(auth, Apply(c, auth, ops[0])), ops[1..])
  }

  /** The two conditions belong to the same account: everything but nonce, fee and signatures agrees. */
  predicate SameAccount(a: SpendingCondition, b: SpendingCondition) {
    && a.segwit == b.segwit && a.signer == b.signer
    && match (a, b)
       case (Singlesig(_, _, _, _, x, _), Singlesig(_, _, _, _, y, _)) => x == y
       case (Multisig(_, _, _, _, _, x), Multisig(_, _, _, _, _, y)) => x == y
       case (OrderIndependent(_, _, _, _, _, x), OrderIndependent(_, _, _, _, _, y)) => x == y
       case _ => false
  }

  /** The starting hash commits to the origin account and to being sponsored, and to nothing else of the authorization. */
  lemma InitialAuthCommits(a: Auth, b: Auth)
    ensures InitialAuth(a) == InitialAuth(b) <==> (a.AuthStandard? <==> b.AuthStandard?) && SameAccount(a.origin, b.origin)
  {
  }

  lemma StepKeepsInitialAuth(c: Crypto, auth: Auth, op: Op)
    ensures InitialAuth(AuthAfter(auth, Apply(c, auth, op))) == InitialAuth(auth)
  {
  }

  /** No sequence of signing, appending, popping, nonce, fee and sponsor steps changes the starting hash. */
  lemma {:induction false} InitialSighashInvariant(c: Crypto, tx: Transaction, ops: seq<Op>)
    ensures InitialSighash(c, tx.(auth := RunOps(c, tx.auth, ops))) == InitialSighash(c, tx)
    decreases ops
  {
    if ops != [] {
      var next := AuthAfter(tx.auth, Apply(c, tx.auth, ops[0]));
      StepKeepsInitialAuth(c, tx.auth, ops[0]);
      InitialSighashInvariant(c, tx.(auth := next), ops[1..]);
    }
  }

  /** Steps that concern only the sponsor; the fee is the sponsor's when there is one. */
  predicate SponsorStep(op: Op) {
    op.SignSponsor? || op.AppendSponsor? || op.PopSponsor? || op.SetSponsorNonce? || op.SetSponsor? || op.SetFee?
  }

  lemma {:induction false} SponsorStepsKeepOrigin(c: Crypto, auth: Auth, ops: seq<Op>)
    requires auth.AuthSponsored? && forall i | 0 <= i < |ops| :: SponsorStep(ops[i])
    ensures RunOps(c, auth, ops).AuthSponsored? && RunOps(c, auth, ops).origin == auth.origin
    decreases ops
  {
    if ops != [] {
      assert SponsorStep(ops[0]);
      SponsorStepsKeepOrigin(c, AuthAfter(auth, Apply(c, auth, ops[0])), ops[1..]);
    }
  }

  /** Whatever is done to the sponsor, the origin's signatures verify to the same result. */
  lemma OriginIgnoresSponsor(c: Crypto, tx: Transaction, ops: seq<Op>, allowHighS: bool)
    requires tx.auth.AuthSponsored? && forall i | 0 <= i < |ops| :: SponsorStep(ops[i])
    ensures VerifyOrigin(c, tx.(auth := RunOps(c, tx.auth, ops)), allowHighS) == VerifyOrigin(c, tx, allowHighS)
  {
    SponsorStepsKeepOrigin(c, tx.auth, ops);
    InitialSighashInvariant(c, tx, ops);
  }

  predicate Collide(c: Crypto, a: Bytes, b: Bytes) { a != b && c.hash(a) == c.hash(b) }

  /** What is signed determines the hash so far, the role, the fee and the nonce, unless the hash function collides. */
  lemma PresignBinds(c: Crypto, x: Bytes, s: Scope, y: Bytes, t: Scope)
    requires |x| == |y| && Presign(c, x, s) == Presign(c, y, t)
    requires !Collide(c, PresignInput(x, s), PresignInput(y, t))
    ensures x == y && s == t
  {
    var a, b := PresignInput(x, s), PresignInput(y, t);
    var n := |x|;
    assert a[..n] == x && b[..n] == y && a[n] == s.flag && b[n] == t.flag;
    assert a[n + 1..n + 9] == PutU64(s.fee) && b[n + 1..n + 9] == PutU64(t.fee);
    assert a[n + 9..] == PutU64(s.nonce) && b[n + 9..] == PutU64(t.nonce);
    ReadU64Put(s.fee, []);
    ReadU64Put(t.fee, []);
    ReadU64Put(s.nonce, []);
    ReadU64Put(t.nonce, []);
  }

  /** The hash after a signature determines what was signed, the key's encoding and the signature, unless the hash function collides. */
  lemma PostsignBinds(c: Crypto, x: Bytes, compressed: bool, sig: Bytes, y: Bytes, other: bool, tag: Bytes)
    requires |x| == |y| && Postsign(c, x, compressed, sig) == Postsign(c, y, other, tag)
    requires !Collide(c, PostsignInput(x, compressed, sig), PostsignInput(y, other, tag))
    ensures x == y && compressed == other && sig == tag
  {
    var a, b := PostsignInput(x, compressed, sig), PostsignInput(y, other, tag);
    var n := |x|;
    assert a[..n] == x && b[..n] == y && a[n] == (if compressed then 0 else 1) && b[n] == (if other then 0 else 1);
    assert a[n + 1..] == sig && b[n + 1..] == tag;
  }

  /** What the steps that do not sign do: the one thing named, and nothing else. */
  lemma EditsTouch(c: Crypto, auth: Auth, nonce: u64, fee: u64, cond: SpendingCondition)
    ensures var t := Apply(c, auth, SetOriginNonce(nonce)).auth;
            t.origin.nonce == nonce && t.origin.(nonce := auth.origin.nonce) == auth.origin && t == auth.(origin := t.origin)
    ensures auth.AuthStandard? ==>
              var t := Apply(c, auth, SetFee(fee)).auth;
              t.AuthStandard? && t.origin.fee == fee && t.origin.(fee := auth.origin.fee) == auth.origin
    ensures auth.AuthStandard? ==>
              Apply(c, auth, SetSponsorNonce(nonce)).Refused? && Apply(c, auth, PopSponsor).Refused? && Apply(c, auth, SetSponsor(cond)).Refused?
    ensures auth.AuthSponsored? ==>
              var t := Apply(c, auth, SetFee(fee)).auth;
              t.AuthSponsored? && t.origin == auth.origin && t.sponsor.fee == fee && t.sponsor.(fee := auth.sponsor.fee) == auth.sponsor
    ensures auth.AuthSponsored? ==>
              var t := Apply(c, auth, SetSponsorNonce(nonce)).auth;
              t.AuthSponsored? && t.origin == auth.origin && t.sponsor.nonce == nonce
              && t.sponsor.(nonce := auth.sponsor.nonce) == auth.sponsor
    ensures auth.AuthSponsored? ==> Apply(c, auth, SetSponsor(cond)) == Done(AuthSponsored(auth.origin, cond))
  {
  }

  // ---------- Signing in key order ----------

  /** One key of a condition, and whether its holder signs or only shows the public key. */
  datatype Share = Share(key: PrivateKey, signs: bool)

  function Pubkeys(c: Crypto, plan: seq<Share>): seq<PublicKey> {
    if plan == [] then [] else [FromPrivate(c, plan[0].key)] + Pubkeys(c, plan[1..])
  }

  function Signers(plan: seq<Share>): nat {
    if plan == [] then 0 else (if plan[0].signs then 1 else 0) + Signers(plan[1..])
  }

  /** Signs and appends in order; gives the condition and the last hash returned. */
  function SignPlan(c: Crypto, cond: SpendingCondition, cur: Bytes, flag: byte, plan: seq<Share>)
    : Option<(SpendingCondition, Bytes)>
    decreases plan
  {
    if plan == [] then Some((cond, cur))
    else if plan[0].signs then
      match SignAndAppend(c, cond, cur, flag, plan[0].key)
      case None => None
      case Some((after, next)) => SignPlan(c, after, next, flag, plan[1..])
    else
      match AppendPubkey(cond, FromPrivate(c, plan[0].key))
      case None => None
      case Some(after) => SignPlan(c, after, cur, flag, plan[1..])
  }

  /** The same plan as calls on the origin of a transaction. */
  function OriginOps(c: Crypto, cond: SpendingCondition, cur: Bytes, plan: seq<Share>): seq<Op>
    decreases plan
  {
    if plan == [] then []
    else if plan[0].signs then
      [SignOrigin(cur, plan[0].key)] +
      match SignAndAppend(c, cond, cur, AUTH_STANDARD, plan[0].key)
      case None => []
      case Some((after, next)) => OriginOps(c, after, next, plan[1..])
    else
      [AppendOrigin(FromPrivate(c, plan[0].key))] +
      match AppendPubkey(cond, FromPrivate(c, plan[0].key))
      case None => []
      case Some(after) => OriginOps(c, after, cur, plan[1..])
  }

  lemma {:induction false} PlanIsRun(c: Crypto, auth: Auth, cur: Bytes, plan: seq<Share>)
    requires SignPlan(c, auth.origin, cur, AUTH_STANDARD, plan).Some?
    ensures RunOps(c, auth, OriginOps(c, auth.origin, cur, plan)) ==
              auth.(origin := SignPlan(c, auth.origin, cur, AUTH_STANDARD, plan).value.0)
    decreases plan
  {
    if plan != [] {
      var ops := OriginOps(c, auth.origin, cur, plan);
      var next := AuthAfter(auth, Apply(c, auth, ops[0]));
      if plan[0].signs {
        var (after, h) := SignAndAppend(c, auth.origin, cur, AUTH_STANDARD, plan[0].key).value;
        assert ops[1..] == OriginOps(c, after, h, plan[1..]);
        PlanIsRun(c, next, h, plan[1..]);
      } else {
        var after := AppendPubkey(auth.origin, FromPrivate(c, plan[0].key)).value;
        assert ops[1..] == OriginOps(c, after, cur, plan[1..]);
        PlanIsRun(c, next, cur, plan[1..]);
      }
    }
  }

  /** And as calls on the sponsor. */
  function SponsorOps(c: Crypto, cond: SpendingCondition, cur: Bytes, plan: seq<Share>): seq<Op>
    decreases plan
  {
    if plan == [] then []
    else if plan[0].signs then
      [SignSponsor(cur, plan[0].key)] +
      match SignAndAppend(c, cond, cur, AUTH_SPONSORED, plan[0].key)
      case None => []
      case Some((after, next)) => SponsorOps(c, after, next, plan[1..])
    else
      [AppendSponsor(FromPrivate(c, plan[0].key))] +
      match AppendPubkey(cond, FromPrivate(c, plan[0].key))
      case None => []
      case Some(after) => SponsorOps(c, after, cur, plan[1..])
  }

  lemma {:induction false} SponsorPlanIsRun(c: Crypto, auth: Auth, cur: Bytes, plan: seq<Share>)
    requires auth.AuthSponsored? && SignPlan(c, auth.sponsor, cur, AUTH_SPONSORED, plan).Some?
    ensures RunOps(c, auth, SponsorOps(c, auth.sponsor, cur, plan)) ==
              AuthSponsored(auth.origin, SignPlan(c, auth.sponsor, cur, AUTH_SPONSORED, plan).value.0)
    decreases plan
  {
    if plan != [] {
      var ops := SponsorOps(c, auth.sponsor, cur, plan);
      var next := AuthAfter(auth, Apply(c, auth, ops[0]));
      if plan[0].signs {
        var (after, h) := SignAndAppend(c, auth.sponsor, cur, AUTH_SPONSORED, plan[0].key).value;
        assert ops[1..] == SponsorOps(c, after, h, plan[1..]);
        SponsorPlanIsRun(c, next, h, plan[1..]);
      } else {
        var after := AppendPubkey(auth.sponsor, FromPrivate(c, plan[0].key)).value;
        assert ops[1..] == SponsorOps(c, after, cur, plan[1..]);
        SponsorPlanIsRun(c, next, cur, plan[1..]);
      }
    }
  }

  lemma {:induction false} RunOpsConcat(c: Crypto, auth: Auth, ops: seq<Op>, more: seq<Op>)
    ensures RunOps(c, auth, ops + more) == RunOps(c, RunOps(c, auth, ops), more)
    decreases ops
  {
    if ops == [] {
      assert ops + more == more;
    } else {
      assert (ops + more)[1..] == ops[1..] + more;
      RunOpsConcat(c, AuthAfter(auth, Apply(c, auth, ops[0])), ops[1..], more);
    }
  }

  /** The fields a plan adds. */
  function PlanFields(c: Crypto, rolling: bool, scope: Scope, cur: Bytes, plan: seq<Share>): seq<AuthField>
    decreases plan
  {
    if plan == [] then []
    else
      var k := plan[0].key;
      if !plan[0].signs then
        [KeyField(c.pointOf(k.secret), k.compressed)] + PlanFields(c, rolling, scope, cur, plan[1..])
      else
        match NextSignature(c, cur, scope, k)
        case None => []
        case Some((sig, next)) =>
          [SignatureField(k.compressed, sig)] + PlanFields(c, rolling, scope, if rolling then next else cur, plan[1..])
  }

  lemma {:induction false} PlanAddsFields(c: Crypto, cond: SpendingCondition, cur: Bytes, flag: byte, plan: seq<Share>)
    requires !cond.Singlesig? && SignPlan(c, cond, cur, flag, plan).Some?
    ensures var (after, h) := SignPlan(c, cond, cur, flag, plan).value;
            && after == WithFields(cond, cond.fields + PlanFields(c, cond.Multisig?, ScopeOf(cond, flag), cur, plan))
            && (cond.OrderIndependent? ==> h == cur)
    decreases plan
  {
    if plan == [] {
      assert cond.fields + [] == cond.fields;
    } else {
      var scope := ScopeOf(cond, flag);
      if plan[0].signs {
        var (after, next) := SignAndAppend(c, cond, cur, flag, plan[0].key).value;
        PlanAddsFields(c, after, next, flag, plan[1..]);
        var more := PlanFields(c, cond.Multisig?, scope, next, plan[1..]);
        var f := after.fields[|cond.fields|];
        assert (cond.fields + [f]) + more == cond.fields + ([f] + more);
      } else {
        var after := AppendPubkey(cond, FromPrivate(c, plan[0].key)).value;
        PlanAddsFields(c, after, cur, flag, plan[1..]);
        var more := PlanFields(c, cond.Multisig?, scope, cur, plan[1..]);
        var f := after.fields[|cond.fields|];
        assert (cond.fields + [f]) + more == cond.fields + ([f] + more);
      }
    }
  }

  /** Verifying the fields of a plan recovers its keys in order and arrives at the hash signing arrived at. */
  lemma {:induction false} PlanScans(
    c: Crypto, cond: SpendingCondition, cur: Bytes, flag: byte, plan: seq<Share>, allowHighS: bool, seen: nat)
    requires CryptoLaw(c) && !cond.Singlesig? && SignPlan(c, cond, cur, flag, plan).Some? && seen <= MAX_U16
    ensures var scope := ScopeOf(cond, flag);
            var fields := PlanFields(c, cond.Multisig?, scope, cur, plan);
            ScanKeys(c, cond.Multisig?, scope, allowHighS, cur, seen, fields) ==
              if seen + Signers(plan) <= MAX_U16
              then Scanned(Pubkeys(c, plan), SignPlan(c, cond, cur, flag, plan).value.1)
              else Failed(TooManySignatures)
    decreases plan
  {
    if plan != [] {
      var scope, rolling, k := ScopeOf(cond, flag), cond.Multisig?, plan[0].key;
      var fields := PlanFields(c, rolling, scope, cur, plan);
      if plan[0].signs {
        var (after, next) := SignAndAppend(c, cond, cur, flag, k).value;
        StepsAgree(c, cur, scope, k, allowHighS);
        assert fields[1..] == PlanFields(c, rolling, scope, next, plan[1..]);
        if seen < MAX_U16 {
          PlanScans(c, after, next, flag, plan[1..], allowHighS, seen + 1);
        }
      } else {
        var after := AppendPubkey(cond, FromPrivate(c, k)).value;
        assert fields[1..] == PlanFields(c, rolling, scope, cur, plan[1..]);
        PlanScans(c, after, cur, flag, plan[1..], allowHighS, seen);
      }
    }
  }

  lemma {:induction false} PlanCounts(c: Crypto, cond: SpendingCondition, cur: Bytes, flag: byte, plan: seq<Share>)
    requires !cond.Singlesig? && SignPlan(c, cond, cur, flag, plan).Some?
    ensures var fields := PlanFields(c, cond.Multisig?, ScopeOf(cond, flag), cur, plan);
            NumSignatures(fields) == Signers(plan) && (AllCompressed(fields) <==> KeysCompressed(Pubkeys(c, plan)))
    decreases plan
  {
    if plan != [] {
      var rolling, scope := cond.Multisig?, ScopeOf(cond, flag);
      var fields := PlanFields(c, rolling, scope, cur, plan);
      NumSignaturesFront(fields);
      var rest := fields[1..];
      var keys := Pubkeys(c, plan);
      assert keys[1..] == Pubkeys(c, plan[1..]);
      if plan[0].signs {
        var (after, next) := SignAndAppend(c, cond, cur, flag, plan[0].key).value;
        PlanCounts(c, after, next, flag, plan[1..]);
        assert rest == PlanFields(c, rolling, scope, next, plan[1..]);
      } else {
        PlanCounts(c, AppendPubkey(cond, FromPrivate(c, plan[0].key)).value, cur, flag, plan[1..]);
        assert rest == PlanFields(c, rolling, scope, cur, plan[1..]);
      }
      assert fields == [fields[0]] + rest && keys == [keys[0]] + keys[1..];
    }
  }

  predicate EnoughSigners(cond: SpendingCondition, n: nat) {
    match cond
    case Singlesig(_, _, _, _, _, _) => n == 1
    case Multisig(_, _, _, _, _, required) => n == required
    case OrderIndependent(_, _, _, _, _, required) => n >= required
  }

  /**
    An empty condition for the plan's keys, signed by any of them in key order, is accepted exactly
    when the number of signers is right, and verifying arrives at the last hash returned while signing.
   */
  lemma MultisigComplete(c: Crypto, cond: SpendingCondition, cur: Bytes, flag: byte, plan: seq<Share>, allowHighS: bool)
    requires CryptoLaw(c) && !cond.Singlesig? && cond.fields == []
    requires FromPublicKeys(c, ModeOf(cond), cond.required, Pubkeys(c, plan)) == Some(cond.signer)
    requires SignPlan(c, cond, cur, flag, plan).Some?
    ensures var (signed, h) := SignPlan(c, cond, cur, flag, plan).value;
            VerifyCondition(c, signed, cur, flag, allowHighS) ==
              if Signers(plan) > MAX_U16 then Rejected(TooManySignatures)
              else if EnoughSigners(cond, Signers(plan)) then Verified(h)
              else Rejected(WrongSignatureCount)
  {
    var (signed, h) := SignPlan(c, cond, cur, flag, plan).value;
    PlanAddsFields(c, cond, cur, flag, plan);
    PlanScans(c, cond, cur, flag, plan, allowHighS, 0);
    PlanCounts(c, cond, cur, flag, plan);
    assert signed.fields == PlanFields(c, cond.Multisig?, ScopeOf(cond, flag), cur, plan);
  }

  /** One key signs its own condition; the hash also agrees when the key is used with the encoding it was made for. */
  lemma SinglesigComplete(c: Crypto, cond: SpendingCondition, cur: Bytes, flag: byte, k: PrivateKey, allowHighS: bool)
    requires CryptoLaw(c) && cond.Singlesig?
    requires FromPublicKeys(c, ModeOf(cond), 1, [PublicKey(c.pointOf(k.secret), cond.compressed)]) == Some(cond.signer)
    requires SignAndAppend(c, cond, cur, flag, k).Some?
    ensures var (signed, h) := SignAndAppend(c, cond, cur, flag, k).value;
            var r := VerifyCondition(c, signed, cur, flag, allowHighS);
            r.Verified? && (k.compressed == cond.compressed ==> r.sighash == h)
  {
    StepsAgree(c, cur, ScopeOf(cond, flag), k, allowHighS);
  }

  /** The plan uses the keys of the condition, with enough signers, and nothing has been signed yet. */
  predicate Matches(c: Crypto, cond: SpendingCondition, plan: seq<Share>) {
    && FromPublicKeys(c, ModeOf(cond), Required(cond), Pubkeys(c, plan)) == Some(cond.signer)
    && Signers(plan) <= MAX_U16 && EnoughSigners(cond, Signers(plan))
    && (if cond.Singlesig? then plan[0].key.compressed == cond.compressed else cond.fields == [])
  }

  lemma {:induction false} PubkeysLength(c: Crypto, plan: seq<Share>)
    ensures |Pubkeys(c, plan)| == |plan|
  {
    if plan != [] {
      PubkeysLength(c, plan[1..]);
    }
  }

  /** Conditions built for the plan's keys match it. */
  lemma BuiltMatches(c: Crypto, ordered: bool, segwit: bool, numSigs: u16, plan: seq<Share>)
    ensures var cond := NewMultisig(c, ordered, segwit, numSigs, Pubkeys(c, plan));
            cond.Some? && Signers(plan) <= MAX_U16 && EnoughSigners(cond.value, Signers(plan)) ==>
              Matches(c, cond.value, plan)
    ensures plan != [] ==>
              var cond := NewSinglesig(c, segwit, FromPrivate(c, plan[0].key));
              cond.Some? && |plan| == 1 && plan[0].signs ==> Matches(c, cond.value, plan)
  {
    if |plan| == 1 {
      var key := FromPrivate(c, plan[0].key);
      assert Pubkeys(c, plan) == [key];
      assert KeysCompressed([key]) ==> [key][0].compressed;
    }
  }

  lemma ConditionComplete(c: Crypto, cond: SpendingCondition, cur: Bytes, flag: byte, plan: seq<Share>, allowHighS: bool)
    requires CryptoLaw(c) && Matches(c, cond, plan)
    requires SignPlan(c, cond, cur, flag, plan).Some?
    ensures var (signed, h) := SignPlan(c, cond, cur, flag, plan).value;
            VerifyCondition(c, signed, cur, flag, allowHighS) == Verified(h)
  {
    if cond.Singlesig? {
      PubkeysLength(c, plan);
      assert Pubkeys(c, plan) == [FromPrivate(c, plan[0].key)];
      SinglesigComplete(c, cond, cur, flag, plan[0].key, allowHighS);
    } else {
      MultisigComplete(c, cond, cur, flag, plan, allowHighS);
    }
  }

  /** A standard transaction signed in key order is accepted. */
  lemma StandardComplete(c: Crypto, tx: Transaction, plan: seq<Share>, allowHighS: bool)
    requires CryptoLaw(c) && tx.auth.AuthStandard?
    requires Matches(c, tx.auth.origin, plan)
    requires SignPlan(c, tx.auth.origin, InitialSighash(c, tx), AUTH_STANDARD, plan).Some?
    ensures var ops := OriginOps(c, tx.auth.origin, InitialSighash(c, tx), plan);
            Verify(c, tx.(auth := RunOps(c, tx.auth, ops)), allowHighS) ==
              Verified(SignPlan(c, tx.auth.origin, InitialSighash(c, tx), AUTH_STANDARD, plan).value.1)
  {
    var h := InitialSighash(c, tx);
    var ops := OriginOps(c, tx.auth.origin, h, plan);
    PlanIsRun(c, tx.auth, h, plan);
    InitialSighashInvariant(c, tx, ops);
    ConditionComplete(c, tx.auth.origin, h, AUTH_STANDARD, plan, allowHighS);
  }

  /** The origin signs, the sponsor is filled in, and the sponsor signs from the hash the origin arrived at. */
  function SponsoredOps(
    c: Crypto, tx: Transaction, originPlan: seq<Share>, sponsor: SpendingCondition, h: Bytes, sponsorPlan: seq<Share>)
    : seq<Op>
  {
    OriginOps(c, tx.auth.origin, InitialSighash(c, tx), originPlan)
    + ([SetSponsor(sponsor)] + SponsorOps(c, sponsor, h, sponsorPlan))
  }

  lemma SponsoredRun(
    c: Crypto, tx: Transaction, originPlan: seq<Share>, sponsor: SpendingCondition, h: Bytes, sponsorPlan: seq<Share>)
    requires tx.auth.AuthSponsored?
    requires SignPlan(c, tx.auth.origin, InitialSighash(c, tx), AUTH_STANDARD, originPlan).Some?
    requires SignPlan(c, sponsor, h, AUTH_SPONSORED, sponsorPlan).Some?
    ensures RunOps(c, tx.auth, SponsoredOps(c, tx, originPlan, sponsor, h, sponsorPlan)) ==
              AuthSponsored(SignPlan(c, tx.auth.origin, InitialSighash(c, tx), AUTH_STANDARD, originPlan).value.0,
                            SignPlan(c, sponsor, h, AUTH_SPONSORED, sponsorPlan).value.0)
  {
    var initial := InitialSighash(c, tx);
    var origin := SignPlan(c, tx.auth.origin, initial, AUTH_STANDARD, originPlan).value.0;
    var last := SponsorOps(c, sponsor, h, sponsorPlan);
    PlanIsRun(c, tx.auth, initial, originPlan);
    RunOpsConcat(c, tx.auth, OriginOps(c, tx.auth.origin, initial, originPlan), [SetSponsor(sponsor)] + last);
    assert ([SetSponsor(sponsor)] + last)[1..] == last;
    SponsorPlanIsRun(c, AuthSponsored(origin, sponsor), h, sponsorPlan);
  }

  /**
    A sponsored transaction is accepted after one run of steps in which the origin signs first, without
    knowing the sponsor, and the sponsor is then filled in and signs from the hash the origin's
    signatures verify to.
   */
  lemma SponsoredComplete(
    c: Crypto, tx: Transaction, originPlan: seq<Share>, sponsor: SpendingCondition, sponsorPlan: seq<Share>, allowHighS: bool)
    requires CryptoLaw(c) && tx.auth.AuthSponsored?
    requires Matches(c, tx.auth.origin, originPlan)
    requires Matches(c, sponsor, sponsorPlan)
    requires SignPlan(c, tx.auth.origin, InitialSighash(c, tx), AUTH_STANDARD, originPlan).Some?
    ensures var ops := OriginOps(c, tx.auth.origin, InitialSighash(c, tx), originPlan);
            var h := SignPlan(c, tx.auth.origin, InitialSighash(c, tx), AUTH_STANDARD, originPlan).value.1;
            && VerifyOrigin(c, tx.(auth := RunOps(c, tx.auth, ops)), allowHighS) == Verified(h)
            && (SignPlan(c, sponsor, h, AUTH_SPONSORED, sponsorPlan).Some? ==>
                  Verify(c, tx.(auth := RunOps(c, tx.auth, SponsoredOps(c, tx, originPlan, sponsor, h, sponsorPlan))), allowHighS)
                    == Verified(SignPlan(c, sponsor, h, AUTH_SPONSORED, sponsorPlan).value.1))
  {
    var initial := InitialSighash(c, tx);
    var (origin, h) := SignPlan(c, tx.auth.origin, initial, AUTH_STANDARD, originPlan).value;
    var ops := OriginOps(c, tx.auth.origin, initial, originPlan);
    ConditionComplete(c, tx.auth.origin, initial, AUTH_STANDARD, originPlan, allowHighS);
    PlanIsRun(c, tx.auth, initial, originPlan);
    InitialSighashInvariant(c, tx, ops);
    if SignPlan(c, sponsor, h, AUTH_SPONSORED, sponsorPlan).Some? {
      ConditionComplete(c, sponsor, h, AUTH_SPONSORED, sponsorPlan, allowHighS);
      SponsoredRun(c, tx, originPlan, sponsor, h, sponsorPlan);
      InitialSighashInvariant(c, tx, SponsoredOps(c, tx, originPlan, sponsor, h, sponsorPlan));
    }
  }

  // ---------- Decoder and verifier agree ----------

  lemma {:induction false} ScanShape(c: Crypto, rolling: bool, scope: Scope, allowHighS: bool, cur: Bytes, seen: nat, fields: seq<AuthField>)
    ensures var s := ScanKeys(c, rolling, scope, allowHighS, cur, seen, fields);
            && (s.Failed? && seen + NumSignatures(fields) <= MAX_U16 ==> s.error == RecoveryFailed)
            && (s.Scanned? ==>
                  && |s.keys| == |fields|
                  && (forall i | 0 <= i < |fields| :: s.keys[i].compressed == fields[i].compressed)
                  && (seen <= MAX_U16 ==> seen + NumSignatures(fields) <= MAX_U16)
                  && (!rolling ==> s.sighash == cur))
    decreases fields
  {
    if fields != [] {
      NumSignaturesFront(fields);
      var (key, next) := match fields[0]
        case KeyField(point, compressed) => (Some(PublicKey(point, compressed)), cur)
        case SignatureField(compressed, sig) =>
          match NextVerification(c, cur, scope, compressed, sig, allowHighS)
          case None => (None, cur)
          case Some((k, h)) => (Some(k), if rolling then h else cur);
      if key.Some? {
        var more := if fields[0].SignatureField? then seen + 1 else seen;
        ScanShape(c, rolling, scope, allowHighS, next, more, fields[1..]);
        CompressedFront(key.value, fields, ScanKeys(c, rolling, scope, allowHighS, next, more, fields[1..]));
      }
    }
  }

  lemma CompressedFront(key: PublicKey, fields: seq<AuthField>, s: Scan)
    requires fields != [] && key.compressed == fields[0].compressed
    requires s.Scanned? ==> |s.keys| == |fields| - 1 && forall i | 0 <= i < |s.keys| :: s.keys[i].compressed == fields[1..][i].compressed
    ensures var t := Prepend(key, s);
            t.Scanned? ==> |t.keys| == |fields| && forall i | 0 <= i < |fields| :: t.keys[i].compressed == fields[i].compressed
  {
    assert forall i | 0 < i < |fields| :: fields[i] == fields[1..][i - 1];
  }

  /** A decoded condition can be rejected only because a key does not recover or the keys are not the signer's. */
  lemma DecodedPassesGates(
    c: Crypto, fields: Codec<seq<AuthField>>, b: Bytes, initial: Bytes, flag: byte, allowHighS: bool)
    requires Lawful(fields) && ConditionCodec(fields).get(b).Ok?
    ensures var cond := ConditionCodec(fields).get(b).value;
            var r := VerifyCondition(c, cond, initial, flag, allowHighS);
            && (r.Rejected? ==> r.error == RecoveryFailed || r.error == SignerMismatch)
            && (!cond.Singlesig? ==> NumSignatures(cond.fields) <= MAX_U16)
  {
    ConditionLawful(fields);
    assert GoodResult(ConditionCodec(fields), b);
    var cond := ConditionCodec(fields).get(b).value;
    assert ConditionOk(fields, cond);
    GatesPassed(c, fields, cond, initial, flag, allowHighS);
  }

  lemma GatesPassed(
    c: Crypto, fields: Codec<seq<AuthField>>, cond: SpendingCondition, initial: Bytes, flag: byte, allowHighS: bool)
    requires ConditionOk(fields, cond)
    ensures var r := VerifyCondition(c, cond, initial, flag, allowHighS);
            r.Rejected? ==> r.error == RecoveryFailed || r.error == SignerMismatch
  {
    if !cond.Singlesig? {
      ScanShape(c, cond.Multisig?, ScopeOf(cond, flag), allowHighS, initial, 0, cond.fields);
      NumSignaturesAtMost(cond.fields);
    }
  }

  lemma {:induction false} NumSignaturesAtMost(fields: seq<AuthField>)
    ensures NumSignatures(fields) <= |fields|
  {
    if fields != [] {
      NumSignaturesAtMost(fields[..|fields| - 1]);
    }
  }

  // ---------- Order-independent conditions ----------

  /** The key a field stands for when every signature covers the same hash. */
  function KeyOf(c: Crypto, scope: Scope, allowHighS: bool, cur: Bytes, f: AuthField): Option<PublicKey> {
    match f
    case KeyField(point, compressed) => Some(PublicKey(point, compressed))
    case SignatureField(compressed, sig) =>
      match NextVerification(c, cur, scope, compressed, sig, allowHighS)
      case None => None
      case Some((key, _)) => Some(key)
  }

  /** Without a rolling hash each field is judged on its own. */
  lemma {:induction false} ScanPointwise(c: Crypto, scope: Scope, allowHighS: bool, cur: Bytes, seen: nat, fields: seq<AuthField>)
    requires seen + NumSignatures(fields) <= MAX_U16
    ensures var s := ScanKeys(c, false, scope, allowHighS, cur, seen, fields);
            && (s.Scanned? <==> forall i | 0 <= i < |fields| :: KeyOf(c, scope, allowHighS, cur, fields[i]).Some?)
            && (s.Scanned? ==>
                  |s.keys| == |fields| && forall i | 0 <= i < |fields| :: Some(s.keys[i]) == KeyOf(c, scope, allowHighS, cur, fields[i]))
    decreases fields
  {
    if fields != [] {
      NumSignaturesFront(fields);
      var rest := fields[1..];
      var n := if fields[0].SignatureField? then seen + 1 else seen;
      if KeyOf(c, scope, allowHighS, cur, fields[0]).Some? {
        ScanPointwise(c, scope, allowHighS, cur, n, rest);
        assert forall i | 0 <= i < |rest| :: fields[i + 1] == rest[i];
        assert forall i | 0 <= i < |fields| :: i > 0 ==> fields[i] == rest[i - 1];
      }
    }
  }

  /**
    Replacing any signature of an accepted condition by the key it recovers to changes nothing
    while enough signatures remain, and is rejected for the count as soon as they do not.
   */
  lemma SurplusSignatures(c: Crypto, cond: SpendingCondition, i: nat, initial: Bytes, flag: byte, allowHighS: bool)
    requires cond.OrderIndependent? && VerifyCondition(c, cond, initial, flag, allowHighS).Verified?
    requires i < |cond.fields| && cond.fields[i].SignatureField?
    ensures var key := KeyOf(c, ScopeOf(cond, flag), allowHighS, initial, cond.fields[i]);
            && key.Some?
            && VerifyCondition(c, cond, initial, flag, allowHighS) == Verified(initial)
            && VerifyCondition(c, WithFields(cond, cond.fields[i := KeyField(key.value.point, key.value.compressed)]),
                               initial, flag, allowHighS) ==
                 if NumSignatures(cond.fields) > cond.required then Verified(initial) else Rejected(WrongSignatureCount)
  {
    var scope := ScopeOf(cond, flag);
    ScanShape(c, false, scope, allowHighS, initial, 0, cond.fields);
    ScanPointwise(c, scope, allowHighS, initial, 0, cond.fields);
    var key := KeyOf(c, scope, allowHighS, initial, cond.fields[i]).value;
    ReplacedCount(cond.fields, i, KeyField(key.point, key.compressed));
    ReplacedScan(c, scope, allowHighS, initial, cond.fields, i);
  }

  /** The keys that are recovered stay the same. */
  lemma ReplacedScan(c: Crypto, scope: Scope, allowHighS: bool, initial: Bytes, fields: seq<AuthField>, i: nat)
    requires i < |fields| && fields[i].SignatureField?
    requires ScanKeys(c, false, scope, allowHighS, initial, 0, fields).Scanned?
    ensures var key := KeyOf(c, scope, allowHighS, initial, fields[i]);
            && key.Some? && key.value.compressed == fields[i].compressed
            && ScanKeys(c, false, scope, allowHighS, initial, 0, fields[i := KeyField(key.value.point, key.value.compressed)])
                 == ScanKeys(c, false, scope, allowHighS, initial, 0, fields)
  {
    ScanShape(c, false, scope, allowHighS, initial, 0, fields);
    ScanPointwise(c, scope, allowHighS, initial, 0, fields);
    var key := KeyOf(c, scope, allowHighS, initial, fields[i]).value;
    var replaced := fields[i := KeyField(key.point, key.compressed)];
    ReplacedCount(fields, i, KeyField(key.point, key.compressed));
    ScanPointwise(c, scope, allowHighS, initial, 0, replaced);
    ScanShape(c, false, scope, allowHighS, initial, 0, replaced);
    var before := ScanKeys(c, false, scope, allowHighS, initial, 0, fields);
    var after := ScanKeys(c, false, scope, allowHighS, initial, 0, replaced);
    assert forall j | 0 <= j < |fields| :: KeyOf(c, scope, allowHighS, initial, replaced[j]) == KeyOf(c, scope, allowHighS, initial, fields[j]);
    assert after.Scanned?;
    assert forall j | 0 <= j < |fields| :: Some(after.keys[j]) == Some(before.keys[j]);
    assert after.keys == before.keys;
  }

  lemma {:induction false} ReplacedCount(fields: seq<AuthField>, i: nat, f: AuthField)
    requires i < |fields| && fields[i].SignatureField? && f.KeyField? && f.compressed == fields[i].compressed
    ensures NumSignatures(fields[i := f]) == NumSignatures(fields) - 1
    ensures AllCompressed(fields[i := f]) <==> AllCompressed(fields)
  {
    var n := |fields| - 1;
    if i < n {
      ReplacedCount(fields[..n], i, f);
      assert fields[i := f][..n] == fields[..n][i := f];
    } else {
      assert fields[i := f][..n] == fields[..n];
    }
    var g := fields[i := f];
    assert forall j | 0 <= j < |fields| :: g[j].compressed == fields[j].compressed;
  }

  /** The field one signer contributes, whoever acted before. */
  function FieldFor(c: Crypto, scope: Scope, cur: Bytes, share: Share): Option<AuthField> {
    if !share.signs then Some(KeyField(c.pointOf(share.key.secret), share.key.compressed))
    else
      match NextSignature(c, cur, scope, share.key)
      case None => None
      case Some((sig, _)) => Some(SignatureField(share.key.compressed, sig))
  }

  /** In an order-independent condition each signer's field depends on that signer alone, not on the order of signing. */
  lemma {:induction false} OrderDoesNotMatter(c: Crypto, cond: SpendingCondition, cur: Bytes, flag: byte, plan: seq<Share>)
    requires cond.OrderIndependent? && SignPlan(c, cond, cur, flag, plan).Some?
    ensures var (signed, h) := SignPlan(c, cond, cur, flag, plan).value;
            && signed.OrderIndependent? && h == cur && |signed.fields| == |cond.fields| + |plan|
            && signed.fields[..|cond.fields|] == cond.fields
            && forall i | 0 <= i < |plan| :: Some(signed.fields[|cond.fields| + i]) == FieldFor(c, ScopeOf(cond, flag), cur, plan[i])
    decreases plan
  {
    if plan != [] {
      var (signed, h) := SignPlan(c, cond, cur, flag, plan).value;
      var after :=
        if plan[0].signs then SignAndAppend(c, cond, cur, flag, plan[0].key).value.0
        else AppendPubkey(cond, FromPrivate(c, plan[0].key)).value;
      OrderDoesNotMatter(c, after, cur, flag, plan[1..]);
      var n := |cond.fields|;
      assert signed.fields[..n] == signed.fields[..n + 1][..n];
      assert signed.fields[n] == signed.fields[..n + 1][n];
      forall i | 0 <= i < |plan|
        ensures Some(signed.fields[n + i]) == FieldFor(c, ScopeOf(cond, flag), cur, plan[i])
      {
        if i > 0 {
          assert plan[i] == plan[1..][i - 1];
          assert signed.fields[n + 1 + (i - 1)] == signed.fields[n + i];
        }
      }
    }
  }
}
