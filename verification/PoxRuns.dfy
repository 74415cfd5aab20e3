/**
  What holds over every run of PoX calls, burn blocks, epochs and transactions.
 */
module PoxRuns {
  import opened Wire
  import opened Codecs
  import opened PoxBalances
  import opened PoxLocking

  // ---------- When locking succeeds, and with what result ----------

  /** An account that is locked can only move its unlock height up. */
  predicate StakeAllowed(b: Balance, c: Chain, amount: u128, height: u64) {
    && Valid(b) && 0 < amount <= Total(b) && height > c.burn
    && (HasLocked(b, c) ==> b.version == V5 && height > b.unlockHeight)
  }

  predicate UpdateAllowed(b: Balance, c: Chain, height: u64, total: u128) {
    Valid(b) && HasLocked(b, c) && height > c.burn && 0 < total && b.locked <= total <= Total(b)
  }

  lemma StakeIff(b: Balance, c: Chain, amount: u128, height: u64)
    ensures TryStake(b, c, amount, height).Locks? <==> StakeAllowed(b, c, amount, height)
    ensures TryStake(b, c, amount, height).Locks? ==>
              TryStake(b, c, amount, height).balance == Locked(V5, Total(b) - amount, amount, height)
  {
  }

  /** A fresh lock of any version needs an account without one; version 1 also refuses accounts ever locked by version 2. */
  lemma LockIff(b: Balance, c: Chain, v: Version, amount: u128, height: u64)
    requires Valid(b)
    ensures TryLock(b, c, v, amount, height).Locks? <==>
              && 0 < amount <= Total(b) && height > c.burn && !HasLocked(b, c)
              && !(v.V1? && b.Locked? && b.version.V2?)
    ensures TryLock(b, c, v, amount, height).Locks? ==>
              TryLock(b, c, v, amount, height).balance == Locked(v, Total(b) - amount, amount, height)
  {
  }

  /** An increase keeps version and height, and never lowers the amount. */
  lemma IncreaseIff(b: Balance, c: Chain, v: Version, total: u128)
    requires Valid(b)
    ensures TryIncrease(b, c, v, total).Locks? <==>
              HasLocked(b, c) && b.version == v && 0 < total && b.locked <= total <= Total(b)
    ensures TryIncrease(b, c, v, total).Locks? ==>
              TryIncrease(b, c, v, total).balance == Locked(v, Total(b) - total, total, b.unlockHeight)
  {
  }

  lemma UpdateIff(b: Balance, c: Chain, height: u64, total: u128)
    ensures TryUpdate(b, c, height, total).Locks? <==> UpdateAllowed(b, c, height, total)
    ensures TryUpdate(b, c, height, total).Locks? ==>
              TryUpdate(b, c, height, total).balance == Locked(V5, Total(b) - total, total, height)
  {
  }

  /** Extending and unstaking move the unlock height of an active lock and hand it to the version that did so. */
  lemma ExtendIff(b: Balance, c: Chain, v: Version, height: u64)
    ensures TryExtend(b, c, v, height).Locks? <==> HasLocked(b, c) && height > c.burn
    ensures TryExtend(b, c, v, height).Locks? ==>
              TryExtend(b, c, v, height).balance == Locked(v, b.unlocked, b.locked, height)
  {
  }

  // ---------- One call ----------

  lemma TryConserves(ctx: Ctx, call: Call, b: Balance, reply: Reply)
    requires reply.Accepted? && TryCall(ctx, call, b, reply).Locks?
    ensures Total(TryCall(ctx, call, b, reply).balance) == Total(b)
  {
  }

  /** The one account a call may write. */
  predicate Concerns(call: Call, p: Principal) {
    HasReply(call) && ReplyOf(call).Accepted? && ReplyOf(call).staker == p
  }

  /** No call changes a total, and only the staker's account is written. */
  lemma StepConserves(ctx: Ctx, call: Call, p: Principal)
    ensures var after := Step(ctx, call).0;
            && Total(AccountOf(after.accounts, p)) == Total(AccountOf(ctx.accounts, p))
            && (!Concerns(call, p) ==> AccountOf(after.accounts, p) == AccountOf(ctx.accounts, p))
            && after.chain == ctx.chain && after.epoch == ctx.epoch
  {
    if HasReply(call) && !IsDefunct(ctx, call) {
      ReplyConserves(ctx, call, p);
    }
  }

  lemma ReplyConserves(ctx: Ctx, call: Call, p: Principal)
    requires HasReply(call)
    ensures var after := ApplyReply(ctx, call).0;
            && Total(AccountOf(after.accounts, p)) == Total(AccountOf(ctx.accounts, p))
            && (!Concerns(call, p) ==> AccountOf(after.accounts, p) == AccountOf(ctx.accounts, p))
            && after.chain == ctx.chain && after.epoch == ctx.epoch
  {
    var reply := ReplyOf(call);
    if reply.Accepted? {
      var b := AccountOf(ctx.accounts, reply.staker);
      if TryCall(ctx, call, b, reply).Locks? {
        TryConserves(ctx, call, b, reply);
      }
    }
  }

  // ---------- A call that reports an error ----------

  /** What the transaction has noted for an account so far. */
  function Noted(stacking: map<Principal, u128>, p: Principal): u128 {
    if p in stacking then stacking[p] else 0
  }

  /** The lock is allowed, but with the amounts noted before it does not fit the asset map. */
  predicate NoteOverflows(ctx: Ctx, call: Call) {
    && (call.Stake? || call.Update?) && ReplyOf(call).Accepted? && ctx.epoch >= EPOCH_40
    && var reply := ReplyOf(call);
       var b := AccountOf(ctx.accounts, reply.staker);
       && Noted(ctx.stacking, reply.staker) + reply.amount > MAX_U128
       && if call.Stake? then StakeAllowed(b, ctx.chain, reply.amount, reply.height)
          else UpdateAllowed(b, ctx.chain, reply.height, reply.amount)
  }

  /**
    A call that does not complete leaves everything as it was, even where the snapshot had been
    changed before the failing check, except when noting the lock overflows: then the account keeps
    the new lock although the call reports an error.
   */
  lemma FailureKeepsAccounts(ctx: Ctx, call: Call)
    ensures Step(ctx, call).1 == Error(AssetMapOverflow) <==> NoteOverflows(ctx, call)
    ensures !Step(ctx, call).1.Done? && !NoteOverflows(ctx, call) ==> Step(ctx, call).0 == ctx
    ensures NoteOverflows(ctx, call) ==>
              var reply := ReplyOf(call);
              var total := Total(AccountOf(ctx.accounts, reply.staker));
              Step(ctx, call).0 ==
                ctx.(accounts := ctx.accounts[reply.staker := Locked(V5, total - reply.amount, reply.amount, reply.height)])
  {
    if (call.Stake? || call.Update?) && ReplyOf(call).Accepted? {
      var reply := ReplyOf(call);
      var b := AccountOf(ctx.accounts, reply.staker);
      StakeIff(b, ctx.chain, reply.amount, reply.height);
      UpdateIff(b, ctx.chain, reply.height, reply.amount);
    } else if HasReply(call) && !IsDefunct(ctx, call) {
      ReplyNeverOverflows(ctx, call);
    }
  }

  /** The older versions either do not note the amount or are retired where amounts are summed. */
  lemma ReplyNeverOverflows(ctx: Ctx, call: Call)
    requires HasReply(call) && !IsDefunct(ctx, call)
    requires !((call.Stake? || call.Update?) && ReplyOf(call).Accepted?)
    ensures ApplyReply(ctx, call).1 != Error(AssetMapOverflow)
    ensures !ApplyReply(ctx, call).1.Done? ==> ApplyReply(ctx, call).0 == ctx
  {
    assert IsLogged(call) ==> VersionOf(call).V4? || VersionOf(call).V5?;
  }

  /** One transaction that meets the exception: two locks whose amounts sum to more than can be noted. */
  lemma FailureCanChangeAccounts(p: Principal, total: u128, first: u64, second: u64, chain: Chain)
    requires 2 * total > MAX_U128 && chain.burn < first < second
    ensures var start := Ctx(map[p := Unlocked(total)], map[], {}, [], chain, EPOCH_40);
            var once, twice := Stake(Accepted(p, total, first)), Stake(Accepted(p, total, second));
            && Step(start, once).1.Done?
            && Step(Step(start, once).0, twice).1 == Error(AssetMapOverflow)
            && Step(Step(start, once).0, twice).0.accounts == map[p := Locked(V5, 0, total, second)]
  {
    var start := Ctx(map[p := Unlocked(total)], map[], {}, [], chain, EPOCH_40);
    StakeIff(Unlocked(total), chain, total, first);
    var ctx := Step(start, Stake(Accepted(p, total, first))).0;
    assert ctx.accounts[p] == Locked(V5, 0, total, first) && ctx.stacking[p] == total;
    FailureKeepsAccounts(ctx, Stake(Accepted(p, total, second)));
    assert ctx.accounts[p := Locked(V5, 0, total, second)] == map[p := Locked(V5, 0, total, second)];
  }

  /** A record is made exactly for the sender of a position-altering call that completes, whatever it answered. */
  lemma RecordIff(ctx: Ctx, call: Call)
    ensures Step(ctx, call).0.poxActions ==
              if (call.Unstake? || call.Gated?) && call.sender.Some? && Step(ctx, call).1.Done?
              then ctx.poxActions + {call.sender.value} else ctx.poxActions
  {
    if HasReply(call) {
      assert ApplyReply(ctx, call).0.poxActions == ctx.poxActions;
    }
  }

  // ---------- Runs ----------

  datatype Event = Do(call: Call) | Advance(burn: u64) | NewEpoch(epoch: nat) | NewTransaction

  function Next(ctx: Ctx, e: Event): Ctx {
    match e
    case Do(call) => Step(ctx, call).0
    case Advance(burn) => if burn < ctx.chain.burn then ctx else ctx.(chain := ctx.chain.(burn := burn))
    case NewEpoch(epoch) => ctx.(epoch := epoch)
    case NewTransaction => ctx.(stacking := map[], poxActions := {}, events := [])
  }

  function Run(ctx: Ctx, es: seq<Event>): Ctx
    decreases es
  {
    if es == [] then ctx else Run(Next(ctx, es[0]), es[1..])
  }

  predicate Involves(es: seq<Event>, p: Principal) {
    exists i | 0 <= i < |es| :: es[i].Do? && Concerns(es[i].call, p)
  }

  /** Over every run each account's total is constant, and an account no call concerns is untouched. */
  lemma {:induction false} RunConserves(ctx: Ctx, es: seq<Event>, p: Principal)
    ensures Total(AccountOf(Run(ctx, es).accounts, p)) == Total(AccountOf(ctx.accounts, p))
    ensures !Involves(es, p) ==> AccountOf(Run(ctx, es).accounts, p) == AccountOf(ctx.accounts, p)
    decreases es
  {
    if es != [] {
      if es[0].Do? {
        StepConserves(ctx, es[0].call, p);
      }
      RunConserves(Next(ctx, es[0]), es[1..], p);
      if Involves(es[1..], p) {
        var i :| 0 <= i < |es[1..]| && es[1..][i].Do? && Concerns(es[1..][i].call, p);
        assert es[i + 1] == es[1..][i];
      }
    }
  }

  // ---------- What one transaction can note ----------

  predicate NotesLock(call: Call, p: Principal) {
    (call.Stake? || call.Update?) && Concerns(call, p)
  }

  /** `share` for each staking or updating call on the account. */
  function LockShares(es: seq<Event>, p: Principal, share: nat): nat {
    if es == [] then 0 else (if es[0].Do? && NotesLock(es[0].call, p) then share else 0) + LockShares(es[1..], p, share)
  }

  function LockCalls(es: seq<Event>, p: Principal): nat { LockShares(es, p, 1) }

  lemma {:induction false} SharesMultiply(es: seq<Event>, p: Principal, share: nat)
    ensures LockShares(es, p, share) == LockCalls(es, p) * share
  {
    if es != [] {
      SharesMultiply(es[1..], p, share);
    }
  }

  predicate OneTransaction(es: seq<Event>) {
    forall i | 0 <= i < |es| :: es[i].Do?
  }

  /** From epoch 4.0 on only staking and updating note an amount, and never more than the account's total. */
  lemma StepNotes(ctx: Ctx, call: Call, p: Principal)
    requires ctx.epoch >= EPOCH_40
    ensures Noted(Step(ctx, call).0.stacking, p) <=
              Noted(ctx.stacking, p) + if NotesLock(call, p) then Total(AccountOf(ctx.accounts, p)) else 0
  {
    if (call.Stake? || call.Update?) && ReplyOf(call).Accepted? {
      var reply := ReplyOf(call);
      var b := AccountOf(ctx.accounts, reply.staker);
      StakeIff(b, ctx.chain, reply.amount, reply.height);
      UpdateIff(b, ctx.chain, reply.height, reply.amount);
    }
  }

  lemma {:induction false} SharesBoundNotes(ctx: Ctx, es: seq<Event>, p: Principal)
    requires OneTransaction(es) && ctx.epoch >= EPOCH_40
    ensures Noted(Run(ctx, es).stacking, p) <= Noted(ctx.stacking, p) + LockShares(es, p, Total(AccountOf(ctx.accounts, p)))
    ensures Run(ctx, es).epoch == ctx.epoch
    decreases es
  {
    if es != [] {
      assert Next(ctx, es[0]) == Step(ctx, es[0].call).0;
      StepNotes(ctx, es[0].call, p);
      StepConserves(ctx, es[0].call, p);
      SharesBoundNotes(Next(ctx, es[0]), es[1..], p);
    }
  }

  /** What exactly a call that completes has noted: from epoch 4.0 on amounts add up. */
  lemma StepNotesExactly(ctx: Ctx, call: Call, p: Principal)
    requires ctx.epoch >= 40 && Step(ctx, call).1.Done?
    ensures Noted(Step(ctx, call).0.stacking, p) ==
              Noted(ctx.stacking, p) + if NotesLock(call, p) then ReplyOf(call).amount else 0
  {
    assert !IsDefunct(ctx, call);
  }

  /** Before epoch 4.0 the amount last locked by an own call to version 4, or delegated, replaces what was noted. */
  lemma EarlierStepNotes(ctx: Ctx, call: Call, p: Principal)
    requires ctx.epoch < 40 && Step(ctx, call).1.Done? && !VersionOf(call).V5?
    ensures var after := Step(ctx, call).0;
            Noted(after.stacking, p) ==
              if HasReply(call) && call.version.V4? && call.direct && Concerns(call, p) then AmountLocked(AccountOf(after.accounts, p))
              else if call.Delegate? && call.sender == Some(p) then call.argument.value
              else Noted(ctx.stacking, p)
  {
    if HasReply(call) && ReplyOf(call).Accepted? {
      StoredLock(ctx, call, AccountOf(ctx.accounts, ReplyOf(call).staker), ReplyOf(call));
    }
  }

  /** What an accepted call does to the account it names, by kind of call. */
  function LockedBy(call: Call, b: Balance, c: Chain): Balance
    requires HasReply(call) && ReplyOf(call).Accepted?
  {
    var (amount, height) := (ReplyOf(call).amount, ReplyOf(call).height);
    match call
    case Stack(v, _, _) =>
      if Valid(b) && 0 < amount <= Total(b) && height > c.burn && !HasLocked(b, c) && !(v == V1 && b.Locked? && b.version == V2)
      then Locked(v, Total(b) - amount, amount, height) else b
    case Extend(v, _, _) => if HasLocked(b, c) && height > c.burn then Locked(v, b.unlocked, b.locked, height) else b
    case Increase(v, _, _) =>
      if Valid(b) && HasLocked(b, c) && b.version == v && 0 < amount && b.locked <= amount <= Total(b)
      then Locked(v, Total(b) - amount, amount, b.unlockHeight) else b
    case Stake(_) => if StakeAllowed(b, c, amount, height) then Locked(V5, Total(b) - amount, amount, height) else b
    case Update(_) => if UpdateAllowed(b, c, height, amount) then Locked(V5, Total(b) - amount, amount, height) else b
    case Unstake(_, _) => if HasLocked(b, c) && height > c.burn then Locked(V5, b.unlocked, b.locked, height) else b
  }

  lemma CallLocks(ctx: Ctx, call: Call)
    requires HasReply(call) && ReplyOf(call).Accepted? && !IsDefunct(ctx, call)
    ensures var p := ReplyOf(call).staker;
            AccountOf(Step(ctx, call).0.accounts, p) == LockedBy(call, AccountOf(ctx.accounts, p), ctx.chain)
  {
    var reply := ReplyOf(call);
    var b := AccountOf(ctx.accounts, reply.staker);
    assert AccountOf(Step(ctx, call).0.accounts, reply.staker) ==
             (var a := TryCall(ctx, call, b, reply); if a.Locks? then a.balance else b);
    AttemptIs(ctx, call, b);
  }

  lemma AttemptIs(ctx: Ctx, call: Call, b: Balance)
    requires HasReply(call) && ReplyOf(call).Accepted?
    ensures (var a := TryCall(ctx, call, b, ReplyOf(call)); if a.Locks? then a.balance else b) == LockedBy(call, b, ctx.chain)
  {
    var reply := ReplyOf(call);
    match call
    case Extend(v, _, _) => ExtendIff(b, ctx.chain, v, reply.height);
    case Unstake(_, _) => ExtendIff(b, ctx.chain, V5, reply.height);
    case Stake(_) => StakeIff(b, ctx.chain, reply.amount, reply.height);
    case Update(_) => UpdateIff(b, ctx.chain, reply.height, reply.amount);
    case Stack(v, _, _) => StackIs(b, ctx.chain, v, reply.amount, reply.height);
    case Increase(v, _, _) => IncreaseIs(b, ctx.chain, v, reply.amount);
  }

  lemma StackIs(b: Balance, c: Chain, v: Version, amount: u128, height: u64)
    ensures !Valid(b) ==> !TryLock(b, c, v, amount, height).Locks?
    ensures Valid(b) && TryLock(b, c, v, amount, height).Locks? ==>
              && 0 < amount <= Total(b) && height > c.burn && !HasLocked(b, c) && !(v.V1? && b.Locked? && b.version.V2?)
              && TryLock(b, c, v, amount, height).balance == Locked(v, Total(b) - amount, amount, height)
    ensures Valid(b) && !TryLock(b, c, v, amount, height).Locks? ==>
              !(0 < amount <= Total(b) && height > c.burn && !HasLocked(b, c) && !(v.V1? && b.Locked? && b.version.V2?))
  {
    if Valid(b) {
      LockIff(b, c, v, amount, height);
    }
  }

  lemma IncreaseIs(b: Balance, c: Chain, v: Version, total: u128)
    ensures !Valid(b) ==> !TryIncrease(b, c, v, total).Locks?
    ensures Valid(b) && TryIncrease(b, c, v, total).Locks? ==>
              && HasLocked(b, c) && b.version == v && 0 < total && b.locked <= total <= Total(b)
              && TryIncrease(b, c, v, total).balance == Locked(v, Total(b) - total, total, b.unlockHeight)
    ensures Valid(b) && !TryIncrease(b, c, v, total).Locks? ==>
              !(HasLocked(b, c) && b.version == v && 0 < total && b.locked <= total <= Total(b))
  {
    if Valid(b) {
      IncreaseIff(b, c, v, total);
    }
  }

  /** The lock event of a call to version 5 says what the contract answered. */
  function EventsOf(call: Call): seq<LockEvent> {
    if (call.Stake? || call.Update? || call.Unstake?) && ReplyOf(call).Accepted?
    then [LockEvent(ReplyOf(call).staker, ReplyOf(call).amount, ReplyOf(call).height, V5)] else []
  }

  lemma StepEmits(ctx: Ctx, call: Call)
    requires ctx.epoch >= 40 && ctx.chain.v1 <= ctx.chain.burn && Step(ctx, call).1.Done?
    ensures Step(ctx, call).0.events == ctx.events + EventsOf(call)
  {
    assert !IsDefunct(ctx, call);
  }

  // ---------- Refusals ----------

  /** Which contracts are retired: version 1 at its height, versions 2, 3 and 4 from epochs 2.2, 2.5 and 4.0 on, version 5 never. */
  lemma RetiredIff(ctx: Ctx, call: Call)
    requires !(call.Other? && call.readOnly)
    ensures var v := VersionOf(call);
            var retired := (v == V1 && ctx.chain.v1 <= ctx.chain.burn) || (v == V2 && ctx.epoch >= 22)
                           || (v == V3 && ctx.epoch >= 25) || (v == V4 && ctx.epoch >= 40);
            && (retired ==> Step(ctx, call) == (ctx, Error(Defunct)))
            && (!retired && Step(ctx, call).1 == Error(Defunct) ==>
                  call.Stack? && v == V1 && call.reply.Accepted? && AccountOf(ctx.accounts, call.reply.staker).Locked?
                  && AccountOf(ctx.accounts, call.reply.staker).version == V2)
  {
  }

  /** Version 5 reports every failure; earlier versions stop the node, except for retired contracts and for stacking what is stacked. */
  lemma FailureIsReported(ctx: Ctx, call: Call)
    ensures VersionOf(call) == V5 ==> !Step(ctx, call).1.Crash?
    ensures VersionOf(call) != V5 && HasReply(call) && Step(ctx, call).1.Error? ==>
              Step(ctx, call).1 == Error(Defunct) || (call.Stack? && Step(ctx, call).1 == Error(AlreadyLocked))
  {
    FailureKeepsAccounts(ctx, call);
  }

  /** What a transaction has noted for an account is at most its total for every staking or updating call so far. */
  lemma NotedAtMost(ctx: Ctx, es: seq<Event>, p: Principal)
    requires OneTransaction(es) && ctx.epoch >= EPOCH_40 && ctx.stacking == map[]
    ensures Noted(Run(ctx, es).stacking, p) <= LockCalls(es, p) * Total(AccountOf(ctx.accounts, p))
  {
    SharesBoundNotes(ctx, es, p);
    SharesMultiply(es, p, Total(AccountOf(ctx.accounts, p)));
  }

  /**
    So a call that reports an error changes nothing, unless the staking and updating calls of the
    transaction are so many that the staker's total, taken once for each, exceeds what can be noted.
   */
  lemma FailureKeepsAccountsInTransaction(ctx: Ctx, es: seq<Event>, call: Call)
    requires OneTransaction(es) && ctx.epoch >= EPOCH_40 && ctx.stacking == map[]
    requires forall p | NotesLock(call, p) :: (LockCalls(es, p) + 1) * Total(AccountOf(ctx.accounts, p)) <= MAX_U128
    ensures Step(Run(ctx, es), call).1.Done? || Step(Run(ctx, es), call).0 == Run(ctx, es)
  {
    var now := Run(ctx, es);
    FailureKeepsAccounts(now, call);
    if NoteOverflows(now, call) {
      NotedFits(ctx, es, ReplyOf(call).staker);
    }
  }

  lemma NotedFits(ctx: Ctx, es: seq<Event>, p: Principal)
    requires OneTransaction(es) && ctx.epoch >= EPOCH_40 && ctx.stacking == map[]
    requires (LockCalls(es, p) + 1) * Total(AccountOf(ctx.accounts, p)) <= MAX_U128
    ensures Noted(Run(ctx, es).stacking, p) + Total(AccountOf(Run(ctx, es).accounts, p)) <= MAX_U128
  {
    NotedAtMost(ctx, es, p);
    RunConserves(ctx, es, p);
  }

  // ---------- Version 5 ----------

  /** A stake or bond registration that locks an account that is locked already. */
  predicate IsRollover(ctx: Ctx, e: Event, p: Principal) {
    && e.Do? && e.call.Stake? && Concerns(e.call, p) && HasLocked(AccountOf(ctx.accounts, p), ctx.chain)
    && TryCall(ctx, e.call, AccountOf(ctx.accounts, p), ReplyOf(e.call)).Locks?
  }

  /**
    Staking or registering on a locked account rolls the lock over: the account was and stays
    locked by version 5, and the unlock height strictly rises.
   */
  lemma RolloverRaisesHeight(ctx: Ctx, call: Call, p: Principal)
    requires call.Stake? && Concerns(call, p) && Valid(AccountOf(ctx.accounts, p))
    requires HasLocked(AccountOf(ctx.accounts, p), ctx.chain) && Step(ctx, call).1.Done?
    ensures var before, after := AccountOf(ctx.accounts, p), AccountOf(Step(ctx, call).0.accounts, p);
            && before.version == V5 && after.Locked? && after.version == V5
            && HasLocked(after, ctx.chain)
            && after.unlockHeight == ReplyOf(call).height > before.unlockHeight
            && after.locked == ReplyOf(call).amount
  {
    StakeIff(AccountOf(ctx.accounts, p), ctx.chain, ReplyOf(call).amount, ReplyOf(call).height);
  }

  /**
    When the burn chain reaches the unlock height of a lock, the whole balance can be locked afresh, for
    any amount and any later height; before that, no stake can lock it for less long than it is locked.
   */
  lemma LockedUntilHeight(ctx: Ctx, p: Principal, lock: Balance, burn: u64, amount: u128, height: u64)
    requires AccountOf(ctx.accounts, p) == lock && lock.Locked? && lock.version == V5 && lock.locked != 0
    requires lock.unlocked + lock.locked <= MAX_U128 && ctx.chain.burn <= burn && ctx.stacking == map[]
    requires 0 < amount <= lock.unlocked + lock.locked && height > burn
    ensures var later := Next(ctx, Advance(burn));
            var (after, result) := Step(later, Stake(Accepted(p, amount, height)));
            && (burn >= lock.unlockHeight ==>
                  && result.Done?
                  && AccountOf(after.accounts, p) == Locked(V5, lock.unlocked + lock.locked - amount, amount, height))
            && (burn < lock.unlockHeight && height <= lock.unlockHeight ==>
                  result == Error(InvalidUnlockHeight) && after == later)
  {
    var later := Next(ctx, Advance(burn));
    LockEnds(V5, lock.unlocked, lock.locked, lock.unlockHeight, later.chain);
    StakeIff(lock, later.chain, amount, height);
  }

  lemma ActiveLockGrows(ctx: Ctx, e: Event, p: Principal)
    requires Valid(AccountOf(ctx.accounts, p)) && HasLocked(AccountOf(ctx.accounts, p), ctx.chain)
    requires !IsRollover(ctx, e, p)
    ensures AmountLocked(AccountOf(Next(ctx, e).accounts, p)) >= AmountLocked(AccountOf(ctx.accounts, p))
  {
    if e.Do? {
      StepConserves(ctx, e.call, p);
      if Concerns(e.call, p) {
        LockedStepGrows(ctx, e.call, p);
      }
    }
  }

  lemma LockedStepGrows(ctx: Ctx, call: Call, p: Principal)
    requires Valid(AccountOf(ctx.accounts, p)) && HasLocked(AccountOf(ctx.accounts, p), ctx.chain)
    requires Concerns(call, p) && !IsRollover(ctx, Do(call), p)
    ensures AmountLocked(AccountOf(Step(ctx, call).0.accounts, p)) >= AmountLocked(AccountOf(ctx.accounts, p))
  {
    var b, reply := AccountOf(ctx.accounts, p), ReplyOf(call);
    var attempt := TryCall(ctx, call, b, reply);
    if attempt.Locks? {
      assert AmountLocked(attempt.balance) >= AmountLocked(b);
    }
  }

  /** The account's lock is active in every state of the run but perhaps the last. */
  predicate ActiveThroughout(ctx: Ctx, es: seq<Event>, p: Principal)
    decreases es
  {
    es != [] ==> HasLocked(AccountOf(ctx.accounts, p), ctx.chain) && ActiveThroughout(Next(ctx, es[0]), es[1..], p)
  }

  predicate RollsOver(ctx: Ctx, es: seq<Event>, p: Principal)
    decreases es
  {
    es != [] && (IsRollover(ctx, es[0], p) || RollsOver(Next(ctx, es[0]), es[1..], p))
  }

  /** While a lock stays active its amount falls only by roll-over. */
  lemma {:induction false} ActiveLockFallsOnlyByRollover(ctx: Ctx, es: seq<Event>, p: Principal)
    requires Valid(AccountOf(ctx.accounts, p)) && ActiveThroughout(ctx, es, p)
    ensures AmountLocked(AccountOf(Run(ctx, es).accounts, p)) < AmountLocked(AccountOf(ctx.accounts, p)) ==>
              RollsOver(ctx, es, p)
    decreases es
  {
    if es != [] && !IsRollover(ctx, es[0], p) {
      ActiveLockGrows(ctx, es[0], p);
      RunConserves(ctx, [es[0]], p);
      assert Run(ctx, [es[0]]) == Run(Next(ctx, es[0]), []) == Next(ctx, es[0]);
      ActiveLockFallsOnlyByRollover(Next(ctx, es[0]), es[1..], p);
    }
  }

  /**
    After every call that emits a lock event the event and the stored lock agree.  Unstaking alone
    reports the contract's amount, which agrees exactly when the contract named the amount that is locked.
   */
  lemma EventAgrees(ctx: Ctx, call: Call)
    requires Step(ctx, call).1.Done? && HasReply(call) && ReplyOf(call).Accepted? && !IsDefunct(ctx, call)
    ensures var after := Step(ctx, call).0;
            && |after.events| == |ctx.events| + 1 && after.events[..|ctx.events|] == ctx.events
            && var event := after.events[|ctx.events|];
               var stored := AccountOf(after.accounts, event.staker);
               && event.staker == ReplyOf(call).staker && stored.Locked?
               && event.height == stored.unlockHeight && event.version == stored.version
               && (event.amount == stored.locked <==> !call.Unstake? || ReplyOf(call).amount == AmountLocked(AccountOf(ctx.accounts, event.staker)))
  {
    var reply := ReplyOf(call);
    var b := AccountOf(ctx.accounts, reply.staker);
    StoredLock(ctx, call, b, reply);
  }

  /** The amount the contract has on record for a staker: that of the last stake or update that locked. */
  function Booked(ctx: Ctx, e: Event, book: map<Principal, u128>): map<Principal, u128> {
    if e.Do? && (e.call.Stake? || e.call.Update?) && ReplyOf(e.call).Accepted?
       && TryCall(ctx, e.call, AccountOf(ctx.accounts, ReplyOf(e.call).staker), ReplyOf(e.call)).Locks?
    then book[ReplyOf(e.call).staker := ReplyOf(e.call).amount] else book
  }

  predicate Emits(ctx: Ctx, e: Event) {
    e.Do? && HasReply(e.call) && ReplyOf(e.call).Accepted? && !IsDefunct(ctx, e.call) && Step(ctx, e.call).1.Done?
  }

  /** Epochs stay at 4.0 or later, and every unstake that is accepted names the amount on record. */
  predicate ByTheBook(ctx: Ctx, es: seq<Event>, book: map<Principal, u128>)
    decreases es
  {
    es != [] ==>
      && (es[0].NewEpoch? ==> es[0].epoch >= EPOCH_40)
      && (es[0].Do? && es[0].call.Unstake? && ReplyOf(es[0].call).Accepted? ==>
            var reply := ReplyOf(es[0].call);
            reply.staker in book && reply.amount == book[reply.staker])
      && ByTheBook(Next(ctx, es[0]), es[1..], Booked(ctx, es[0], book))
  }

  /** Every lock event of the run carries the amount that is then locked. */
  predicate EventsCarryLocks(ctx: Ctx, es: seq<Event>)
    decreases es
  {
    es != [] ==>
      && (Emits(ctx, es[0]) ==>
            var after := Next(ctx, es[0]);
            && |after.events| == |ctx.events| + 1
            && after.events[|ctx.events|].amount == AmountLocked(AccountOf(after.accounts, ReplyOf(es[0].call).staker)))
      && EventsCarryLocks(Next(ctx, es[0]), es[1..])
  }

  /** In the epochs of version 5 an active lock has the recorded amount. */
  predicate BookAgrees(ctx: Ctx, book: map<Principal, u128>) {
    && ctx.epoch >= EPOCH_40 && ctx.chain.v1 <= ctx.chain.burn
    && forall p | p in book :: LockIs(ctx, p, book[p])
  }

  predicate LockIs(ctx: Ctx, p: Principal, amount: u128) {
    HasLocked(AccountOf(ctx.accounts, p), ctx.chain) ==> AmountLocked(AccountOf(ctx.accounts, p)) == amount
  }

  lemma BookKeptFor(ctx: Ctx, call: Call, book: map<Principal, u128>, p: Principal)
    requires BookAgrees(ctx, book) && p in Booked(ctx, Do(call), book)
    ensures LockIs(Step(ctx, call).0, p, Booked(ctx, Do(call), book)[p])
  {
    StepConserves(ctx, call, p);
    if p in book {
      assert LockIs(ctx, p, book[p]);
    }
    if Concerns(call, p) && !IsDefunct(ctx, call) {
      assert VersionOf(call).V5?;
      var b, reply := AccountOf(ctx.accounts, p), ReplyOf(call);
      if TryCall(ctx, call, b, reply).Locks? {
        StoredLock(ctx, call, b, reply);
        assert AccountOf(Step(ctx, call).0.accounts, p) == TryCall(ctx, call, b, reply).balance;
        if call.Unstake? {
          ExtendIff(b, ctx.chain, V5, reply.height);
        }
      } else {
        assert AccountOf(Step(ctx, call).0.accounts, p) == b;
      }
    }
  }

  lemma BookKept(ctx: Ctx, e: Event, book: map<Principal, u128>)
    requires BookAgrees(ctx, book) && (e.NewEpoch? ==> e.epoch >= EPOCH_40)
    ensures BookAgrees(Next(ctx, e), Booked(ctx, e, book))
  {
    if e.Do? {
      forall p | p in Booked(ctx, e, book) ensures LockIs(Next(ctx, e), p, Booked(ctx, e, book)[p]) {
        BookKeptFor(ctx, e.call, book, p);
      }
      StepConserves(ctx, e.call, 0);
    } else {
      forall p | p in book ensures LockIs(Next(ctx, e), p, book[p]) {
        assert LockIs(ctx, p, book[p]);
      }
    }
  }

  lemma EmittedAgrees(ctx: Ctx, e: Event, book: map<Principal, u128>)
    requires BookAgrees(ctx, book) && Emits(ctx, e)
    requires e.call.Unstake? ==> ReplyOf(e.call).staker in book && ReplyOf(e.call).amount == book[ReplyOf(e.call).staker]
    ensures var after := Next(ctx, e);
            && |after.events| == |ctx.events| + 1
            && after.events[|ctx.events|].amount == AmountLocked(AccountOf(after.accounts, ReplyOf(e.call).staker))
  {
    EventAgrees(ctx, e.call);
    if e.call.Unstake? {
      var p := ReplyOf(e.call).staker;
      assert LockIs(ctx, p, book[p]);
      ExtendIff(AccountOf(ctx.accounts, p), ctx.chain, V5, ReplyOf(e.call).height);
    }
  }

  /**
    From epoch 4.0 on, in every run in which the contract answers an unstake with the amount it has on
    record, each lock event carries the amount that is locked.
   */
  lemma {:induction false} EventsAgree(ctx: Ctx, es: seq<Event>, book: map<Principal, u128>)
    requires BookAgrees(ctx, book) && ByTheBook(ctx, es, book)
    ensures EventsCarryLocks(ctx, es)
    decreases es
  {
    if es != [] {
      BookKept(ctx, es[0], book);
      EventsAgree(Next(ctx, es[0]), es[1..], Booked(ctx, es[0], book));
      if Emits(ctx, es[0]) {
        EmittedAgrees(ctx, es[0], book);
      }
    }
  }

  lemma StoredLock(ctx: Ctx, call: Call, b: Balance, reply: Reply)
    requires HasReply(call) && reply == ReplyOf(call) && reply.Accepted? && TryCall(ctx, call, b, reply).Locks?
    ensures var stored := TryCall(ctx, call, b, reply).balance;
            && stored.Locked? && stored.version == VersionOf(call)
            && (!call.Increase? ==> stored.unlockHeight == reply.height)
            && (!call.Extend? && !call.Unstake? ==> stored.locked == reply.amount)
            && (call.Unstake? ==> stored.locked == AmountLocked(b))
  {
  }
}
