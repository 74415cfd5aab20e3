/**
  Calls into the PoX contracts and the locks they cause.

  The contract decides; its response names the staker, the amount and the
  unlock height.  The node then applies the lock to the staker's account, notes
  it in the transaction's asset map, and emits a lock event.  All of that is
  here; the contracts themselves are not.
 */
module PoxLocking {
  import opened Wire
  import opened Codecs
  import opened PoxBalances

  type Principal = nat

  const EPOCH_22: nat := 22
  const EPOCH_25: nat := 25
  const EPOCH_40: nat := 40

  datatype LockError =
    | Defunct | AlreadyLocked | InsufficientBalance | ExtendNotLocked | IncreaseOnV1 | InvalidIncrease
    | UnstakeNotLocked | InvalidLockAmount | InvalidUnlockHeight | BalanceOverflow | MalformedResponse
    | Clarity | AssetMapOverflow | AssetMapOverwrite

  /** The result of trying to lock: a balance to store, an error, or a failed assertion. */
  datatype Attempt = Locks(balance: Balance) | Fails(error: LockError) | Panics

  function Saved(change: Change): Attempt {
    if change.ok then Locks(change.balance) else Fails(Clarity)
  }

  /** Version 5 reports bad arguments; earlier versions assert. */
  function BadArgument(v: Version, e: LockError): Attempt {
    if v.V5? then Fails(e) else Panics
  }

  function TryLock(b: Balance, c: Chain, v: Version, amount: u128, height: u64): Attempt {
    if height == 0 then BadArgument(v, InvalidUnlockHeight)
    else if amount == 0 then BadArgument(v, InvalidLockAmount)
    else if v.V1? && b.Locked? && b.version.V2? then Fails(Defunct)
    else if HasLocked(b, c) then Fails(AlreadyLocked)
    else match Available(b, c)
         case None => Fails(Clarity)
         case Some(available) =>
           if available < amount then Fails(InsufficientBalance) else Saved(LockTokens(b, c, v, amount, height))
  }

  /** Extends a lock of versions 2 to 4, or reschedules one of version 5. */
  function TryExtend(b: Balance, c: Chain, v: Version, height: u64): Attempt {
    if height == 0 then BadArgument(v, InvalidUnlockHeight)
    else if !HasLocked(b, c) then Fails(if v.V5? then UnstakeNotLocked else ExtendNotLocked)
    else Saved(ExtendLock(b, c, v, height))
  }

  function TryIncrease(b: Balance, c: Chain, v: Version, total: u128): Attempt {
    if total == 0 then Panics
    else if !HasLocked(b, c) then Fails(ExtendNotLocked)
    else if v.V2? && !b.version.V2? then Fails(IncreaseOnV1)
    else if Total(b) > MAX_U128 then Panics
    else if Total(b) < total then Fails(InsufficientBalance)
    else if b.locked > total then Fails(InvalidIncrease)
    else Saved(IncreaseLock(b, c, v, total))
  }

  /** The snapshot is rescheduled first and checked afterwards. */
  function TryUpdate(b: Balance, c: Chain, height: u64, total: u128): Attempt {
    if height == 0 then Fails(InvalidUnlockHeight)
    else if total == 0 then Fails(InvalidLockAmount)
    else if !HasLocked(b, c) then Fails(ExtendNotLocked)
    else
      var moved := ExtendLock(b, c, V5, height);
      if !moved.ok then Fails(Clarity)
      else if Total(moved.balance) > MAX_U128 then Fails(BalanceOverflow)
      else if Total(moved.balance) < total then Fails(InsufficientBalance)
      else if AmountLocked(moved.balance) > total then Fails(InvalidIncrease)
      else Saved(IncreaseLock(moved.balance, c, V5, total))
  }

  function TryRollover(b: Balance, c: Chain, height: u64, total: u128): Attempt {
    if total == 0 then Fails(InvalidLockAmount)
    else if !HasLocked(b, c) then Fails(ExtendNotLocked)
    else if Total(b) > MAX_U128 then Fails(BalanceOverflow)
    else if Total(b) < total then Fails(InsufficientBalance)
    else if height <= b.unlockHeight then Fails(InvalidUnlockHeight)
    else Saved(SetLock(b, c, total, height))
  }

  /** Staking and bond registration lock a free account and roll an existing lock over. */
  function TryStake(b: Balance, c: Chain, amount: u128, height: u64): Attempt {
    if HasLocked(b, c) then TryRollover(b, c, height, amount) else TryLock(b, c, V5, amount, height)
  }

  // ---------- Calls ----------

  /** What the contract answered. */
  datatype Reply = ContractError | Malformed | Accepted(staker: Principal, amount: u128, height: u64)

  type OldVersion = v: Version | !v.V5? witness V1

  /** `direct` tells the stacker's own call from one through a delegate. */
  datatype Call =
    | Stack(version: OldVersion, direct: bool, reply: Reply)
    | Extend(version: OldVersion, direct: bool, reply: Reply)
    | Increase(version: OldVersion, direct: bool, reply: Reply)
    | Delegate(sender: Option<Principal>, argument: Option<u128>)
    | Stake(reply: Reply)
    | Update(reply: Reply)
    | Unstake(sender: Option<Principal>, reply: Reply)
    | Gated(sender: Option<Principal>)
    | Other(of: Version, readOnly: bool)

  datatype LockEvent = LockEvent(staker: Principal, amount: u128, height: u64, version: Version)

  datatype Ctx = Ctx(
    accounts: map<Principal, Balance>,
    stacking: map<Principal, u128>,
    poxActions: set<Principal>,
    events: seq<LockEvent>,
    chain: Chain,
    epoch: nat)

  datatype Result = Done | Error(error: LockError) | Crash

  function AccountOf(accounts: map<Principal, Balance>, p: Principal): Balance {
    if p in accounts then accounts[p] else Unlocked(0)
  }

  function VersionOf(call: Call): Version {
    match call
    case Stack(v, _, _) => v
    case Extend(v, _, _) => v
    case Increase(v, _, _) => v
    case Delegate(_, _) => V4
    case Other(v, _) => v
    case _ => V5
  }

  /** A retired contract answers only read-only calls. */
  predicate IsDefunct(ctx: Ctx, call: Call) {
    && !(call.Other? && call.readOnly)
    && match VersionOf(call)
       case V1 => ctx.chain.v1 <= ctx.chain.burn
       case V2 => ctx.epoch >= EPOCH_22
       case V3 => ctx.epoch >= EPOCH_25
       case V4 => ctx.epoch >= EPOCH_40
       case V5 => false
  }

  /** From epoch 4.0 on amounts are summed; earlier a later entry replaces an earlier one. */
  function LogStacking(ctx: Ctx, p: Principal, amount: u128): Option<map<Principal, u128>> {
    if p in ctx.stacking && ctx.epoch >= EPOCH_40 then
      if ctx.stacking[p] + amount > MAX_U128 then None else Some(ctx.stacking[p := ctx.stacking[p] + amount])
    else Some(ctx.stacking[p := amount])
  }

  function TryCall(ctx: Ctx, call: Call, b: Balance, reply: Reply): Attempt
    requires reply.Accepted?
  {
    match call
    case Stack(v, _, _) => TryLock(b, ctx.chain, v, reply.amount, reply.height)
    case Extend(v, _, _) => TryExtend(b, ctx.chain, v, reply.height)
    case Increase(v, _, _) => TryIncrease(b, ctx.chain, v, reply.amount)
    case Stake(_) => TryStake(b, ctx.chain, reply.amount, reply.height)
    case Update(_) => TryUpdate(b, ctx.chain, reply.height, reply.amount)
    case _ => TryExtend(b, ctx.chain, V5, reply.height)
  }

  predicate HasReply(call: Call) {
    call.Stack? || call.Extend? || call.Increase? || call.Stake? || call.Update? || call.Unstake?
  }

  function ReplyOf(call: Call): Reply
    requires HasReply(call)
  {
    match call
    case Stack(_, _, r) => r
    case Extend(_, _, r) => r
    case Increase(_, _, r) => r
    case Stake(r) => r
    case Update(r) => r
    case Unstake(_, r) => r
  }

  /** Extensions and increases report the amount, and increases the height, of the stored lock. */
  function EventFor(call: Call, reply: Reply, b: Balance): LockEvent
    requires reply.Accepted?
  {
    LockEvent(reply.staker,
              if call.Extend? || call.Increase? then AmountLocked(b) else reply.amount,
              if call.Increase? then UnlockHeight(b) else reply.height,
              VersionOf(call))
  }

  /** Own calls to version 4, and staking, registering and updating in version 5, are noted in the asset map. */
  predicate IsLogged(call: Call) {
    match call
    case Stack(v, direct, _) => v.V4? && direct
    case Extend(v, direct, _) => v.V4? && direct
    case Increase(v, direct, _) => v.V4? && direct
    case Stake(_) => true
    case Update(_) => true
    case _ => false
  }

  /** Earlier versions treat most failures as bugs and stop the node. */
  function Reported(call: Call, e: LockError): Result {
    if VersionOf(call).V5? || e.Defunct? || (e.AlreadyLocked? && call.Stack?) then Error(e) else Crash
  }

  /** Applies the lock, notes it, and gives the event; each part happens only if the ones before it did. */
  function ApplyReply(ctx: Ctx, call: Call): (Ctx, Result, Option<LockEvent>)
    requires HasReply(call)
  {
    var reply := ReplyOf(call);
    match reply
    case ContractError => (ctx, Done, None)
    case Malformed => (ctx, if VersionOf(call).V5? then Error(MalformedResponse) else Crash, None)
    case Accepted(staker, _, _) =>
      match TryCall(ctx, call, AccountOf(ctx.accounts, staker), reply)
      case Fails(e) => (ctx, Reported(call, e), None)
      case Panics => (ctx, Crash, None)
      case Locks(b) =>
        var stored := ctx.(accounts := ctx.accounts[staker := b]);
        var event := EventFor(call, reply, b);
        if !IsLogged(call) then (stored, Done, Some(event))
        else match LogStacking(ctx, staker, event.amount)
             case None => (stored, Error(AssetMapOverflow), None)
             case Some(stacking) => (stored.(stacking := stacking), Done, Some(event))
  }

  /** A position-altering call leaves a record for its sender, whether or not it succeeded. */
  function Recorded(ctx: Ctx, call: Call): Ctx {
    match call
    case Unstake(Some(p), _) => ctx.(poxActions := ctx.poxActions + {p})
    case Gated(Some(p)) => ctx.(poxActions := ctx.poxActions + {p})
    case _ => ctx
  }

  function DelegateStep(ctx: Ctx, call: Call): (Ctx, Result)
    requires call.Delegate?
  {
    match (call.sender, call.argument)
    case (Some(p), Some(amount)) =>
      if p in ctx.stacking then (ctx, Error(AssetMapOverwrite))
      else (match LogStacking(ctx, p, amount)
            case None => (ctx, Error(AssetMapOverflow))
            case Some(stacking) => (ctx.(stacking := stacking), Done))
    case _ => (ctx, Error(Clarity))
  }

  function Step(ctx: Ctx, call: Call): (Ctx, Result) {
    if IsDefunct(ctx, call) then (ctx, Error(Defunct))
    else if call.Delegate? then DelegateStep(ctx, call)
    else if !HasReply(call) then (Recorded(ctx, call), Done)
    else
      var (applied, result, event) := ApplyReply(ctx, call);
      if !result.Done? then (applied, result)
      else
        var noted := Recorded(applied, call);
        (if event.Some? then noted.(events := noted.events + [event.value]) else noted, Done)
  }

  // ---------- The node ----------

  class GlobalContext {
    var accounts: map<Principal, Balance>
    var stacking: map<Principal, u128>
    var poxActions: set<Principal>
    var events: seq<LockEvent>
    const chain: Chain
    const epoch: nat

    constructor (ctx: Ctx)
      ensures State() == ctx
    {
      accounts, stacking, poxActions := ctx.accounts, ctx.stacking, ctx.poxActions;
      events, chain, epoch := ctx.events, ctx.chain, ctx.epoch;
    }

    function State(): Ctx
      reads this
    {
      Ctx(accounts, stacking, poxActions, events, chain, epoch)
    }

    method PoxLock(v: Version, p: Principal, amount: u128, height: u64) returns (r: Attempt)
      modifies this`accounts
      ensures r == TryLock(AccountOf(old(accounts), p), chain, v, amount, height)
      ensures accounts == if r.Locks? then old(accounts)[p := r.balance] else old(accounts)
    {
      if height == 0 {
        return if v.V5? then Fails(InvalidUnlockHeight) else Panics;
      }
      if amount == 0 {
        return if v.V5? then Fails(InvalidLockAmount) else Panics;
      }
      var snapshot := new BalanceSnapshot(AccountOf(accounts, p), chain);
      if v.V1? && snapshot.balance.Locked? && snapshot.balance.version.V2? {
        return Fails(Defunct);
      }
      if HasLocked(snapshot.balance, chain) {
        return Fails(AlreadyLocked);
      }
      var available := Available(snapshot.balance, chain);
      if available.None? {
        return Fails(Clarity);
      }
      if available.value < amount {
        return Fails(InsufficientBalance);
      }
      var ok := snapshot.Lock(v, amount, height);
      if !ok {
        return Fails(Clarity);
      }
      accounts := accounts[p := snapshot.balance];
      return Locks(snapshot.balance);
    }

    method PoxExtend(v: Version, p: Principal, height: u64) returns (r: Attempt)
      modifies this`accounts
      ensures r == TryExtend(AccountOf(old(accounts), p), chain, v, height)
      ensures accounts == if r.Locks? then old(accounts)[p := r.balance] else old(accounts)
    {
      if height == 0 {
        return if v.V5? then Fails(InvalidUnlockHeight) else Panics;
      }
      var snapshot := new BalanceSnapshot(AccountOf(accounts, p), chain);
      if !HasLocked(snapshot.balance, chain) {
        return Fails(if v.V5? then UnstakeNotLocked else ExtendNotLocked);
      }
      var ok := snapshot.Extend(v, height);
      if !ok {
        return Fails(Clarity);
      }
      accounts := accounts[p := snapshot.balance];
      return Locks(snapshot.balance);
    }

    method PoxIncrease(v: Version, p: Principal, total: u128) returns (r: Attempt)
      modifies this`accounts
      ensures r == TryIncrease(AccountOf(old(accounts), p), chain, v, total)
      ensures accounts == if r.Locks? then old(accounts)[p := r.balance] else old(accounts)
    {
      if total == 0 {
        return Panics;
      }
      var snapshot := new BalanceSnapshot(AccountOf(accounts, p), chain);
      if !HasLocked(snapshot.balance, chain) {
        return Fails(ExtendNotLocked);
      }
      if v.V2? && !snapshot.balance.version.V2? {
        return Fails(IncreaseOnV1);
      }
      var all := AmountUnlocked(snapshot.balance) + AmountLocked(snapshot.balance);
      if all > MAX_U128 {
        return Panics;
      }
      if all < total {
        return Fails(InsufficientBalance);
      }
      if AmountLocked(snapshot.balance) > total {
        return Fails(InvalidIncrease);
      }
      var ok := snapshot.Increase(v, total);
      if !ok {
        return Fails(Clarity);
      }
      accounts := accounts[p := snapshot.balance];
      return Locks(snapshot.balance);
    }

    /** Moves the unlock height in the snapshot before it knows whether the amount is acceptable. */
    method PoxLockUpdate(p: Principal, height: u64, total: u128) returns (r: Attempt)
      modifies this`accounts
      ensures r == TryUpdate(AccountOf(old(accounts), p), chain, height, total)
      ensures accounts == if r.Locks? then old(accounts)[p := r.balance] else old(accounts)
    {
      if height == 0 {
        return Fails(InvalidUnlockHeight);
      }
      if total == 0 {
        return Fails(InvalidLockAmount);
      }
      var snapshot := new BalanceSnapshot(AccountOf(accounts, p), chain);
      if !HasLocked(snapshot.balance, chain) {
        return Fails(ExtendNotLocked);
      }
      var moved := snapshot.Extend(V5, height);
      if !moved {
        return Fails(Clarity);
      }
      var all := AmountUnlocked(snapshot.balance) + AmountLocked(snapshot.balance);
      if all > MAX_U128 {
        return Fails(BalanceOverflow);
      }
      if all < total {
        return Fails(InsufficientBalance);
      }
      if AmountLocked(snapshot.balance) > total {
        return Fails(InvalidIncrease);
      }
      var ok := snapshot.Increase(V5, total);
      if !ok {
        return Fails(Clarity);
      }
      accounts := accounts[p := snapshot.balance];
      return Locks(snapshot.balance);
    }

    method PoxRollover(p: Principal, height: u64, total: u128) returns (r: Attempt)
      modifies this`accounts
      ensures r == TryRollover(AccountOf(old(accounts), p), chain, height, total)
      ensures accounts == if r.Locks? then old(accounts)[p := r.balance] else old(accounts)
    {
      if total == 0 {
        return Fails(InvalidLockAmount);
      }
      var snapshot := new BalanceSnapshot(AccountOf(accounts, p), chain);
      if !HasLocked(snapshot.balance, chain) {
        return Fails(ExtendNotLocked);
      }
      var all := AmountUnlocked(snapshot.balance) + AmountLocked(snapshot.balance);
      if all > MAX_U128 {
        return Fails(BalanceOverflow);
      }
      if all < total {
        return Fails(InsufficientBalance);
      }
      if height <= UnlockHeight(snapshot.balance) {
        return Fails(InvalidUnlockHeight);
      }
      var ok := snapshot.Set(total, height);
      if !ok {
        return Fails(Clarity);
      }
      accounts := accounts[p := snapshot.balance];
      return Locks(snapshot.balance);
    }

    method TryOn(call: Call, reply: Reply) returns (r: Attempt)
      requires HasReply(call) && reply.Accepted?
      modifies this`accounts
      ensures r == TryCall(old(State()), call, AccountOf(old(accounts), reply.staker), reply)
      ensures accounts == if r.Locks? then old(accounts)[reply.staker := r.balance] else old(accounts)
    {
      match call
      case Stack(v, _, _) => r := PoxLock(v, reply.staker, reply.amount, reply.height);
      case Extend(v, _, _) => r := PoxExtend(v, reply.staker, reply.height);
      case Increase(v, _, _) => r := PoxIncrease(v, reply.staker, reply.amount);
      case Update(_) => r := PoxLockUpdate(reply.staker, reply.height, reply.amount);
      case Unstake(_, _) => r := PoxExtend(V5, reply.staker, reply.height);
      case Stake(_) =>
        if HasLocked(AccountOf(accounts, reply.staker), chain) {
          r := PoxRollover(reply.staker, reply.height, reply.amount);
        } else {
          r := PoxLock(V5, reply.staker, reply.amount, reply.height);
        }
    }

    method AddStacking(p: Principal, amount: u128) returns (ok: bool)
      modifies this`stacking
      ensures ok <==> LogStacking(old(State()), p, amount).Some?
      ensures stacking == if ok then LogStacking(old(State()), p, amount).value else old(stacking)
    {
      var sum := amount;
      if p in stacking && epoch >= EPOCH_40 {
        if stacking[p] + amount > MAX_U128 {
          return false;
        }
        sum := stacking[p] + amount;
      }
      stacking := stacking[p := sum];
      return true;
    }

    method HandleReply(call: Call) returns (r: Result, event: Option<LockEvent>)
      requires HasReply(call)
      modifies this`accounts, this`stacking
      ensures (State(), r, event) == ApplyReply(old(State()), call)
    {
      var reply := ReplyOf(call);
      match reply
      case ContractError =>
        return Done, None;
      case Malformed =>
        return if VersionOf(call).V5? then Error(MalformedResponse) else Crash, None;
      case Accepted(staker, _, _) =>
        var attempt := TryOn(call, reply);
        match attempt {
          case Fails(e) =>
            return Reported(call, e), None;
          case Panics =>
            return Crash, None;
          case Locks(b) =>
            var lockEvent := EventFor(call, reply, b);
            if IsLogged(call) {
              var logged := AddStacking(staker, lockEvent.amount);
              if !logged {
                return Error(AssetMapOverflow), None;
              }
            }
            return Done, Some(lockEvent);
        }
    }

    method HandleDelegate(call: Call) returns (r: Result)
      requires call.Delegate?
      modifies this`stacking
      ensures (State(), r) == DelegateStep(old(State()), call)
    {
      if call.sender.None? || call.argument.None? {
        return Error(Clarity);
      }
      if call.sender.value in stacking {
        return Error(AssetMapOverwrite);
      }
      var logged := AddStacking(call.sender.value, call.argument.value);
      return if logged then Done else Error(AssetMapOverflow);
    }

    method HandleContractCall(call: Call) returns (r: Result)
      modifies this
      ensures (State(), r) == Step(old(State()), call)
    {
      if IsDefunct(State(), call) {
        return Error(Defunct);
      }
      if call.Delegate? {
        r := HandleDelegate(call);
        return;
      }
      var event: Option<LockEvent> := None;
      if HasReply(call) {
        r, event := HandleReply(call);
        if !r.Done? {
          return;
        }
      }
      if (call.Unstake? || call.Gated?) && call.sender.Some? {
        poxActions := poxActions + {call.sender.value};
      }
      if event.Some? {
        events := events + [event.value];
      }
      r := Done;
    }
  }
}
