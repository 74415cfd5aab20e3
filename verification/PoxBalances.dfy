/**
  STX balances and the locks the five versions of PoX put on them.

  A lock ends at its unlock height, or earlier for locks of versions 1 to 4 once
  the height at which that version was retired is reached.  Ending is lazy: the
  stored balance keeps its lock until something writes the account.
 */
module PoxBalances {
  import opened Wire
  import opened Codecs

  const MAX_U128: nat := 0xffff_ffff_ffff_ffff_ffff_ffff_ffff_ffff

  datatype Version = V1 | V2 | V3 | V4 | V5

  datatype Balance =
    | Unlocked(amount: u128)
    | Locked(version: Version, unlocked: u128, locked: u128, unlockHeight: u64)

  /** The current burn height and the heights at which versions 1 to 4 were retired. */
  datatype Chain = Chain(burn: u64, v1: u32, v2: u32, v3: u32, v4: u32)

  function AmountUnlocked(b: Balance): u128 { if b.Unlocked? then b.amount else b.unlocked }

  function AmountLocked(b: Balance): u128 { if b.Unlocked? then 0 else b.locked }

  function UnlockHeight(b: Balance): u64 { if b.Unlocked? then 0 else b.unlockHeight }

  function Total(b: Balance): nat { AmountUnlocked(b) + AmountLocked(b) }

  /** The total can be represented; every operation keeps it so. */
  predicate Valid(b: Balance) { Total(b) <= MAX_U128 }

  predicate Retired(v: Version, c: Chain) {
    match v
    case V1 => c.v1 <= c.burn
    case V2 => c.v2 <= c.burn
    case V3 => c.v3 <= c.burn
    case V4 => c.v4 <= c.burn
    case V5 => false
  }

  predicate Expired(b: Balance, c: Chain)
    requires b.Locked?
  {
    b.unlockHeight <= c.burn || Retired(b.version, c)
  }

  predicate HasLocked(b: Balance, c: Chain) { b.Locked? && b.locked != 0 && !Expired(b, c) }

  predicate HasUnlockable(b: Balance, c: Chain) { b.Locked? && b.locked != 0 && Expired(b, c) }

  /** `None` is the error of a total that does not fit. */
  function CheckedTotal(b: Balance): Option<u128> {
    if Total(b) <= MAX_U128 then Some(Total(b)) else None
  }

  function Canonical(b: Balance, c: Chain): Option<Balance> {
    if !HasUnlockable(b, c) then Some(b)
    else match CheckedTotal(b)
         case None => None
         case Some(total) => Some(Unlocked(total))
  }

  function Available(b: Balance, c: Chain): Option<u128> {
    if HasUnlockable(b, c) then CheckedTotal(b) else Some(AmountUnlocked(b))
  }

  /** When a lock is over: at its unlock height, or when the version that made it is retired. */
  predicate IsOver(v: Version, height: u64, c: Chain) {
    || height <= c.burn
    || (v == V1 && c.v1 <= c.burn) || (v == V2 && c.v2 <= c.burn) || (v == V3 && c.v3 <= c.burn) || (v == V4 && c.v4 <= c.burn)
  }

  /** A lock that is over counts as unlocked, in full; any other stays, with only the rest available. */
  lemma LockEnds(v: Version, unlocked: u128, locked: u128, height: u64, c: Chain)
    requires locked != 0 && unlocked + locked <= 0xffff_ffff_ffff_ffff_ffff_ffff_ffff_ffff
    ensures var b := Locked(v, unlocked, locked, height);
            if IsOver(v, height, c)
            then Canonical(b, c) == Some(Unlocked(unlocked + locked)) && Available(b, c) == Some(unlocked + locked) && !HasLocked(b, c)
            else Canonical(b, c) == Some(b) && Available(b, c) == Some(unlocked) && HasLocked(b, c)
  {
  }

  /** Without a lock there is nothing to end. */
  lemma NothingEnds(b: Balance, c: Chain)
    requires b.Unlocked? || b.locked == 0
    ensures Canonical(b, c) == Some(b) && Available(b, c) == Some(AmountUnlocked(b)) && !HasLocked(b, c)
  {
  }

  /** What an operation leaves in the snapshot, and whether it succeeded. */
  datatype Change = Change(balance: Balance, ok: bool)

  function LockTokens(b: Balance, c: Chain, v: Version, amount: u128, height: u64): Change {
    match Canonical(b, c)
    case None => Change(b, false)
    case Some(a) =>
      if amount == 0 || height <= c.burn || HasLocked(a, c) || Total(a) > MAX_U128 || Total(a) < amount then Change(a, false)
      else Change(Locked(v, Total(a) - amount, amount, height), true)
  }

  function ExtendLock(b: Balance, c: Chain, v: Version, height: u64): Change {
    match Canonical(b, c)
    case None => Change(b, false)
    case Some(a) =>
      if !HasLocked(a, c) || height <= c.burn then Change(a, false)
      else Change(Locked(v, a.unlocked, a.locked, height), true)
  }

  function IncreaseLock(b: Balance, c: Chain, v: Version, total: u128): Change {
    match Canonical(b, c)
    case None => Change(b, false)
    case Some(a) =>
      if !HasLocked(a, c) || a.version != v || a.locked > total || Total(a) > MAX_U128 || Total(a) < total then Change(a, false)
      else Change(Locked(v, Total(a) - total, total, a.unlockHeight), true)
  }

  /** Unlike an increase, the new amount may be lower. */
  function SetLock(b: Balance, c: Chain, total: u128, height: u64): Change {
    match Canonical(b, c)
    case None => Change(b, false)
    case Some(a) =>
      if !HasLocked(a, c) || a.version != V5 || height <= c.burn || Total(a) > MAX_U128 || Total(a) < total then Change(a, false)
      else Change(Locked(V5, Total(a) - total, total, height), true)
  }

  /** A copy of an account's balance; nothing is stored until it is saved. */
  class BalanceSnapshot {
    var balance: Balance
    const chain: Chain

    constructor (balance: Balance, chain: Chain)
      ensures this.balance == balance && this.chain == chain
    {
      this.balance, this.chain := balance, chain;
    }

    /** Unlocks what can be unlocked at the current height. */
    method UnlockAvailable() returns (ok: bool)
      modifies this
      ensures ok <==> Canonical(old(balance), chain).Some?
      ensures balance == if ok then Canonical(old(balance), chain).value else old(balance)
      ensures Total(balance) == Total(old(balance)) && (ok ==> !HasUnlockable(balance, chain))
    {
      ok := true;
      if HasUnlockable(balance, chain) {
        if AmountUnlocked(balance) + AmountLocked(balance) > MAX_U128 {
          return false;
        }
        balance := Unlocked(AmountUnlocked(balance) + AmountLocked(balance));
      }
    }

    method Lock(v: Version, amount: u128, height: u64) returns (ok: bool)
      modifies this
      ensures Change(balance, ok) == LockTokens(old(balance), chain, v, amount, height)
      ensures Total(balance) == Total(old(balance))
    {
      var consolidated := UnlockAvailable();
      if !consolidated || amount == 0 || height <= chain.burn || HasLocked(balance, chain) {
        return false;
      }
      var total := AmountUnlocked(balance) + AmountLocked(balance);
      if total > MAX_U128 || total < amount {
        return false;
      }
      balance := Locked(v, total - amount, amount, height);
      return true;
    }

    method Extend(v: Version, height: u64) returns (ok: bool)
      modifies this
      ensures Change(balance, ok) == ExtendLock(old(balance), chain, v, height)
      ensures Total(balance) == Total(old(balance))
    {
      var consolidated := UnlockAvailable();
      if !consolidated || !HasLocked(balance, chain) || height <= chain.burn {
        return false;
      }
      balance := Locked(v, AmountUnlocked(balance), AmountLocked(balance), height);
      return true;
    }

    method Increase(v: Version, total: u128) returns (ok: bool)
      modifies this
      ensures Change(balance, ok) == IncreaseLock(old(balance), chain, v, total)
      ensures Total(balance) == Total(old(balance))
    {
      var consolidated := UnlockAvailable();
      if !consolidated || !HasLocked(balance, chain) || balance.version != v || AmountLocked(balance) > total {
        return false;
      }
      var all := AmountUnlocked(balance) + AmountLocked(balance);
      if all > MAX_U128 || all < total {
        return false;
      }
      balance := Locked(v, all - total, total, UnlockHeight(balance));
      return true;
    }

    method Set(total: u128, height: u64) returns (ok: bool)
      modifies this
      ensures Change(balance, ok) == SetLock(old(balance), chain, total, height)
      ensures Total(balance) == Total(old(balance))
    {
      var consolidated := UnlockAvailable();
      if !consolidated || !HasLocked(balance, chain) || balance.version != V5 || height <= chain.burn {
        return false;
      }
      var all := AmountUnlocked(balance) + AmountLocked(balance);
      if all > MAX_U128 || all < total {
        return false;
      }
      balance := Locked(V5, all - total, total, height);
      return true;
    }
  }
}
