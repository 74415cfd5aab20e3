/**
  Bits of a byte, counted from the least significant one, and setting or
  clearing a single bit.
 */
module Bits {
  import opened Wire

  function Pow2(n: nat): nat {
    if n == 0 then 1 else 2 * Pow2(n - 1)
  }

  predicate Bit(x: nat, k: nat) {
    if k == 0 then x % 2 == 1 else Bit(x / 2, k - 1)
  }

  /** Bit `k` has weight two to the power of `k`. */
  lemma {:induction false} BitIs(x: nat, k: nat)
    ensures Pow2(k) > 0 && (Bit(x, k) <==> x / Pow2(k) % 2 == 1)
  {
    if k > 0 {
      BitIs(x / 2, k - 1);
      DivideTwice(x, 2, Pow2(k - 1));
    }
  }

  /** `x | (1 << k)` */
  function Or(x: nat, k: nat): nat {
    if k == 0 then (if x % 2 == 1 then x else x + 1) else 2 * Or(x / 2, k - 1) + x % 2
  }

  /** `x & !(1 << k)` */
  function AndNot(x: nat, k: nat): nat {
    if k == 0 then x - x % 2 else 2 * AndNot(x / 2, k - 1) + x % 2
  }

  lemma {:induction false} OrBits(x: nat, k: nat, j: nat)
    ensures Bit(Or(x, k), j) <==> j == k || Bit(x, j)
  {
    if k > 0 && j > 0 {
      OrBits(x / 2, k - 1, j - 1);
    }
  }

  lemma {:induction false} AndNotBits(x: nat, k: nat, j: nat)
    ensures Bit(AndNot(x, k), j) <==> j != k && Bit(x, j)
  {
    if k > 0 && j > 0 {
      AndNotBits(x / 2, k - 1, j - 1);
    }
  }

  lemma {:induction false} OrBound(x: nat, k: nat, n: nat)
    requires x < Pow2(n) && k < n
    ensures Or(x, k) < Pow2(n)
  {
    assert Pow2(n) == 2 * Pow2(n - 1);
    if k > 0 {
      OrBound(x / 2, k - 1, n - 1);
      assert Or(x, k) <= 2 * (Pow2(n - 1) - 1) + 1;
    }
  }

  lemma {:induction false} AndNotBound(x: nat, k: nat)
    ensures AndNot(x, k) <= x
  {
    if k > 0 {
      AndNotBound(x / 2, k - 1);
    }
  }

  lemma Pow2Of8()
    ensures Pow2(8) == 256
  {
    assert Pow2(3) == 8 && Pow2(6) == 8 * Pow2(3);
  }

  function SetBit(x: byte, k: nat): byte
    requires k < 8
  {
    Pow2Of8();
    OrBound(x, k, 8);
    Or(x, k)
  }

  function ClearBit(x: byte, k: nat): byte {
    AndNotBound(x, k);
    AndNot(x, k)
  }

  lemma {:induction false} ZeroBits(k: nat)
    ensures !Bit(0, k)
  {
    if k > 0 {
      ZeroBits(k - 1);
    }
  }

  /** Numbers below a power of two are the same when their bits are. */
  lemma {:induction false} BitsDetermine(x: nat, y: nat, n: nat)
    requires x < Pow2(n) && y < Pow2(n)
    requires forall k | 0 <= k < n :: Bit(x, k) <==> Bit(y, k)
    ensures x == y
  {
    if n > 0 {
      assert Bit(x, 0) <==> Bit(y, 0);
      forall k | 0 <= k < n - 1 ensures Bit(x / 2, k) <==> Bit(y / 2, k) {
        assert Bit(x, k + 1) <==> Bit(y, k + 1);
      }
      BitsDetermine(x / 2, y / 2, n - 1);
    }
  }

  lemma SameByte(x: byte, y: byte)
    requires forall k | 0 <= k < 8 :: Bit(x, k) <==> Bit(y, k)
    ensures x == y
  {
    Pow2Of8();
    BitsDetermine(x, y, 8);
  }

  lemma {:induction false} TopBits(x: nat, n: nat, k: nat)
    requires x < Pow2(n) && k >= n
    ensures !Bit(x, k)
  {
    if n == 0 {
      ZeroBits(k);
    } else {
      TopBits(x / 2, n - 1, k - 1);
    }
  }
}
