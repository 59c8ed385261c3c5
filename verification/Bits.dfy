/** Bitwise operations on unbounded natural numbers.

The source computes its CRC and its replay bitmap on Python integers, which have no
width.  The operators are therefore defined on `nat`, digit by digit; that a value
stays below `2^16` or `2^64` is something to be proved, not a property of the type.
*/
module Bits {

  function Pow2(k: nat): (p: nat)
    ensures p >= 1
  {
    if k == 0 then 1 else 2 * Pow2(k - 1)
  }

  /** Binary digit `i` of `n`. */
  predicate Bit(n: nat, i: nat) {
    if i == 0 then n % 2 == 1 else Bit(n / 2, i - 1)
  }

  function Digit(b: bool): nat {
    if b then 1 else 0
  }

  function Xor(a: nat, b: nat): nat {
    if a == 0 && b == 0 then 0 else 2 * Xor(a / 2, b / 2) + Digit((a % 2 == 1) != (b % 2 == 1))
  }

  function And(a: nat, b: nat): nat {
    if a == 0 && b == 0 then 0 else 2 * And(a / 2, b / 2) + Digit(a % 2 == 1 && b % 2 == 1)
  }

  function Or(a: nat, b: nat): nat {
    if a == 0 && b == 0 then 0 else 2 * Or(a / 2, b / 2) + Digit(a % 2 == 1 || b % 2 == 1)
  }

  function Shl(n: nat, s: nat): nat {
    if s == 0 then n else 2 * Shl(n, s - 1)
  }

  // ----- digits of each operator -----

  lemma {:induction false} BitOfXor(a: nat, b: nat, i: nat)
    ensures Bit(Xor(a, b), i) == (Bit(a, i) != Bit(b, i))
    decreases i
  {
    if i > 0 {
      BitOfXor(a / 2, b / 2, i - 1);
    }
  }

  lemma {:induction false} BitOfAnd(a: nat, b: nat, i: nat)
    ensures Bit(And(a, b), i) == (Bit(a, i) && Bit(b, i))
    decreases i
  {
    if i > 0 {
      BitOfAnd(a / 2, b / 2, i - 1);
    }
  }

  lemma {:induction false} BitOfOr(a: nat, b: nat, i: nat)
    ensures Bit(Or(a, b), i) == (Bit(a, i) || Bit(b, i))
    decreases i
  {
    if i > 0 {
      BitOfOr(a / 2, b / 2, i - 1);
    }
  }

  lemma {:induction false} BitOfShl(n: nat, s: nat, i: nat)
    ensures Bit(Shl(n, s), i) == (s <= i && Bit(n, i - s))
    decreases s
  {
    if s > 0 && i > 0 {
      BitOfShl(n, s - 1, i - 1);
    }
  }

  lemma {:induction false} BitOfZero(i: nat)
    ensures !Bit(0, i)
  {
    if i > 0 {
      BitOfZero(i - 1);
    }
  }

  lemma {:induction false} BitOfOne(i: nat)
    ensures Bit(1, i) == (i == 0)
  {
    if i > 0 {
      BitOfZero(i - 1);
    }
  }

  /** The digits of `2^k - 1`, the mask the source writes as a literal. */
  lemma {:induction false} BitOfMask(k: nat, i: nat)
    ensures Bit(Pow2(k) - 1, i) == (i < k)
    decreases k
  {
    if k == 0 {
      BitOfZero(i);
    } else if i > 0 {
      assert (Pow2(k) - 1) / 2 == Pow2(k - 1) - 1;
      BitOfMask(k - 1, i - 1);
    }
  }

  /** Two naturals with the same digits are equal. */
  lemma {:induction false} SameDigits(a: nat, b: nat)
    requires forall i: nat :: Bit(a, i) == Bit(b, i)
    ensures a == b
    decreases a + b
  {
    assert Bit(a, 0) == Bit(b, 0);
    if a > 0 || b > 0 {
      forall i: nat ensures Bit(a / 2, i) == Bit(b / 2, i) {
        assert Bit(a, i + 1) == Bit(b, i + 1);
      }
      SameDigits(a / 2, b / 2);
    }
  }

  /** A natural with no digit at or above `k` is below `2^k`. */
  lemma {:induction false} BelowPow2(n: nat, k: nat)
    requires forall i: nat :: k <= i ==> !Bit(n, i)
    ensures n < Pow2(k)
  {
    if n >= Pow2(k) {
      var i := TopDigit(n, k);
    }
  }

  lemma {:induction false} TopDigit(n: nat, k: nat) returns (i: nat)
    requires Pow2(k) <= n
    ensures k <= i && Bit(n, i)
    decreases n
  {
    if k > 0 {
      i := TopDigit(n / 2, k - 1);
      i := i + 1;
    } else if n % 2 == 1 {
      i := 0;
    } else {
      i := TopDigit(n / 2, 0);
      i := i + 1;
    }
  }

  // ----- algebra of exclusive or -----

  lemma XorCommutes(a: nat, b: nat)
    ensures Xor(a, b) == Xor(b, a)
  {
  }

  lemma XorAssociates(a: nat, b: nat, c: nat)
    ensures Xor(Xor(a, b), c) == Xor(a, Xor(b, c))
  {
    forall i: nat ensures Bit(Xor(Xor(a, b), c), i) == Bit(Xor(a, Xor(b, c)), i) {
      BitOfXor(Xor(a, b), c, i);
      BitOfXor(a, b, i);
      BitOfXor(a, Xor(b, c), i);
      BitOfXor(b, c, i);
    }
    SameDigits(Xor(Xor(a, b), c), Xor(a, Xor(b, c)));
  }

  lemma {:induction false} XorZero(a: nat)
    ensures Xor(a, 0) == a && Xor(0, a) == a
  {
    if a > 0 {
      XorZero(a / 2);
    }
  }

  lemma {:induction false} XorSelf(a: nat, b: nat)
    ensures Xor(a, b) == 0 <==> a == b
  {
    if a > 0 || b > 0 {
      XorSelf(a / 2, b / 2);
    }
  }

  /** Exclusive or with a fixed operand can be undone. */
  lemma XorCancels(a: nat, b: nat)
    ensures Xor(Xor(a, b), b) == a
  {
    XorAssociates(a, b, b);
    XorSelf(b, b);
    XorZero(a);
  }

  lemma {:induction false} XorBelow(a: nat, b: nat, k: nat)
    requires a < Pow2(k) && b < Pow2(k)
    ensures Xor(a, b) < Pow2(k)
    decreases k
  {
    if k > 0 {
      XorBelow(a / 2, b / 2, k - 1);
    }
  }
}
