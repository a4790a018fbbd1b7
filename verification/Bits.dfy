/** Bitwise operators on natural numbers, as on Python's unbounded integers: `Xor` is `^`, halving is
    `>> 1`, and a remainder by a power of two is `&` with a mask. */
module Bits {

  function Pow2(n: nat): nat {
    if n == 0 then 1 else 2 * Pow2(n - 1)
  }

  function Xor(a: nat, b: nat): nat {
    if a == 0 && b == 0 then 0 else (a % 2 + b % 2) % 2 + 2 * Xor(a / 2, b / 2)
  }

  lemma XorHalves(a: nat, b: nat)
    ensures Xor(a, b) / 2 == Xor(a / 2, b / 2)
    ensures Xor(a, b) % 2 == (a % 2 + b % 2) % 2
  {
  }

  lemma {:induction false} XorCommutes(a: nat, b: nat)
    ensures Xor(a, b) == Xor(b, a)
  {
    if a != 0 || b != 0 {
      XorCommutes(a / 2, b / 2);
    }
  }

  lemma {:induction false} XorZero(a: nat)
    ensures Xor(a, 0) == Xor(0, a) == a
  {
    if a != 0 {
      XorZero(a / 2);
    }
  }

  lemma ParityAssociates(a: nat, b: nat, c: nat)
    ensures ((a % 2 + b % 2) % 2 + c % 2) % 2 == (a % 2 + (b % 2 + c % 2) % 2) % 2
  {
    if a % 2 == 0 {
    } else if b % 2 == 0 {
    } else {
    }
  }

  lemma EqualByHalves(x: nat, y: nat)
    requires x / 2 == y / 2 && x % 2 == y % 2
    ensures x == y
  {
  }

  lemma XorParity(a: nat, b: nat)
    ensures Xor(a, b) % 2 == (a % 2 + b % 2) % 2
  {
  }

  lemma ParityChain(a: nat, b: nat, c: nat, x: nat, y: nat, left: nat, right: nat)
    requires x % 2 == (a % 2 + b % 2) % 2 && left % 2 == (x % 2 + c % 2) % 2
    requires y % 2 == (b % 2 + c % 2) % 2 && right % 2 == (a % 2 + y % 2) % 2
    ensures left % 2 == right % 2
  {
    ParityAssociates(a, b, c);
  }

  lemma ParityOfThree(a: nat, b: nat, c: nat)
    ensures Xor(Xor(a, b), c) % 2 == Xor(a, Xor(b, c)) % 2
  {
    XorParity(a, b);
    XorParity(b, c);
    XorParity(Xor(a, b), c);
    XorParity(a, Xor(b, c));
    ParityChain(a, b, c, Xor(a, b), Xor(b, c), Xor(Xor(a, b), c), Xor(a, Xor(b, c)));
  }

  lemma HalvesOfThree(a: nat, b: nat, c: nat)
    ensures Xor(Xor(a, b), c) / 2 == Xor(Xor(a / 2, b / 2), c / 2)
    ensures Xor(a, Xor(b, c)) / 2 == Xor(a / 2, Xor(b / 2, c / 2))
  {
    XorHalves(a, b);
    XorHalves(b, c);
    XorHalves(Xor(a, b), c);
    XorHalves(a, Xor(b, c));
  }

  lemma {:induction false} XorAssociates(a: nat, b: nat, c: nat)
    ensures Xor(Xor(a, b), c) == Xor(a, Xor(b, c))
    decreases a + b + c
  {
    if a != 0 || b != 0 || c != 0 {
      HalvesOfThree(a, b, c);
      XorAssociates(a / 2, b / 2, c / 2);
      ParityOfThree(a, b, c);
      EqualByHalves(Xor(Xor(a, b), c), Xor(a, Xor(b, c)));
    }
  }

  lemma {:induction false} XorSelf(a: nat)
    ensures Xor(a, a) == 0
  {
    if a != 0 {
      XorSelf(a / 2);
    }
  }

  /** Applying the same mask twice gives the value back. */
  lemma XorCancels(a: nat, b: nat)
    ensures Xor(a, Xor(a, b)) == b
    ensures Xor(Xor(b, a), a) == b
  {
    XorAssociates(a, a, b);
    XorAssociates(b, a, a);
    XorSelf(a);
    XorZero(b);
  }

  lemma {:induction false} XorBound(a: nat, b: nat, n: nat)
    requires a < Pow2(n) && b < Pow2(n)
    ensures Xor(a, b) < Pow2(n)
  {
    if n > 0 {
      XorBound(a / 2, b / 2, n - 1);
    }
  }

  /** The leading bit of `a` survives a shorter mask. */
  lemma {:induction false} XorLeadingBit(a: nat, b: nat, n: nat)
    requires Pow2(n) <= a < 2 * Pow2(n) && b < Pow2(n)
    ensures Pow2(n) <= Xor(a, b) < 2 * Pow2(n)
  {
    if n > 0 {
      XorLeadingBit(a / 2, b / 2, n - 1);
    } else {
      assert a / 2 == 0 && b / 2 == 0;
    }
  }

  lemma XorOfEven(h: nat, r: nat)
    ensures Xor(2 * h, r) == 2 * Xor(h, r / 2) + r % 2
  {
    var a := 2 * h;
    assert a / 2 == h && a % 2 == 0;
    XorHalves(a, r);
    EqualByHalves(Xor(a, r), 2 * Xor(h, r / 2) + r % 2);
  }

  lemma TwicePow2(q: nat, n: nat)
    requires n > 0
    ensures q * Pow2(n) == 2 * (q * Pow2(n - 1))
  {
  }

  /** Numbers without common bits add up. */
  lemma {:induction false} XorDisjoint(q: nat, r: nat, n: nat)
    requires r < Pow2(n)
    ensures Xor(q * Pow2(n), r) == q * Pow2(n) + r
  {
    if n == 0 {
      XorZero(q);
    } else {
      TwicePow2(q, n);
      XorOfEven(q * Pow2(n - 1), r);
      XorDisjoint(q, r / 2, n - 1);
    }
  }

  lemma ByteDisjoint(a: nat, x: nat)
    requires x < 256
    ensures Xor(256 * a, x) == 256 * a + x
  {
    assert Pow2(8) == 256;
    XorDisjoint(a, x, 8);
  }

  lemma Recompose(x: nat, h: nat, r: nat)
    requires x / 2 == h && x % 2 == r
    ensures x == 2 * h + r
  {
  }

  lemma XorOdd(a: nat, b: nat, m: nat)
    requires b / 2 == m && b % 2 == 1
    ensures Xor(a, b) == 2 * Xor(a / 2, m) + 1 - a % 2
  {
    XorHalves(a, b);
    Recompose(Xor(a, b), Xor(a / 2, m), 1 - a % 2);
  }

  /** A mask of ones complements. */
  lemma {:induction false} XorOnes(a: nat, n: nat)
    requires a < Pow2(n)
    ensures Xor(a, Pow2(n) - 1) == Pow2(n) - 1 - a
  {
    if n > 0 {
      XorOnes(a / 2, n - 1);
      XorOdd(a, Pow2(n) - 1, Pow2(n - 1) - 1);
    }
  }
}
