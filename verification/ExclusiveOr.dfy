/** Bitwise exclusive or on non-negative integers. */
module ExclusiveOr {
  import opened BitGroups

  function Xor(a: nat, b: nat): nat {
    if a == 0 && b == 0 then 0 else 2 * Xor(a / 2, b / 2) + (if a % 2 == b % 2 then 0 else 1)
  }

  lemma {:induction false} XorAlgebra(a: nat, b: nat, c: nat)
    ensures Xor(Xor(a, b), c) == Xor(a, Xor(b, c))
    decreases a + b + c
  {
    if a + b + c > 0 {
      XorAlgebra(a / 2, b / 2, c / 2);
      XorHalves(a, b);
      XorHalves(b, c);
      XorHalves(Xor(a, b), c);
      XorHalves(a, Xor(b, c));
    }
  }

  lemma XorHalves(a: nat, b: nat)
    ensures Xor(a, b) / 2 == Xor(a / 2, b / 2) && Xor(a, b) % 2 == if a % 2 == b % 2 then 0 else 1
  {
  }

  lemma {:induction false} XorSymmetric(a: nat, b: nat)
    ensures Xor(a, b) == Xor(b, a)
  {
    if a + b > 0 {
      XorSymmetric(a / 2, b / 2);
    }
  }

  lemma {:induction false} XorZero(a: nat)
    ensures Xor(a, 0) == a && Xor(0, a) == a && Xor(a, a) == 0
  {
    if a > 0 {
      XorZero(a / 2);
    }
  }

  lemma XorSwap(a: nat, b: nat, c: nat, d: nat)
    ensures Xor(Xor(a, b), Xor(c, d)) == Xor(Xor(a, c), Xor(b, d))
  {
    XorAlgebra(a, b, Xor(c, d));
    XorAlgebra(b, c, d);
    XorSymmetric(b, c);
    XorAlgebra(c, b, d);
    XorAlgebra(a, c, Xor(b, d));
  }

  lemma XorCancel(a: nat, b: nat)
    ensures Xor(a, Xor(a, b)) == b
  {
    XorAlgebra(a, a, b);
    XorZero(a);
    XorZero(b);
  }

  lemma {:induction false} XorBits(a: nat, b: nat, w: nat)
    ensures ShiftRight(a, w) >= 0 && ShiftRight(b, w) >= 0 && LowBits(a, w) >= 0 && LowBits(b, w) >= 0
    ensures ShiftRight(Xor(a, b), w) == Xor(ShiftRight(a, w), ShiftRight(b, w))
    ensures LowBits(Xor(a, b), w) == Xor(LowBits(a, w), LowBits(b, w))
    decreases w
  {
    if w > 0 {
      XorBits(a / 2, b / 2, w - 1);
      XorHalves(a, b);
      XorHalves(LowBits(a, w), LowBits(b, w));
    }
  }

  lemma XorDoubles(a: nat, b: nat)
    ensures Xor(2 * a, 2 * b) == 2 * Xor(a, b)
  {
    assert 2 * a / 2 == a && 2 * b / 2 == b;
  }

  lemma {:induction false} XorShiftLeft(a: nat, b: nat, w: nat)
    ensures ShiftLeft(a, w) >= 0 && ShiftLeft(b, w) >= 0
    ensures ShiftLeft(Xor(a, b), w) == Xor(ShiftLeft(a, w), ShiftLeft(b, w))
  {
    if w > 0 {
      XorShiftLeft(a, b, w - 1);
      XorDoubles(ShiftLeft(a, w - 1), ShiftLeft(b, w - 1));
    }
  }

  lemma {:induction false} XorBound(a: nat, b: nat, w: nat)
    requires a < Pow2(w) && b < Pow2(w)
    ensures Xor(a, b) < Pow2(w)
  {
    if w > 0 {
      XorBound(a / 2, b / 2, w - 1);
    }
  }

  /** Bits shifted in at the bottom are just added. */
  lemma {:induction false} XorAppends(v: nat, w: nat, x: nat)
    requires x < Pow2(w)
    ensures ShiftLeft(v, w) >= 0 && Xor(ShiftLeft(v, w), x) == ShiftLeft(v, w) + x
  {
    if w == 0 {
      XorZero(v);
    } else {
      XorAppends(v, w - 1, x / 2);
      XorHalves(ShiftLeft(v, w), x);
    }
  }

  lemma {:induction false} NonNegative(v: nat, w: nat)
    ensures ShiftLeft(v, w) >= 0 && ShiftRight(v, w) >= 0 && LowBits(v, w) >= 0
    decreases w
  {
    if w > 0 {
      NonNegative(v, w - 1);
      NonNegative(v / 2, w - 1);
    }
  }
}
