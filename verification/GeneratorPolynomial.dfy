/** The bech32 checksum as a remainder of polynomials over GF(32), and known answers of the codec. */
module GeneratorPolynomial {
  import opened Prelude
  import opened BitGroups
  import opened ExclusiveOr
  import opened Bech32

  // ---------- GF(32) ----------

  /** Twice a field element: `x^5` is `x^3 + 1`, that is 9. */
  function Double(a: nat): nat {
    if a < 16 then 2 * a else Xor(2 * (a - 16), 9)
  }

  /** The product in GF(32): the sum of the doublings of `a` that the bits of `b` select. */
  function Times(a: nat, b: nat): nat
    decreases b
  {
    if b == 0 then 0 else Xor(if b % 2 == 1 then a else 0, Times(Double(a), b / 2))
  }

  function Doublings(a: nat, n: nat): nat
    decreases n
  {
    if n == 0 then a else Doublings(Double(a), n - 1)
  }

  /** The part of a product that comes from the lowest `n` bits. */
  function Partial(a: nat, b: nat, n: nat): nat {
    if n == 0 then 0
    else Xor(Partial(a, b, n - 1), if LowBits(ShiftRight(b, n - 1), 1) == 1 then Doublings(a, n - 1) else 0)
  }

  lemma {:induction false} PartialFromBelow(a: nat, b: nat, n: nat)
    requires n > 0
    ensures Partial(a, b, n) == Xor(if b % 2 == 1 then a else 0, Partial(Double(a), b / 2, n - 1))
    decreases n
  {
    assert LowBits(b / 2, 0) == 0;
    if n == 1 {
      XorZero(if b % 2 == 1 then a else 0);
    } else {
      PartialFromBelow(a, b, n - 1);
      XorAlgebra(if b % 2 == 1 then a else 0, Partial(Double(a), b / 2, n - 2),
                 if LowBits(ShiftRight(b, n - 1), 1) == 1 then Doublings(a, n - 1) else 0);
    }
  }

  lemma {:induction false} PartialIsTimes(a: nat, b: nat, n: nat)
    requires b < Pow2(n)
    ensures Partial(a, b, n) == Times(a, b)
    decreases n
  {
    if n > 0 {
      PartialFromBelow(a, b, n);
      PartialIsTimes(Double(a), b / 2, n - 1);
      XorZero(0);
    }
  }

  // ---------- polynomials, highest coefficient first ----------

  type Poly = seq<nat>

  /** `x^6 + 29 x^5 + 22 x^4 + 20 x^3 + 21 x^2 + 29 x + 18`, the generator of BIP-173. */
  const G: Poly := [1, 29, 22, 20, 21, 29, 18]

  function Plus(p: Poly, q: Poly): (s: Poly)
    requires |p| == |q|
    ensures |s| == |p|
  {
    seq(|p|, i requires 0 <= i < |p| => Xor(p[i], q[i]))
  }

  function Scaled(p: Poly, c: nat): (s: Poly)
    ensures |s| == |p|
  {
    seq(|p|, i requires 0 <= i < |p| => Times(p[i], c))
  }

  /** A multiple of the generator polynomial. */
  function TimesG(q: Poly): (p: Poly)
    ensures |p| == |q| + 6
  {
    if q == [] then Zeros(6)
    else
      var k := |q| - 1;
      Plus(TimesG(q[..k]) + [0], Zeros(k) + Scaled(G, q[k]))
  }

  /** `p` is `r` modulo the generator polynomial. */
  ghost predicate HasRemainder(p: Poly, r: Poly)
    requires |r| == 6
  {
    exists q: Poly :: |q| == |p| && InRange(q, 5) && Zeros(6) + p == Plus(TimesG(q), Zeros(|p|) + r)
  }

  // ---------- one step of the division ----------

  /** The next symbol is shifted in, and the leading coefficient is cancelled by a multiple of the generator. */
  function Cancelled(r: Poly, v: nat): (s: Poly)
    requires |r| == 6
    ensures |s| == 6
  {
    Plus(r[1..] + [v], Scaled(G[1..], r[0]))
  }

  function Divided(r: Poly, p: Poly): (s: Poly)
    requires |r| == 6
    ensures |s| == 6
  {
    if p == [] then r else Cancelled(Divided(r, p[..|p| - 1]), p[|p| - 1])
  }

  /** The constants: the coefficients of the generator polynomial below the first, each multiplied by `2^i`. */
  lemma GeneratorSymbols(i: nat)
    requires i < TAPS
    ensures InRange(Raised(i), 5) && Value(Raised(i), 5) == Generator(i)
  {
    RaisedIs(i);
    RowInRange(i);
    SixSymbols(Row(i));
  }

  /** The generator polynomial below its leading coefficient, multiplied by `2^i` in the field. */
  function Raised(i: nat): (p: Poly)
    ensures |p| == 6
  {
    if i == 0 then G[1..] else
      var p := Raised(i - 1);
      seq(6, j requires 0 <= j < 6 => Double(p[j]))
  }

  function Row(i: nat): (d: Poly)
    requires i < TAPS
    ensures |d| == 6 && forall j :: 0 <= j < 6 ==> d[j] < 32
    ensures Generator(i) == ((((d[0] * 32 + d[1]) * 32 + d[2]) * 32 + d[3]) * 32 + d[4]) * 32 + d[5]
  {
    match i
    case 0 => [29, 22, 20, 21, 29, 18]
    case 1 => [19, 5, 1, 3, 19, 13]
    case 2 => [15, 10, 2, 6, 15, 26]
    case 3 => [30, 20, 4, 12, 30, 29]
    case _ => [21, 1, 8, 24, 21, 19]
  }

  lemma {:induction false} RaisedIs(i: nat)
    requires i < TAPS
    ensures Raised(i) == Row(i)
  {
    if i == 0 {
      assert G[1..] == Row(0);
    } else {
      RaisedIs(i - 1);
      RowDoubles(i);
      RaisedFrom(i, Row(i - 1), Row(i));
    }
  }

  lemma RowInRange(i: nat)
    requires i < TAPS
    ensures InRange(Row(i), 5)
  {
    Pow2Values();
  }

  lemma RaisedFrom(i: nat, p: Poly, d: Poly)
    requires i > 0 && Raised(i - 1) == p && |d| == 6 && forall j :: 0 <= j < 6 ==> Double(p[j]) == d[j]
    ensures Raised(i) == d
  {
  }

  lemma RowDoubles(i: nat)
    requires 0 < i < TAPS
    ensures forall j :: 0 <= j < 6 ==> Double(Row(i - 1)[j]) == Row(i)[j]
  {
    if i <= 2 {
      EarlyRows(i);
    } else {
      LateRows(i);
    }
  }

  lemma EarlyRows(i: nat)
    requires 1 <= i <= 2
    ensures forall j :: 0 <= j < 6 ==> Double(Row(i - 1)[j]) == Row(i)[j]
  {
    DoublesAre(Row(i - 1));
  }

  lemma LateRows(i: nat)
    requires 3 <= i <= 4
    ensures forall j :: 0 <= j < 6 ==> Double(Row(i - 1)[j]) == Row(i)[j]
  {
    DoublesAre(Row(i - 1));
  }

  lemma DoublesAre(p: Poly)
    requires Groups(p, 32)
    ensures forall j :: 0 <= j < |p| ==>
      Double(p[j]) == if p[j] < 16 then 2 * p[j] else if p[j] / 4 % 2 == 1 then 2 * p[j] - 39 else 2 * p[j] - 23
  {
    forall j | 0 <= j < |p| && p[j] >= 16 ensures Double(p[j]) == if p[j] / 4 % 2 == 1 then 2 * p[j] - 39 else 2 * p[j] - 23 {
      DoubleIs(p[j], (p[j] - 16) / 8, p[j] / 4 % 2, p[j] / 2 % 2, p[j] % 2);
    }
  }

  lemma DoubleIs(a: nat, h: nat, c: nat, s: nat, t: nat)
    requires h < 2 && c < 2 && s < 2 && t < 2 && a == 16 + 8 * h + 4 * c + 2 * s + t
    ensures Double(a) == if c == 1 then 2 * a - 39 else 2 * a - 23
  {
    LowerBits(h, c, s, t);
    OverflowingDouble(a - 16, if c == 1 then a - 20 else a - 12);
  }

  /** What overflows comes back as 9: bit 3 is flipped, and bit 0 is set. */
  lemma OverflowingDouble(y: nat, z: nat)
    requires y < 16 && Xor(y, 4) == z
    ensures Double(16 + y) == 2 * z + 1
  {
    NextBit(y, 4, z, 0, 1);
  }

  lemma LowerBits(h: nat, c: nat, s: nat, t: nat)
    requires h < 2 && c < 2 && s < 2 && t < 2
    ensures Xor(8 * h + 4 * c + 2 * s + t, 4) == 8 * h + 4 * (1 - c) + 2 * s + t
  {
    HighBits(h, c);
    NextBit(2 * h + c, 1, 2 * h + 1 - c, s, 0);
    NextBit(4 * h + 2 * c + s, 2, 4 * h + 2 * (1 - c) + s, t, 0);
  }

  lemma HighBits(h: nat, c: nat)
    requires h < 2 && c < 2
    ensures Xor(2 * h + c, 1) == 2 * h + 1 - c
  {
    XorZero(h);
    NextBit(h, 0, h, c, 1);
  }

  lemma NextBit(p: nat, q: nat, x: nat, s: nat, t: nat)
    requires Xor(p, q) == x && s < 2 && t < 2
    ensures Xor(2 * p + s, 2 * q + t) == 2 * x + if s == t then 0 else 1
  {
    var a, b := 2 * p + s, 2 * q + t;
    assert a / 2 == p && a % 2 == s && b / 2 == q && b % 2 == t;
    XorHalves(a, b);
  }

  lemma SixSymbols(d: Poly)
    requires |d| == 6
    ensures Value(d, 5) == ((((d[0] * 32 + d[1]) * 32 + d[2]) * 32 + d[3]) * 32 + d[4]) * 32 + d[5]
  {
    assert d[..5][..4] == d[..4] && d[..4][..3] == d[..3] && d[..3][..2] == d[..2] && d[..2][..1] == d[..1];
    LastSymbol(d[..1]);
    LastSymbol(d[..2]);
    LastSymbol(d[..3]);
    LastSymbol(d[..4]);
    LastSymbol(d[..5]);
    LastSymbol(d);
  }

  lemma LastSymbol(d: Poly)
    requires d != []
    ensures Value(d, 5) == Value(d[..|d| - 1], 5) * 32 + d[|d| - 1]
  {
    Pow2Values();
    ShiftLeftIsProduct(Value(d[..|d| - 1], 5), 5);
  }

  // ---------- the checksum step is the division step ----------

  lemma {:induction false} ValuePlus(p: Poly, q: Poly, w: nat)
    requires |p| == |q| && InRange(p, w) && InRange(q, w)
    ensures Value(p, w) >= 0 && Value(q, w) >= 0 && Value(Plus(p, q), w) == Xor(Value(p, w), Value(q, w))
  {
    if p != [] {
      var k := |p| - 1;
      ValuePlus(p[..k], q[..k], w);
      assert Plus(p, q)[..k] == Plus(p[..k], q[..k]);
      DigitPlus(Value(p[..k], w), Value(q[..k], w), p[k], q[k], w);
    }
  }

  lemma DigitPlus(a: nat, b: nat, x: nat, y: nat, w: nat)
    requires x < Pow2(w) && y < Pow2(w)
    ensures ShiftLeft(a, w) >= 0 && ShiftLeft(b, w) >= 0
    ensures ShiftLeft(Xor(a, b), w) + Xor(x, y) == Xor(ShiftLeft(a, w) + x, ShiftLeft(b, w) + y)
  {
    XorBound(x, y, w);
    XorAppends(Xor(a, b), w, Xor(x, y));
    XorShiftLeft(a, b, w);
    XorAppends(a, w, x);
    XorAppends(b, w, y);
    XorSwap(ShiftLeft(a, w), ShiftLeft(b, w), x, y);
  }

  /** The first symbol is what lies above the others. */
  lemma {:induction false} FirstDigit(d: Poly, w: nat)
    requires d != []
    ensures Value(d, w) == Value(d[1..], w) + ShiftLeft(d[0], Width(w, |d| - 1))
  {
    if |d| > 1 {
      var front := d[..|d| - 1];
      FirstDigit(front, w);
      assert d[1..][..|d| - 2] == front[1..];
      ShiftLeftSum(Value(front[1..], w), ShiftLeft(d[0], Width(w, |d| - 2)), w);
      ShiftLeftTwice(d[0], Width(w, |d| - 2), w);
    } else {
      ShiftLeftZero(0, w);
    }
  }

  lemma FirstAndRest(d: Poly, w: nat)
    requires d != [] && InRange(d, w)
    ensures ShiftRight(Value(d, w), Width(w, |d| - 1)) == d[0]
    ensures LowBits(Value(d, w), Width(w, |d| - 1)) == Value(d[1..], w)
  {
    var rest, b := Value(d[1..], w), Width(w, |d| - 1);
    FirstDigit(d, w);
    AddMultiple(rest, d[0], b);
    ValueFits(d[1..], w);
    Split(rest, b);
    ShiftLeftZero(0, b);
  }

  lemma PushShifts(r: Poly, v: nat)
    requires |r| == 6 && InRange(r, 5) && v < 32
    ensures Value(r, 5) >= 0 && Push(Value(r, 5), v) == Value(r[1..] + [v], 5)
    ensures ShiftRight(Value(r, 5), 25) == r[0]
  {
    Widths(5);
    FirstAndRest(r, 5);
    Split(Value(r, 5), 25);
    NonNegative(r[0], 25);
    ValueAppend(r[1..], v, 5);
    assert v < Pow2(5) by { Pow2Values(); }
    XorAppends(Value(r[1..], 5), 5, v);
  }

  /** The multiples of the generator polynomial that the lowest `n` bits select. */
  function Taps(b: nat, n: nat): (p: Poly)
    ensures |p| == 6
  {
    if n == 0 then Zeros(6) else Plus(Taps(b, n - 1), if LowBits(ShiftRight(b, n - 1), 1) == 1 then Raised(n - 1) else Zeros(6))
  }

  lemma {:induction false} RaisedAt(i: nat, j: nat)
    requires j < 6
    ensures Raised(i)[j] == Doublings(G[j + 1], i)
  {
    if i > 0 {
      RaisedAt(i - 1, j);
      DoublingsOfDouble(G[j + 1], i - 1);
    }
  }

  lemma {:induction false} DoublingsOfDouble(a: nat, n: nat)
    ensures Doublings(a, n + 1) == Double(Doublings(a, n))
    decreases n
  {
    if n > 0 {
      DoublingsOfDouble(Double(a), n - 1);
    }
  }

  lemma {:induction false} TapsAt(b: nat, n: nat, j: nat)
    requires j < 6
    ensures Taps(b, n)[j] == Partial(G[j + 1], b, n)
  {
    if n > 0 {
      TapsAt(b, n - 1, j);
      RaisedAt(n - 1, j);
    }
  }

  lemma AllTaps(b: nat)
    requires b < 32
    ensures Taps(b, TAPS) == Scaled(G[1..], b)
  {
    assert b < Pow2(TAPS) by { Pow2Values(); }
    forall j | 0 <= j < 6 ensures Taps(b, TAPS)[j] == Scaled(G[1..], b)[j] {
      TapsAt(b, TAPS, j);
      PartialIsTimes(G[j + 1], b, TAPS);
    }
  }

  lemma PlusInRange(p: Poly, q: Poly)
    requires |p| == |q| && InRange(p, 5) && InRange(q, 5)
    ensures InRange(Plus(p, q), 5)
  {
    forall i | 0 <= i < |p| ensures Xor(p[i], q[i]) < Pow2(5) {
      XorBound(p[i], q[i], 5);
    }
  }

  lemma {:induction false} ZerosValue(n: nat, w: nat)
    ensures Value(Zeros(n), w) == 0 && InRange(Zeros(n), w)
  {
    if n > 0 {
      ZerosValue(n - 1, w);
      assert Zeros(n)[..n - 1] == Zeros(n - 1);
      ShiftLeftZero(0, w);
    }
  }

  lemma PlusZeros(p: Poly)
    ensures Plus(p, Zeros(|p|)) == p
  {
    forall i | 0 <= i < |p| ensures Xor(p[i], 0) == p[i] {
      XorZero(p[i]);
    }
  }

  lemma PlusAlgebra(p: Poly, q: Poly, r: Poly)
    requires |p| == |q| == |r|
    ensures Plus(Plus(p, q), r) == Plus(p, Plus(q, r))
  {
    forall i | 0 <= i < |p| ensures Xor(Xor(p[i], q[i]), r[i]) == Xor(p[i], Xor(q[i], r[i])) {
      XorAlgebra(p[i], q[i], r[i]);
    }
  }

  /** The state after `n` of the generators: the symbols moved up, and the multiples selected so far. */
  lemma {:induction false} StirPlus(chk: nat, v: nat, s: Poly, b: nat, n: nat)
    requires |s| == 6 && InRange(s, 5) && Push(chk, v) == Value(s, 5) && ShiftRight(chk, 25) == b && n <= TAPS
    ensures InRange(Plus(s, Taps(b, n)), 5) && Stir(chk, v, n) == Value(Plus(s, Taps(b, n)), 5)
  {
    if n == 0 {
      PlusZeros(s);
    } else {
      StirPlus(chk, v, s, b, n - 1);
      TapPlus(chk, s, b, n);
    }
  }

  lemma TapPlus(chk: nat, s: Poly, b: nat, n: nat)
    requires 0 < n <= TAPS && |s| == 6 && InRange(Plus(s, Taps(b, n - 1)), 5) && b == ShiftRight(chk, 25)
    ensures Value(Plus(s, Taps(b, n - 1)), 5) >= 0 && InRange(Plus(s, Taps(b, n)), 5)
    ensures Value(Plus(s, Taps(b, n)), 5) == Xor(Value(Plus(s, Taps(b, n - 1)), 5), Tap(chk, n - 1))
  {
    PlusAlgebra(s, Taps(b, n - 1), if LowBits(ShiftRight(b, n - 1), 1) == 1 then Raised(n - 1) else Zeros(6));
    PlusTap(Plus(s, Taps(b, n - 1)), chk, n - 1);
  }

  lemma PlusTap(p: Poly, chk: nat, i: nat)
    requires i < TAPS && |p| == 6 && InRange(p, 5)
    ensures var t := if Tapped(chk, i) then Raised(i) else Zeros(6);
      Value(p, 5) >= 0 && InRange(Plus(p, t), 5) && Value(Plus(p, t), 5) == Xor(Value(p, 5), Tap(chk, i))
  {
    var t := if Tapped(chk, i) then Raised(i) else Zeros(6);
    GeneratorSymbols(i);
    ZerosValue(6, 5);
    PlusInRange(p, t);
    ValuePlus(p, t, 5);
  }

  /** One value taken in is one step of the division. */
  lemma StirDivides(r: Poly, v: nat)
    requires |r| == 6 && InRange(r, 5) && v < 32
    ensures Value(r, 5) >= 0 && InRange(Cancelled(r, v), 5)
    ensures Stir(Value(r, 5), v, TAPS) == Value(Cancelled(r, v), 5)
  {
    PushShifts(r, v);
    assert InRange(r[1..] + [v], 5) && r[0] < 32 by { Pow2Values(); }
    StirPlus(Value(r, 5), v, r[1..] + [v], r[0], TAPS);
    AllTaps(r[0]);
  }

  lemma {:induction false} FoldDivides(r: Poly, p: Poly)
    requires |r| == 6 && InRange(r, 5) && InRange(p, 5)
    ensures Value(r, 5) >= 0 && InRange(Divided(r, p), 5)
    ensures Fold(Value(r, 5), p) == Value(Divided(r, p), 5)
  {
    PushShifts(r, 0);
    if p != [] {
      FoldDivides(r, p[..|p| - 1]);
      assert p[|p| - 1] < 32 by { Pow2Values(); }
      StirDivides(Divided(r, p[..|p| - 1]), p[|p| - 1]);
    }
  }

  // ---------- the division has a quotient ----------

  lemma {:induction false} TimesPower(k: nat, b: nat)
    requires k <= 5 && b < Pow2(5 - k)
    ensures Times(Pow2(k), b) == ShiftLeft(b, k)
    decreases b
  {
    if b > 1 {
      PowerDoubles(k);
      TimesPower(k + 1, b / 2);
    }
    ShiftLeftZero(0, k);
    ShiftLeftZero(0, k + 1);
    SumOfParts(k, b);
  }

  lemma PowerDoubles(k: nat)
    requires k < 4
    ensures Double(Pow2(k)) == Pow2(k + 1)
  {
    assert Pow2(0) == 1 && Pow2(1) == 2 && Pow2(2) == 4 && Pow2(3) == 8;
  }

  lemma SumOfParts(k: nat, b: nat)
    ensures ShiftLeft(b / 2, k + 1) >= 0
    ensures Xor(if b % 2 == 1 then Pow2(k) else 0, ShiftLeft(b / 2, k + 1)) == ShiftLeft(b, k)
  {
    var low, h := if b % 2 == 1 then Pow2(k) else 0, b / 2;
    XorAppends(h, k + 1, low);
    XorSymmetric(low, ShiftLeft(h, k + 1));
    ShiftLeftTwice(h, 1, k);
    ShiftLeftSum(ShiftLeft(h, 1), b % 2, k);
    ShiftLeftIsProduct(1, k);
    ShiftLeftZero(0, k);
  }

  lemma TimesOne(b: nat)
    requires b < 32
    ensures Times(1, b) == b
  {
    TimesPower(0, b);
  }

  /** Every polynomial is a multiple of the generator polynomial and what the division leaves of it. */
  lemma {:induction false} Quotient(p: Poly) returns (q: Poly)
    requires InRange(p, 5)
    ensures |q| == |p| && InRange(q, 5)
    ensures Zeros(6) + p == Plus(TimesG(q), Zeros(|p|) + Divided(Zeros(6), p))
  {
    q := [];
    if p == [] {
      PlusZeros(Zeros(6));
      assert Zeros(0) + Divided(Zeros(6), p) == Zeros(6);
    } else {
      var k := |p| - 1;
      var q0 := Quotient(p[..k]);
      var r := Divided(Zeros(6), p[..k]);
      ZerosValue(6, 5);
      FoldDivides(Zeros(6), p[..k]);
      q := q0 + [r[0]];
      assert q[..k] == q0;
      forall i | 0 <= i < k + 7
        ensures (Zeros(6) + p)[i] == Plus(TimesG(q), Zeros(k + 1) + Cancelled(r, p[k]))[i]
      {
        assert i < k + 6 ==> (Zeros(6) + p)[i] == (Zeros(6) + p[..k])[i];
        ProductAt(q, i);
        QuotientAt(p, TimesG(q0), TimesG(q), r, i);
      }
    }
  }

  /** A coefficient of a product: where the last coefficient of the quotient reaches. */
  lemma ProductAt(q: Poly, i: nat)
    requires q != [] && i < |q| + 6
    ensures var k := |q| - 1;
      TimesG(q)[i] ==
        if i < k then TimesG(q[..k])[i]
        else if i < k + 6 then Xor(TimesG(q[..k])[i], Times(G[i - k], q[k]))
        else Times(G[i - k], q[k])
  {
    var k := |q| - 1;
    AddedAt(TimesG(q[..k]), Scaled(G, q[k]), k, i);
  }

  lemma AddedAt(t: Poly, c: Poly, k: nat, i: nat)
    requires |t| == k + 6 && |c| == 7 && i < k + 7
    ensures Plus(t + [0], Zeros(k) + c)[i] == if i < k then t[i] else if i < k + 6 then Xor(t[i], c[i - k]) else c[6]
  {
    if i < k {
      XorZero(t[i]);
    } else if i == k + 6 {
      XorZero(c[6]);
    }
  }

  /** One coefficient of the step from a product `t` and remainder `r` to a product `u`. */
  lemma QuotientAt(p: Poly, t: Poly, u: Poly, r: Poly, i: nat)
    requires p != [] && |t| == |p| + 5 && |u| == |p| + 6 && |r| == 6 && i < |u| && r[0] < 32
    requires i < |t| ==> (Zeros(6) + p)[i] == Xor(t[i], (Zeros(|p| - 1) + r)[i])
    requires var k := |p| - 1;
      u[i] == if i < k then t[i] else if i < k + 6 then Xor(t[i], Times(G[i - k], r[0])) else Times(G[i - k], r[0])
    ensures (Zeros(6) + p)[i] == Xor(u[i], (Zeros(|p|) + Cancelled(r, p[|p| - 1]))[i])
  {
    var k := |p| - 1;
    if i >= k {
      CoefficientKept(if i < k + 6 then t[i] else 0, r, p[k], i - k);
    }
  }

  /** Cancelling moves a multiple of the generator polynomial from the remainder to the product. */
  lemma CoefficientKept(a: nat, r: Poly, v: nat, j: nat)
    requires |r| == 6 && j < 7 && r[0] < 32
    ensures Times(1, r[0]) == r[0]
    ensures Xor(if j < 6 then Xor(a, Times(G[j], r[0])) else Times(G[j], r[0]), if j == 0 then 0 else Cancelled(r, v)[j - 1])
      == if j < 6 then Xor(a, r[j]) else v
  {
    TimesOne(r[0]);
    var t := Times(G[j], r[0]);
    if j == 0 {
      XorZero(Xor(a, t));
    } else if j < 6 {
      SwapOut(a, t, r[j]);
    } else {
      XorSymmetric(v, t);
      XorCancel(t, v);
    }
  }

  lemma SwapOut(a: nat, t: nat, b: nat)
    ensures Xor(Xor(a, t), Xor(b, t)) == Xor(a, b)
  {
    XorSwap(a, t, b, t);
    XorZero(t);
    XorZero(Xor(a, b));
  }

  // ---------- and only one ----------

  lemma {:induction false} SameQuotient(q: Poly, s: Poly)
    requires |q| == |s| && InRange(q, 5) && InRange(s, 5)
    requires forall i :: 0 <= i < |q| ==> TimesG(q)[i] == TimesG(s)[i]
    ensures q == s
  {
    if q != [] {
      var k := |q| - 1;
      FrontsAgree(q, s, k);
      SameQuotient(q[..k], s[..k]);
      SameLast(q, s);
    }
  }

  lemma FrontsAgree(q: Poly, s: Poly, k: nat)
    requires |q| == |s| == k + 1 && InRange(q, 5) && InRange(s, 5)
    requires forall i :: 0 <= i <= k ==> TimesG(q)[i] == TimesG(s)[i]
    ensures forall i :: 0 <= i < k ==> TimesG(q[..k])[i] == TimesG(s[..k])[i]
    ensures Xor(TimesG(q[..k])[k], q[k]) == Xor(TimesG(s[..k])[k], s[k])
  {
    ProductFront(q);
    ProductFront(s);
    forall i | 0 <= i < k ensures TimesG(q[..k])[i] == TimesG(s[..k])[i] {
      assert TimesG(q)[i] == TimesG(s)[i];
    }
  }

  lemma SameLast(q: Poly, s: Poly)
    requires |q| == |s| > 0 && q[..|q| - 1] == s[..|q| - 1]
    requires var t := TimesG(q[..|q| - 1])[|q| - 1]; Xor(t, q[|q| - 1]) == Xor(t, s[|q| - 1])
    ensures q == s
  {
    var k := |q| - 1;
    SameAddend(TimesG(q[..k])[k], q[k], s[k]);
    assert q == q[..k] + [q[k]] && s == s[..k] + [s[k]];
  }

  lemma SameAddend(a: nat, x: nat, y: nat)
    requires Xor(a, x) == Xor(a, y)
    ensures x == y
  {
    XorCancel(a, x);
    XorCancel(a, y);
  }

  /** The last coefficient of a quotient reaches only the last seven coefficients of the product. */
  lemma ProductFront(q: Poly)
    requires q != [] && InRange(q, 5)
    ensures var k := |q| - 1;
      (forall i :: 0 <= i < k ==> TimesG(q)[i] == TimesG(q[..k])[i])
      && TimesG(q)[k] == Xor(TimesG(q[..k])[k], q[k])
  {
    var k := |q| - 1;
    assert q[k] < 32 by { Pow2Values(); }
    TimesOne(q[k]);
    ProductAt(q, k);
    forall i | 0 <= i < k ensures TimesG(q)[i] == TimesG(q[..k])[i] {
      ProductAt(q, i);
    }
  }

  lemma OneRemainder(p: Poly, r: Poly, s: Poly)
    requires |r| == |s| == 6 && HasRemainder(p, r) && HasRemainder(p, s)
    ensures r == s
  {
    var k := |p|;
    var q: Poly :| |q| == k && InRange(q, 5) && Zeros(6) + p == Plus(TimesG(q), Zeros(k) + r);
    var u: Poly :| |u| == k && InRange(u, 5) && Zeros(6) + p == Plus(TimesG(u), Zeros(k) + s);
    forall i | 0 <= i < k ensures TimesG(q)[i] == TimesG(u)[i] {
      XorZero(TimesG(q)[i]);
      XorZero(TimesG(u)[i]);
      assert Plus(TimesG(q), Zeros(k) + r)[i] == Plus(TimesG(u), Zeros(k) + s)[i];
    }
    SameQuotient(q, u);
    forall j | 0 <= j < 6 ensures r[j] == s[j] {
      assert Plus(TimesG(q), Zeros(k) + r)[k + j] == Plus(TimesG(q), Zeros(k) + s)[k + j];
      SameAddend(TimesG(q)[k + j], r[j], s[j]);
    }
  }

  // ---------- what the checksum is ----------

  /** `polymod` is the remainder, by the generator polynomial, of the values behind a leading one. */
  lemma ChecksumIsRemainder(values: seq<nat>, c: nat)
    requires InRange(values, 5) && c < Pow2(30)
    ensures Fold(1, values) == c <==> HasRemainder([1] + values, Six(c))
  {
    var p: Poly := [1] + values;
    var r := Divided(Zeros(6), p);
    assert InRange(p, 5) by { Pow2Values(); }
    FromZero(values);
    var q := Quotient(p);
    assert HasRemainder(p, r);
    SixValue(c);
    ZerosValue(6, 5);
    FoldDivides(Zeros(6), p);
    DigitsOfValue(r, 5);
    if HasRemainder(p, Six(c)) {
      OneRemainder(p, r, Six(c));
    }
  }

  lemma FromZero(values: seq<nat>)
    ensures Fold(0, [1] + values) == Fold(1, values)
  {
    FoldConcat(0, [1], values);
    assert InRange([1], 5) by { Pow2Values(); }
    FoldIsValue([1]);
    ValueAppend([], 1, 5);
    ShiftLeftZero(0, 5);
  }

  // ---------- what decodes ----------

  /** The polynomial of a string: a one, the high bits of the prefix, a zero, the low bits, and the data. */
  function Codeword(hrp: string, d: seq<nat>): Poly {
    [1] + seq(|hrp|, i requires 0 <= i < |hrp| => hrp[i] as nat / 32) + [0]
    + seq(|hrp|, i requires 0 <= i < |hrp| => hrp[i] as nat % 32) + d
  }

  lemma CodewordChecksum(hrp: string, d: seq<nat>, spec: nat)
    requires PlainHrp(hrp) && Groups(d, 32) && spec < Pow2(30)
    ensures Fold(1, Expanded(hrp) + d) == spec <==> HasRemainder(Codeword(hrp, d), Six(spec))
  {
    var values := Expanded(hrp) + d;
    assert Codeword(hrp, d) == [1] + values;
    assert InRange(values, 5) by { Pow2Values(); }
    ChecksumIsRemainder(values, spec);
  }

  /**
   A string decodes exactly when its polynomial leaves 1, or the constant of bech32m, and the symbols before the last
   six are whole bytes.
   */
  lemma DecodesIff(hrp: string, d: seq<nat>, bytes: Bytes, spec: nat)
    requires PlainHrp(hrp) && Groups(d, 32) && |d| >= 6
    ensures |CHARSET| == 32
    ensures DecodeOf(CHARSET, hrp + "1" + Chars(CHARSET, d)) == Some(Decoded(hrp, bytes, spec)) <==>
      (spec == 1 || spec == 0x2bc830a3) && HasRemainder(Codeword(hrp, d), Six(spec))
      && Convert(d[..|d| - 6], 5, 8, false) == Some(bytes)
  {
    CharsetPlaces(0);
    CharsetIsAlphabet();
    DecodeString(CHARSET, hrp, d);
    if spec == 1 || spec == 0x2bc830a3 {
      assert spec < Pow2(30) by { Pow2Values(); }
      CodewordChecksum(hrp, d, spec);
    }
  }

  /** What the encoder writes leaves the constant it was given. */
  lemma EncodedRemainder(hrp: string, bytes: Bytes, spec: nat)
    requires PlainHrp(hrp) && spec < Pow2(30)
    ensures HasRemainder(Codeword(hrp, DataOf(bytes) + Six(Checksum(Values(hrp, bytes), spec))), Six(spec))
  {
    SixHold(hrp, bytes, spec);
    CodewordChecksum(hrp, DataOf(bytes) + Six(Checksum(Values(hrp, bytes), spec)), spec);
  }
}
