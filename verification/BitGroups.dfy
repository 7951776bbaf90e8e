/**
 Shifts, masks and exclusive or on integers, numbers as groups of bits, and regrouping between two widths with a 32-bit
 accumulator.
 */
module BitGroups {
  import opened Prelude

  // ---------- shifts and masks ----------

  function Pow2(n: nat): (p: nat)
    ensures p > 0
  {
    if n == 0 then 1 else 2 * Pow2(n - 1)
  }

  /** `v << w` without wrap-around. */
  function ShiftLeft(v: int, w: nat): int {
    if w == 0 then v else 2 * ShiftLeft(v, w - 1)
  }

  /** `v >> w`. */
  function ShiftRight(v: int, w: nat): int
    decreases w
  {
    if w == 0 then v else ShiftRight(v / 2, w - 1)
  }

  /** `v & ((1 << w) - 1)`. */
  function LowBits(v: int, w: nat): int
    decreases w
  {
    if w == 0 then 0 else 2 * LowBits(v / 2, w - 1) + v % 2
  }

  lemma {:induction false} Split(v: int, w: nat)
    ensures v == ShiftLeft(ShiftRight(v, w), w) + LowBits(v, w) && 0 <= LowBits(v, w) < Pow2(w)
    decreases w
  {
    if w > 0 {
      Split(v / 2, w - 1);
    }
  }

  lemma {:induction false} Join(v: int, w: nat, x: int)
    requires 0 <= x < Pow2(w)
    ensures ShiftRight(ShiftLeft(v, w) + x, w) == v && LowBits(ShiftLeft(v, w) + x, w) == x
  {
    if w > 0 {
      Join(v, w - 1, x / 2);
      assert (ShiftLeft(v, w) + x) / 2 == ShiftLeft(v, w - 1) + x / 2;
    }
  }

  lemma {:induction false} ShiftRightTwice(v: int, a: nat, b: nat)
    ensures ShiftRight(ShiftRight(v, a), b) == ShiftRight(v, a + b)
    decreases a
  {
    if a > 0 {
      ShiftRightTwice(v / 2, a - 1, b);
    }
  }

  lemma {:induction false} ShiftLeftTwice(v: int, a: nat, b: nat)
    ensures ShiftLeft(ShiftLeft(v, a), b) == ShiftLeft(v, a + b)
  {
    if b > 0 {
      ShiftLeftTwice(v, a, b - 1);
    }
  }

  lemma {:induction false} ShiftLeftSum(v: int, u: int, w: nat)
    ensures ShiftLeft(v + u, w) == ShiftLeft(v, w) + ShiftLeft(u, w)
  {
    if w > 0 {
      ShiftLeftSum(v, u, w - 1);
    }
  }

  lemma {:induction false} ShiftLeftIsProduct(v: int, w: nat)
    ensures ShiftLeft(v, w) == v * Pow2(w)
  {
    if w > 0 {
      ShiftLeftIsProduct(v, w - 1);
      assert 2 * (v * Pow2(w - 1)) == v * (2 * Pow2(w - 1));
    }
  }

  lemma {:induction false} ShiftLeftZero(v: int, w: nat)
    ensures ShiftLeft(v, w) == 0 <==> v == 0
  {
    if w > 0 {
      ShiftLeftZero(v, w - 1);
    }
  }

  /** A multiple of a higher power of two does not reach the lower bits. */
  lemma {:induction false} AddMultiple(v: int, k: int, w: nat)
    ensures ShiftRight(v + ShiftLeft(k, w), w) == ShiftRight(v, w) + k
    ensures LowBits(v + ShiftLeft(k, w), w) == LowBits(v, w)
    decreases w
  {
    if w > 0 {
      assert (v + ShiftLeft(k, w)) / 2 == v / 2 + ShiftLeft(k, w - 1);
      AddMultiple(v / 2, k, w - 1);
    }
  }

  /** Zeros shifted in stay apart from the bits above. */
  lemma {:induction false} ShiftedLow(v: int, k: nat, w: nat)
    ensures LowBits(ShiftLeft(v, k), k + w) == ShiftLeft(LowBits(v, w), k)
    ensures ShiftRight(ShiftLeft(v, k), k + w) == ShiftRight(v, w)
  {
    if k > 0 {
      ShiftedLow(v, k - 1, w);
      assert ShiftLeft(v, k) / 2 == ShiftLeft(v, k - 1);
    }
  }

  lemma DoubleProduct(x: int, y: int)
    ensures 2 * (x * y) == (2 * x) * y
  {
  }

  lemma {:induction false} Pow2Add(a: nat, b: nat)
    ensures Pow2(a + b) == Pow2(a) * Pow2(b)
  {
    if a > 0 {
      Pow2Add(a - 1, b);
      DoubleProduct(Pow2(a - 1), Pow2(b));
    }
  }

  lemma Pow2Values()
    ensures Pow2(5) == 32 && Pow2(8) == 256 && Pow2(25) == 0x200_0000 && Pow2(30) == 0x4000_0000
    ensures Pow2(31) == TWO_31 && Pow2(32) == TWO_32
  {
    assert Pow2(5) == 32 && Pow2(8) == 256;
    Pow2Add(5, 5);
    Pow2Add(10, 10);
    Pow2Add(20, 5);
    Pow2Add(25, 5);
    assert Pow2(31) == 2 * Pow2(30) && Pow2(32) == 2 * Pow2(31);
  }

  // ---------- digits ----------

  predicate InRange(d: seq<int>, w: nat) {
    forall i :: 0 <= i < |d| ==> 0 <= d[i] < Pow2(w)
  }

  /** The number written with digits of `w` bits, most significant first. */
  function Value(d: seq<int>, w: nat): int {
    if d == [] then 0 else ShiftLeft(Value(d[..|d| - 1], w), w) + d[|d| - 1]
  }

  /** The last `n` digits of `w` bits of a number. */
  function Digits(v: int, w: nat, n: nat): (d: seq<int>)
    ensures |d| == n
    decreases n
  {
    if n == 0 then [] else Digits(ShiftRight(v, w), w, n - 1) + [LowBits(v, w)]
  }

  lemma {:induction false} DigitsInRange(v: int, w: nat, n: nat)
    ensures InRange(Digits(v, w, n), w)
    decreases n
  {
    if n > 0 {
      DigitsInRange(ShiftRight(v, w), w, n - 1);
      Split(v, w);
    }
  }

  lemma ValueAppend(d: seq<int>, x: int, w: nat)
    ensures Value(d + [x], w) == ShiftLeft(Value(d, w), w) + x
  {
    assert (d + [x])[..|d|] == d;
  }

  lemma {:induction false} DigitsOfValue(d: seq<int>, w: nat)
    requires InRange(d, w)
    ensures Digits(Value(d, w), w, |d|) == d
  {
    if d != [] {
      var front, last := d[..|d| - 1], d[|d| - 1];
      DigitsOfValue(front, w);
      Join(Value(front, w), w, last);
      assert d == front + [last];
    }
  }

  /** The number of bits in `n` digits of `w` bits. */
  function Width(w: nat, n: nat): nat {
    if n == 0 then 0 else w + Width(w, n - 1)
  }

  lemma {:induction false} Widths(n: nat)
    ensures Width(5, n) == 5 * n && Width(8, n) == 8 * n
  {
    if n > 0 {
      Widths(n - 1);
    }
  }

  lemma {:induction false} WidthIsProduct(w: nat, n: nat)
    ensures Width(w, n) == n * w
  {
    if n > 0 {
      WidthIsProduct(w, n - 1);
      assert n * w == (n - 1) * w + w;
    }
  }

  /** No more digits than the number has: nothing is left above them. */
  lemma {:induction false} ValueOfDigits(v: int, w: nat, n: nat)
    requires ShiftRight(v, Width(w, n)) == 0
    ensures Value(Digits(v, w, n), w) == v
    decreases n
  {
    if n > 0 {
      ShiftRightTwice(v, w, Width(w, n - 1));
      ValueOfDigits(ShiftRight(v, w), w, n - 1);
      ValueAppend(Digits(ShiftRight(v, w), w, n - 1), LowBits(v, w), w);
      Split(v, w);
    }
  }

  lemma {:induction false} ValueFits(d: seq<int>, w: nat)
    requires InRange(d, w)
    ensures ShiftRight(Value(d, w), Width(w, |d|)) == 0
  {
    if d != [] {
      var front := d[..|d| - 1];
      ValueFits(front, w);
      Join(Value(front, w), w, d[|d| - 1]);
      ShiftRightTwice(Value(d, w), w, Width(w, |front|));
    }
  }

  // ---------- a signed 32-bit accumulator ----------

  const TWO_31: int := 0x8000_0000

  /** The value of `n` as a JavaScript 32-bit integer. */
  function AsInt32(n: int): int {
    var r := n % TWO_32;
    if r < TWO_31 then r else r - TWO_32
  }

  lemma AsInt32Multiple(n: int) returns (k: int)
    ensures AsInt32(n) == n + k * TWO_32 && AsInt32(n) == n + ShiftLeft(k, 32)
  {
    k := if n % TWO_32 < TWO_31 then -(n / TWO_32) else -(n / TWO_32) - 1;
    ShiftLeftIsProduct(k, 32);
    Pow2Values();
  }

  lemma AsInt32Shifted(n: int, k: int)
    ensures AsInt32(n + ShiftLeft(k, 32)) == AsInt32(n)
  {
    ShiftLeftIsProduct(k, 32);
    Pow2Values();
  }

  /** Reading bits of the accumulator reads bits of the number it stands for. */
  lemma ReadBits(v: int, b: nat, t: nat)
    requires b + t <= 32
    ensures LowBits(ShiftRight(AsInt32(v), b), t) == LowBits(ShiftRight(v, b), t)
  {
    var k := AsInt32Multiple(v);
    var rest := 32 - b - t;
    ShiftLeftTwice(k, rest, t);
    ShiftLeftTwice(k, rest + t, b);
    AddMultiple(v, ShiftLeft(k, rest + t), b);
    AddMultiple(ShiftRight(v, b), ShiftLeft(k, rest), t);
  }

  /** Wrapping before a shift makes no difference to wrapping after it. */
  lemma WrapEarly(v: int, w: nat, x: int)
    ensures AsInt32(ShiftLeft(AsInt32(v), w) + x) == AsInt32(ShiftLeft(v, w) + x)
  {
    var k := AsInt32Multiple(v);
    ShiftLeftSum(v, ShiftLeft(k, 32), w);
    ShiftLeftTwice(k, 32, w);
    ShiftLeftTwice(k, w, 32);
    AsInt32Shifted(ShiftLeft(v, w) + x, ShiftLeft(k, w));
  }

  lemma {:induction false} ShiftBounds(h: int, b: nat, w: nat, x: int)
    requires 0 <= x < Pow2(w)
    ensures h < Pow2(b) ==> ShiftLeft(h, w) + x < Pow2(b + w)
    ensures h >= Pow2(b) ==> ShiftLeft(h, w) >= Pow2(b + w)
    ensures h >= 0 ==> ShiftLeft(h, w) >= 0
  {
    if w > 0 {
      ShiftBounds(h, b, w - 1, x / 2);
    }
  }

  lemma ShiftedSum(k: int, h: int, b: nat, w: nat)
    ensures ShiftLeft(ShiftLeft(k, b) + h, w) == ShiftLeft(h, w) + ShiftLeft(k, b + w)
  {
    ShiftLeftSum(ShiftLeft(k, b), h, w);
    ShiftLeftTwice(k, b, w);
  }

  /** Only the low bits of what is shifted matter. */
  lemma ShiftedOut(n: int, w: nat, x: int) returns (h: int)
    requires w <= 32
    ensures 0 <= h < Pow2(32 - w) && AsInt32(ShiftLeft(n, w) + x) == AsInt32(ShiftLeft(h, w) + x)
    ensures AsInt32(ShiftLeft(n, w)) == AsInt32(ShiftLeft(h, w))
  {
    h := LowBits(n, 32 - w);
    var k := ShiftRight(n, 32 - w);
    Split(n, 32 - w);
    assert ShiftLeft(n, w) == ShiftLeft(h, w) + ShiftLeft(k, 32) by { ShiftedSum(k, h, 32 - w, w); }
    AsInt32Shifted(ShiftLeft(h, w), k);
    AsInt32Shifted(ShiftLeft(h, w) + x, k);
  }

  /** After a left shift by `w` the low bits are free: a value of `w` bits is added without another wrap. */
  lemma FreeBits(n: int, w: nat, x: int)
    requires w <= 31 && 0 <= x < Pow2(w)
    ensures AsInt32(ShiftLeft(n, w)) + x == AsInt32(ShiftLeft(n, w) + x)
  {
    var h := ShiftedOut(n, w, x);
    FreeBitsBelow(h, w, x);
  }

  lemma FreeBitsBelow(h: int, w: nat, x: int)
    requires w <= 31 && 0 <= x < Pow2(w) && 0 <= h < Pow2(32 - w)
    ensures AsInt32(ShiftLeft(h, w)) + x == AsInt32(ShiftLeft(h, w) + x)
  {
    ShiftBounds(h, 31 - w, w, x);
    ShiftBounds(h, 32 - w, w, x);
    assert Pow2(31) == TWO_31 && Pow2(32) == TWO_32 by { Pow2Values(); }
    SameSide(ShiftLeft(h, w), x);
  }

  lemma SameSide(y: int, x: int)
    requires 0 <= y && 0 <= x && y + x < TWO_32 && (y + x < TWO_31 || y >= TWO_31)
    ensures AsInt32(y) + x == AsInt32(y + x)
  {
  }

  // ---------- regrouping ----------

  /** What regrouping computes: the number read with digits of `from` bits, written with digits of `to` bits. */
  function Convert(data: seq<int>, from: nat, to: nat, pad: bool): Option<seq<int>>
    requires to > 0
  {
    if !InRange(data, from) then None else
    var v, n, bits := Value(data, from), |data| * from / to, |data| * from % to;
    if pad then Some(if bits > 0 then Digits(ShiftLeft(v, to - bits), to, n + 1) else Digits(v, to, n))
    else if bits >= from || LowBits(v, bits) != 0 then None
    else Some(Digits(ShiftRight(v, bits), to, n))
  }

  /** `convertBits`: the accumulator wraps around at 32 bits. */
  method ConvertBits(data: seq<int>, from: nat, to: nat, pad: bool) returns (r: Option<seq<int>>)
    requires from > 0 && to > 0 && from + to <= 32
    ensures r == Convert(data, from, to, pad)
  {
    var acc, bits := 0, 0;
    var out: seq<int> := [];
    var i := 0;
    ghost var v := 0;
    while i < |data|
      invariant 0 <= i <= |data| && InRange(data[..i], from) && v == Value(data[..i], from)
      invariant 0 <= bits < to && Width(to, |out|) + bits == Width(from, i)
      invariant acc == AsInt32(v) && out == Digits(ShiftRight(v, bits), to, |out|)
    {
      if data[i] < 0 || ShiftRight(data[i], from) != 0 {
        Oversized(data[i], from);
        return None;
      }
      Read(data, i, from, v, bits);
      v := ShiftLeft(v, from) + data[i];
      // The bits vacated by the shift are zero, so that adding is the same as a bitwise or.
      acc := AsInt32(ShiftLeft(acc, from)) + data[i];
      bits := bits + from;
      bits, out := Drain(acc, bits, to, out, v);
      i := i + 1;
    }
    assert data[..i] == data;
    WidthIsProduct(from, |data|);
    WidthIsProduct(to, |out|);
    Counted(|data| * from, to, |out|, bits);
    r := Finish(acc, bits, from, to, pad, out, v);
  }

  /** Writes whole digits as long as the accumulator holds one. */
  method Drain(acc: int, bits0: nat, to: nat, out0: seq<int>, ghost v: int) returns (bits: nat, out: seq<int>)
    requires to > 0 && bits0 <= 32 && acc == AsInt32(v) && out0 == Digits(ShiftRight(v, bits0), to, |out0|)
    ensures bits < to && Width(to, |out|) + bits == Width(to, |out0|) + bits0
    ensures out == Digits(ShiftRight(v, bits), to, |out|)
  {
    bits, out := bits0, out0;
    while bits >= to
      invariant 0 <= bits <= bits0 && Width(to, |out|) + bits == Width(to, |out0|) + bits0
      invariant out == Digits(ShiftRight(v, bits), to, |out|)
    {
      bits := bits - to;
      ReadBits(v, bits, to);
      ShiftRightTwice(v, bits, to);
      out := out + [LowBits(ShiftRight(acc, bits), to)];
    }
  }

  /** The bits left over: written as a digit followed by zeros, or dropped when they are few and zero. */
  method Finish(acc: int, bits: nat, from: nat, to: nat, pad: bool, out: seq<int>, ghost v: int)
    returns (r: Option<seq<int>>)
    requires bits < to <= 32 && acc == AsInt32(v) && out == Digits(ShiftRight(v, bits), to, |out|)
    ensures r == if pad then
        Some(if bits > 0 then Digits(ShiftLeft(v, to - bits), to, |out| + 1) else Digits(v, to, |out|))
      else if bits >= from || LowBits(v, bits) != 0 then None
      else Some(Digits(ShiftRight(v, bits), to, |out|))
  {
    Padding(v, bits, to);
    if pad {
      if bits > 0 {
        return Some(out + [LowBits(AsInt32(ShiftLeft(acc, to - bits)), to)]);
      }
    } else if bits >= from || LowBits(AsInt32(ShiftLeft(acc, to - bits)), to) != 0 {
      return None;
    }
    r := Some(out);
  }

  lemma Oversized(x: int, w: nat)
    requires x < 0 || ShiftRight(x, w) != 0
    ensures x < 0 || x >= Pow2(w)
  {
    if 0 <= x < Pow2(w) {
      Join(0, w, x);
      ShiftLeftZero(0, w);
    }
  }

  lemma Fitting(x: int, w: nat)
    requires x >= 0 && ShiftRight(x, w) == 0
    ensures x < Pow2(w) && LowBits(x, w) == x
  {
    Split(x, w);
    ShiftLeftZero(0, w);
  }

  /** Taking in one value leaves the digits already written as they are. */
  lemma Read(data: seq<int>, i: nat, from: nat, v: int, bits: nat)
    requires i < |data| && from <= 31 && InRange(data[..i], from) && v == Value(data[..i], from)
    requires data[i] >= 0 && ShiftRight(data[i], from) == 0
    ensures var v' := ShiftLeft(v, from) + data[i];
      && InRange(data[..i + 1], from) && v' == Value(data[..i + 1], from)
      && AsInt32(ShiftLeft(AsInt32(v), from)) + data[i] == AsInt32(v')
      && ShiftRight(v', bits + from) == ShiftRight(v, bits)
  {
    Fitting(data[i], from);
    assert data[..i + 1] == data[..i] + [data[i]];
    ValueAppend(data[..i], data[i], from);
    FreeBits(AsInt32(v), from, data[i]);
    WrapEarly(v, from, data[i]);
    Join(v, from, data[i]);
    ShiftRightTwice(ShiftLeft(v, from) + data[i], from, bits);
  }

  lemma Counted(total: int, d: nat, n: nat, r: nat)
    requires d > 0 && total == n * d + r && r < d
    ensures total / d == n && total % d == r
  {
    QuotientUnique(total / d, total % d, n, r, d);
  }

  lemma MulAtLeast(k: int, d: int)
    requires k >= 1 && d > 0
    ensures k * d >= d
  {
    assert k * d == (k - 1) * d + d;
  }

  lemma QuotientUnique(a: int, b: int, q: int, r: int, d: int)
    requires 0 <= b < d && 0 <= r < d && a * d + b == q * d + r
    ensures a == q && b == r
  {
    assert (a - q) * d == a * d - q * d && (q - a) * d == q * d - a * d;
    if a > q {
      MulAtLeast(a - q, d);
    } else if a < q {
      MulAtLeast(q - a, d);
    }
  }

  /** The bits left over, moved up to a whole digit. */
  lemma Padding(v: int, bits: nat, to: nat)
    requires bits < to <= 32
    ensures LowBits(AsInt32(ShiftLeft(AsInt32(v), to - bits)), to) == ShiftLeft(LowBits(v, bits), to - bits)
    ensures LowBits(ShiftLeft(v, to - bits), to) == ShiftLeft(LowBits(v, bits), to - bits)
    ensures ShiftRight(ShiftLeft(v, to - bits), to) == ShiftRight(v, bits)
    ensures ShiftLeft(LowBits(v, bits), to - bits) == 0 <==> LowBits(v, bits) == 0
  {
    WrapEarly(v, to - bits, 0);
    ReadBits(ShiftLeft(v, to - bits), 0, to);
    ShiftedLow(v, to - bits, bits);
    ShiftLeftZero(LowBits(v, bits), to - bits);
  }

  // ---------- bytes to groups of five bits and back ----------

  /** Bytes as groups of five bits: padded with fewer than five zero bits. */
  lemma BytesToFive(bytes: seq<int>, p: nat, m: nat)
    requires InRange(bytes, 8) && p < 5 && 5 * m == 8 * |bytes| + p
    ensures Convert(bytes, 8, 5, true) == Some(Digits(ShiftLeft(Value(bytes, 8), p), 5, m))
  {
    if p == 0 {
      Counted(|bytes| * 8, 5, m, 0);
    } else {
      Counted(|bytes| * 8, 5, m - 1, 5 - p);
    }
  }

  /** Groups of five bits as bytes: fewer than five bits may be left over, and they must be zero. */
  lemma FiveToBytes(data: seq<int>, p: nat, n: nat)
    requires InRange(data, 5) && p < 8 && 5 * |data| == 8 * n + p
    ensures Convert(data, 5, 8, false) ==
      if p >= 5 || LowBits(Value(data, 5), p) != 0 then None else Some(Digits(ShiftRight(Value(data, 5), p), 8, n))
  {
    Counted(|data| * 5, 8, n, p);
  }

  /** The bits of the last byte that do not fill a group are followed by zeros, which the way back drops. */
  lemma ConvertBack(bytes: seq<int>)
    requires InRange(bytes, 8)
    ensures var five := Convert(bytes, 8, 5, true);
      five.Some? && InRange(five.value, 5) && Convert(five.value, 5, 8, false) == Some(bytes)
  {
    var n := |bytes|;
    var p, m := (5 - 8 * n % 5) % 5, (8 * n + 4) / 5;
    BytesToFive(bytes, p, m);
    var v, five := PaddedValue(bytes, p, m);
    FiveToBytes(five, p, n);
    PaddingBits(v, p);
    DigitsOfValue(bytes, 8);
  }

  lemma PaddedValue(bytes: seq<int>, p: nat, m: nat) returns (v: int, five: seq<int>)
    requires InRange(bytes, 8) && 5 * m == 8 * |bytes| + p
    ensures v == Value(bytes, 8) && five == Digits(ShiftLeft(v, p), 5, m)
    ensures InRange(five, 5) && Value(five, 5) == ShiftLeft(v, p)
  {
    v := Value(bytes, 8);
    five := Digits(ShiftLeft(v, p), 5, m);
    DigitsInRange(ShiftLeft(v, p), 5, m);
    ValueFits(bytes, 8);
    Widths(|bytes|);
    Widths(m);
    ShiftedLow(v, p, 8 * |bytes|);
    ValueOfDigits(ShiftLeft(v, p), 5, m);
  }

  lemma PaddingBits(v: int, p: nat)
    ensures LowBits(ShiftLeft(v, p), p) == 0 && ShiftRight(ShiftLeft(v, p), p) == v
  {
    ShiftedLow(v, p, 0);
    ShiftLeftZero(0, p);
  }

  /** Groups that convert to bytes are the groups of those bytes. */
  lemma ConvertForth(data: seq<int>)
    requires InRange(data, 5) && Convert(data, 5, 8, false).Some?
    ensures var bytes := Convert(data, 5, 8, false).value; InRange(bytes, 8) && Convert(bytes, 8, 5, true) == Some(data)
  {
    var p, n := 5 * |data| % 8, 5 * |data| / 8;
    FiveToBytes(data, p, n);
    var v, bytes := UnpaddedValue(data, p, n);
    BytesToFive(bytes, p, |data|);
    Split(v, p);
    DigitsOfValue(data, 5);
  }

  lemma UnpaddedValue(data: seq<int>, p: nat, n: nat) returns (v: int, bytes: seq<int>)
    requires InRange(data, 5) && 5 * |data| == 8 * n + p
    ensures v == Value(data, 5) && bytes == Digits(ShiftRight(v, p), 8, n)
    ensures InRange(bytes, 8) && Value(bytes, 8) == ShiftRight(v, p)
  {
    v := Value(data, 5);
    bytes := Digits(ShiftRight(v, p), 8, n);
    DigitsInRange(ShiftRight(v, p), 8, n);
    ValueFits(data, 5);
    Widths(|data|);
    Widths(n);
    ShiftRightTwice(v, p, 8 * n);
    ValueOfDigits(ShiftRight(v, p), 8, n);
  }
}
