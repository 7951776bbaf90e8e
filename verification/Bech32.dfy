/** Bech32 (BIP-173) and bech32m (BIP-350) strings: checksum, encoder and decoder. */
module Bech32 {
  import opened Prelude
  import opened BitGroups
  import opened ExclusiveOr

  const CHARSET: string := "qpzry9x8gf2tvdw0s3jn54khce6mua7l"
  const BECH32: nat := 1
  const BECH32M: nat := 0x2bc830a3

  // ---------- the checksum ----------

  function Generator(i: nat): nat {
    match i
    case 0 => 0x3b6a57b2
    case 1 => 0x26508e6d
    case 2 => 0x1ea119fa
    case 3 => 0x3d4233dd
    case _ => 0x2a1462b3
  }

  /** `(chk & 0x1ffffff) << 5 ^ v`. */
  function Push(chk: nat, v: nat): nat {
    NonNegative(chk, 25);
    NonNegative(LowBits(chk, 25), 5);
    Xor(ShiftLeft(LowBits(chk, 25), 5), v)
  }

  predicate Tapped(chk: nat, i: nat) {
    LowBits(ShiftRight(ShiftRight(chk, 25), i), 1) == 1
  }

  /** The generator of one of the five bits shifted out, when that bit is set. */
  function Tap(chk: nat, i: nat): nat {
    if Tapped(chk, i) then Generator(i) else 0
  }

  /** One value taken in, with the generators of the first `n` bits shifted out. */
  function Stir(chk: nat, v: nat, n: nat): nat {
    if n == 0 then Push(chk, v) else Xor(Stir(chk, v, n - 1), Tap(chk, n - 1))
  }

  const TAPS: nat := 5

  function Fold(chk: nat, values: seq<nat>): nat {
    if values == [] then chk
    else Stir(Fold(chk, values[..|values| - 1]), values[|values| - 1], TAPS)
  }

  /** The loop body of `polymod`: shifts a value in, and mixes in the generators of the bits shifted out. */
  method Absorb(before: nat, v: nat) returns (chk: nat)
    requires v < Pow2(30)
    ensures chk == Stir(before, v, TAPS) && chk < Pow2(30)
  {
    NonNegative(before, 25);
    var top: nat := ShiftRight(before, 25);
    chk := Push(before, v);
    var i := 0;
    while i < TAPS
      invariant 0 <= i <= TAPS && chk == Stir(before, v, i)
    {
      if LowBits(ShiftRight(top, i), 1) == 1 {
        chk := Xor(chk, Generator(i));
      } else {
        XorZero(chk);
      }
      i := i + 1;
    }
    StirBound(before, v, TAPS);
  }

  /** `polymod`. */
  method Polymod(values: seq<nat>) returns (chk: nat)
    requires forall i :: 0 <= i < |values| ==> values[i] < Pow2(30)
    ensures chk == Fold(1, values) && chk < Pow2(30)
  {
    chk := 1;
    Pow2Values();
    var k := 0;
    while k < |values|
      invariant 0 <= k <= |values| && chk == Fold(1, values[..k]) && chk < Pow2(30)
    {
      chk := Absorb(chk, values[k]);
      assert values[..k + 1][..k] == values[..k];
      k := k + 1;
    }
    assert values[..k] == values;
  }

  /** The checksum stays a non-negative 32-bit integer, so that no shift of the source sees a sign. */
  lemma {:induction false} StirBound(chk: nat, v: nat, n: nat)
    requires v < Pow2(30) && n <= TAPS
    ensures Stir(chk, v, n) < Pow2(30)
  {
    if n == 0 {
      Split(chk, 25);
      Pow2Values();
      ShiftBounds(LowBits(chk, 25), 25, 5, 0);
      NonNegative(LowBits(chk, 25), 5);
      XorBound(ShiftLeft(LowBits(chk, 25), 5), v, 30);
    } else {
      StirBound(chk, v, n - 1);
      Pow2Values();
      XorBound(Stir(chk, v, n - 1), Tap(chk, n - 1), 30);
    }
  }

  lemma {:induction false} FoldConcat(chk: nat, a: seq<nat>, b: seq<nat>)
    ensures Fold(chk, a + b) == Fold(Fold(chk, a), b)
  {
    if b == [] {
      assert a + b == a;
    } else {
      assert (a + b)[..|a + b| - 1] == a + b[..|b| - 1];
      FoldConcat(chk, a, b[..|b| - 1]);
    }
  }

  // ---------- the checksum is linear ----------

  lemma PushLinear(a: nat, v: nat, b: nat, w: nat)
    ensures Push(Xor(a, b), Xor(v, w)) == Xor(Push(a, v), Push(b, w))
  {
    XorBits(a, b, 25);
    XorShiftLeft(LowBits(a, 25), LowBits(b, 25), 5);
    XorSwap(ShiftLeft(LowBits(a, 25), 5), ShiftLeft(LowBits(b, 25), 5), v, w);
  }

  lemma TapLinear(a: nat, b: nat, i: nat)
    ensures Tap(Xor(a, b), i) == Xor(Tap(a, i), Tap(b, i))
  {
    XorBits(a, b, 25);
    XorBits(ShiftRight(a, 25), ShiftRight(b, 25), i);
    var x, y := ShiftRight(ShiftRight(a, 25), i), ShiftRight(ShiftRight(b, 25), i);
    XorBits(x, y, 1);
    OneBit(x);
    OneBit(y);
    XorZero(Generator(i));
  }

  lemma OneBit(x: nat)
    ensures LowBits(x, 1) == 0 || LowBits(x, 1) == 1
    ensures Xor(0, 0) == 0 && Xor(0, 1) == 1 && Xor(1, 0) == 1 && Xor(1, 1) == 0
  {
    assert LowBits(x / 2, 0) == 0;
  }

  lemma {:induction false} StirLinear(a: nat, v: nat, b: nat, w: nat, n: nat)
    ensures Stir(Xor(a, b), Xor(v, w), n) == Xor(Stir(a, v, n), Stir(b, w, n))
  {
    if n == 0 {
      PushLinear(a, v, b, w);
    } else {
      StirLinear(a, v, b, w, n - 1);
      TapLinear(a, b, n - 1);
      XorSwap(Stir(a, v, n - 1), Stir(b, w, n - 1), Tap(a, n - 1), Tap(b, n - 1));
    }
  }

  function Zeros(n: nat): seq<nat> {
    seq(n, i => 0)
  }

  /** Symbols appended act as if they were folded on their own, beside zeros in their place. */
  lemma {:induction false} FoldLinear(chk: nat, m: seq<nat>)
    ensures Fold(chk, m) == Xor(Fold(chk, Zeros(|m|)), Fold(0, m))
  {
    if m == [] {
      XorZero(chk);
    } else {
      var front, last := m[..|m| - 1], m[|m| - 1];
      FoldLinear(chk, front);
      assert Zeros(|m|)[..|m| - 1] == Zeros(|front|);
      StirLinear(Fold(chk, Zeros(|front|)), 0, Fold(0, front), last, TAPS);
      XorZero(last);
    }
  }

  // ---------- six symbols hold the whole checksum ----------

  lemma {:induction false} ZeroShifted(w: nat)
    ensures ShiftRight(0, w) == 0 && LowBits(0, w) == 0
    decreases w
  {
    if w > 0 {
      ZeroShifted(w - 1);
    }
  }

  lemma {:induction false} NoTaps(chk: nat, v: nat, n: nat)
    requires ShiftRight(chk, 25) == 0
    ensures Stir(chk, v, n) == Push(chk, v)
  {
    if n > 0 {
      NoTaps(chk, v, n - 1);
      ZeroShifted(n - 1);
      ZeroShifted(1);
      XorZero(Push(chk, v));
    }
  }

  /** From zero, up to six symbols are just put side by side. */
  lemma {:induction false} FoldIsValue(m: seq<nat>)
    requires InRange(m, 5) && |m| <= 6
    ensures Value(m, 5) == Fold(0, m)
  {
    if m != [] {
      var front, last := m[..|m| - 1], m[|m| - 1];
      FoldIsValue(front);
      ValueFits(front, 5);
      Widths(|front|);
      ShiftedFurther(Value(front, 5), 5 * |front|, 25);
      Split(Value(front, 5), 25);
      ShiftLeftZero(0, 25);
      NoTaps(Fold(0, front), last, TAPS);
      XorAppends(Fold(0, front), 5, last);
    }
  }

  lemma ShiftedFurther(v: int, a: nat, b: nat)
    requires ShiftRight(v, a) == 0 && a <= b
    ensures ShiftRight(v, b) == 0
  {
    ShiftRightTwice(v, a, b - a);
    ZeroShifted(b - a);
  }

  /** What the six symbols of the checksum are taken from. */
  function Checksum(values: seq<nat>, spec: nat): nat {
    Xor(Fold(1, values + Zeros(6)), spec)
  }

  /** Six symbols complete the values to the checksum `spec` exactly when they spell out `Checksum`. */
  lemma ChecksumForced(values: seq<nat>, m: seq<nat>, spec: nat)
    requires InRange(m, 5) && |m| == 6
    ensures Fold(1, values + m) == spec <==> Value(m, 5) == Checksum(values, spec)
  {
    FoldConcat(1, values, m);
    FoldConcat(1, values, Zeros(6));
    FoldLinear(Fold(1, values), m);
    FoldIsValue(m);
    var z := Fold(1, values + Zeros(6));
    XorCancel(z, spec);
    XorCancel(z, Fold(0, m));
  }

  // ---------- strings ----------

  predicate IsUpper(c: char) {
    'A' <= c <= 'Z'
  }

  function Lower(s: string): string {
    seq(|s|, i requires 0 <= i < |s| => if IsUpper(s[i]) then (s[i] as int + 32) as char else s[i])
  }

  function Upper(s: string): string {
    seq(|s|, i requires 0 <= i < |s| => if 'a' <= s[i] <= 'z' then (s[i] as int - 32) as char else s[i])
  }

  /** `indexOf`. */
  function FirstIndex(s: string, c: char): (i: nat)
    requires c in s
    ensures i < |s| && s[i] == c && forall j :: 0 <= j < i ==> s[j] != c
  {
    if s[0] == c then 0 else 1 + FirstIndex(s[1..], c)
  }

  /** `lastIndexOf`. */
  function LastIndex(s: string, c: char): (r: Option<nat>)
    ensures r.Some? ==> r.value < |s| && s[r.value] == c && forall j :: r.value < j < |s| ==> s[j] != c
    ensures r.None? ==> c !in s
  {
    if s == [] then None
    else if s[|s| - 1] == c then Some(|s| - 1)
    else
      assert s == s[..|s| - 1] + [s[|s| - 1]];
      LastIndex(s[..|s| - 1], c)
  }

  /** `hrpExpand`: the high bits of the characters, a zero, and the low bits. */
  function Expanded(hrp: string): (values: seq<nat>)
    ensures forall i :: 0 <= i < |values| ==> values[i] < Pow2(30)
  {
    Pow2Values();
    seq(|hrp|, i requires 0 <= i < |hrp| => hrp[i] as nat / 32) + [0]
    + seq(|hrp|, i requires 0 <= i < |hrp| => hrp[i] as nat % 32)
  }

  method HrpExpand(hrp: string) returns (out: seq<nat>)
    ensures out == Expanded(hrp)
  {
    out := [];
    var i := 0;
    while i < |hrp|
      invariant 0 <= i <= |hrp| && |out| == i
      invariant forall j :: 0 <= j < i ==> out[j] == hrp[j] as nat / 32
    {
      out := out + [hrp[i] as nat / 32];
      i := i + 1;
    }
    out := out + [0];
    i := 0;
    while i < |hrp|
      invariant 0 <= i <= |hrp| && |out| == |hrp| + 1 + i && out[|hrp|] == 0
      invariant forall j :: 0 <= j < |hrp| ==> out[j] == hrp[j] as nat / 32
      invariant forall j :: 0 <= j < i ==> out[|hrp| + 1 + j] == hrp[j] as nat % 32
    {
      out := out + [hrp[i] as nat % 32];
      i := i + 1;
    }
  }

  /** Symbols of an alphabet of `n` characters. */
  predicate Groups(d: seq<nat>, n: nat) {
    forall i :: 0 <= i < |d| ==> d[i] < n
  }

  function Chars(alphabet: string, d: seq<nat>): string
    requires Groups(d, |alphabet|)
  {
    seq(|d|, i requires 0 <= i < |d| => alphabet[d[i]])
  }

  /** The symbols spelled by a string, if all its characters are of the alphabet. */
  function Symbols(alphabet: string, s: string): (r: Option<seq<nat>>)
    ensures r.Some? <==> forall i :: 0 <= i < |s| ==> s[i] in alphabet
    ensures r.Some? ==> |r.value| == |s| && Groups(r.value, |alphabet|) && Chars(alphabet, r.value) == s
  {
    if s == [] then Some([]) else
      var front := Symbols(alphabet, s[..|s| - 1]);
      var c := s[|s| - 1];
      if front.None? || c !in alphabet then None else Some(front.value + [FirstIndex(alphabet, c)])
  }

  /** Thirty-two different characters, none of them a capital or the separator. */
  ghost predicate Alphabet(a: string) {
    |a| == 32 && forall i :: 0 <= i < 32 ==> FirstIndex(a, a[i]) == i && a[i] != '1' && !IsUpper(a[i])
  }

  function Place(c: char): nat {
    match c
    case 'q' => 0  case 'p' => 1  case 'z' => 2  case 'r' => 3  case 'y' => 4  case '9' => 5  case 'x' => 6  case '8' => 7
    case 'g' => 8  case 'f' => 9  case '2' => 10 case 't' => 11 case 'v' => 12 case 'd' => 13 case 'w' => 14 case '0' => 15
    case 's' => 16 case '3' => 17 case 'j' => 18 case 'n' => 19 case '5' => 20 case '4' => 21 case 'k' => 22 case 'h' => 23
    case 'c' => 24 case 'e' => 25 case '6' => 26 case 'm' => 27 case 'u' => 28 case 'a' => 29 case '7' => 30 case 'l' => 31
    case _ => 32
  }

  lemma CharsetPlaces(i: nat)
    requires i < 32
    ensures |CHARSET| == 32 && Place(CHARSET[i]) == i
  {
  }

  lemma CharsetPlain(i: nat)
    requires i < |CHARSET|
    ensures CHARSET[i] != '1' && !IsUpper(CHARSET[i])
  {
  }

  lemma CharsetIsAlphabet()
    ensures Alphabet(CHARSET)
  {
    CharsetPlaces(0);
    forall i | 0 <= i < 32 ensures FirstIndex(CHARSET, CHARSET[i]) == i && CHARSET[i] != '1' && !IsUpper(CHARSET[i]) {
      CharsetPlaces(i);
      CharsetPlaces(FirstIndex(CHARSET, CHARSET[i]));
      CharsetPlain(i);
    }
  }

  lemma {:induction false} SymbolsOfChars(a: string, d: seq<nat>)
    requires Alphabet(a) && Groups(d, 32)
    ensures Symbols(a, Chars(a, d)) == Some(d)
  {
    if d != [] {
      var front, last := d[..|d| - 1], d[|d| - 1];
      SymbolsOfChars(a, front);
      assert Chars(a, d)[..|d| - 1] == Chars(a, front);
      assert FirstIndex(a, a[last]) == last && d == front + [last];
    } else {
      assert Chars(a, d) == [];
    }
  }

  // ---------- encoding and decoding ----------

  datatype Decoded = Decoded(hrp: string, bytes: Bytes, spec: nat)

  /** The data part: bytes in groups of five bits. */
  function DataOf(bytes: Bytes): (d: seq<nat>)
    ensures InRange(d, 5) && Groups(d, 32) && Convert(bytes, 8, 5, true) == Some(d)
    ensures Convert(d, 5, 8, false) == Some(bytes)
  {
    Pow2Values();
    ConvertBack(bytes);
    Convert(bytes, 8, 5, true).value
  }

  /** Six symbols of five bits. */
  function Six(mod: nat): (d: seq<nat>)
    ensures |d| == 6 && InRange(d, 5) && Groups(d, 32) && d == Digits(mod, 5, 6)
  {
    Pow2Values();
    DigitsInRange(mod, 5, 6);
    Digits(mod, 5, 6)
  }

  function Values(hrp: string, bytes: Bytes): seq<nat> {
    Expanded(hrp) + DataOf(bytes)
  }

  function EncodeOf(a: string, hrp: string, bytes: Bytes, spec: nat): string
    requires |a| == 32
  {
    hrp + "1" + Chars(a, DataOf(bytes)) + Chars(a, Six(Checksum(Values(hrp, bytes), spec)))
  }

  function DecodeOf(a: string, s: string): Option<Decoded>
    requires |a| == 32
  {
    var lower := Lower(s);
    if s != lower && s != Upper(s) then None else
    match LastIndex(lower, '1')
    case None => None
    case Some(pos) =>
      if pos < 1 || pos + 7 > |lower| then None else
      match Symbols(a, lower[pos + 1..])
      case None => None
      case Some(data) => DecodeData(lower[..pos], data)
  }

  function DecodeData(hrp: string, data: seq<nat>): Option<Decoded>
    requires |data| >= 6
  {
    var spec := Fold(1, Expanded(hrp) + data);
    if spec != BECH32 && spec != BECH32M then None else
    match BytesOf(data[..|data| - 6])
    case None => None
    case Some(bytes) => Some(Decoded(hrp, bytes, spec))
  }

  function BytesOf(data: seq<nat>): (r: Option<Bytes>)
    ensures r.Some? <==> Convert(data, 5, 8, false).Some?
    ensures r.Some? ==> Convert(data, 5, 8, false) == Some(r.value) && DataOf(r.value) == data
  {
    match Convert(data, 5, 8, false)
    case None => None
    case Some(bytes) =>
      Pow2Values();
      ConvertForth(data);
      Some(bytes)
  }

  /** `mod >> (5 * (5 - i)) & 31` is symbol `i` of six. */
  lemma {:induction false} SymbolAt(v: int, n: nat, i: nat)
    requires i < n
    ensures Digits(v, 5, n)[i] == LowBits(ShiftRight(v, 5 * (n - 1 - i)), 5)
    decreases n
  {
    if i < n - 1 {
      SymbolAt(ShiftRight(v, 5), n - 1, i);
      ShiftRightTwice(v, 5, 5 * (n - 2 - i));
    }
  }

  /** `bech32Encode`. */
  method Encode(hrp: string, bytes: Bytes, spec: nat) returns (ret: string)
    requires spec < Pow2(30)
    ensures |CHARSET| == 32 && ret == EncodeOf(CHARSET, hrp, bytes, spec)
  {
    CharsetPlaces(0);
    var data := ConvertBits(bytes, 8, 5, true);
    assert data == Some(DataOf(bytes));
    var groups: seq<nat> := data.value;
    var expanded := HrpExpand(hrp);
    GroupsSmall(groups);
    var chk := Polymod(expanded + groups + Zeros(6));
    var mod := Xor(chk, spec);
    ret := hrp + "1" + Chars(CHARSET, groups);
    ret := AppendSymbols(CHARSET, ret, mod);
  }

  lemma GroupsSmall(d: seq<nat>)
    requires Groups(d, 32)
    ensures forall i :: 0 <= i < |d| ==> d[i] < Pow2(30)
  {
    Pow2Values();
  }

  method AppendSymbols(a: string, start: string, mod: nat) returns (ret: string)
    requires |a| == 32
    ensures ret == start + Chars(a, Six(mod))
  {
    ret := start;
    var i := 0;
    while i < 6
      invariant 0 <= i <= 6 && ret == start + Chars(a, Six(mod)[..i])
    {
      SymbolAt(mod, 6, i);
      ret := ret + [a[LowBits(ShiftRight(mod, 5 * (5 - i)), 5)]];
      assert Six(mod)[..i + 1] == Six(mod)[..i] + [Six(mod)[i]];
      assert Chars(a, Six(mod)[..i + 1]) == Chars(a, Six(mod)[..i]) + [a[Six(mod)[i]]];
      i := i + 1;
    }
    assert Six(mod)[..6] == Six(mod);
  }

  /** `bech32Decode`. */
  method Decode(s: string) returns (r: Option<Decoded>)
    ensures |CHARSET| == 32 && r == DecodeOf(CHARSET, s)
  {
    CharsetPlaces(0);
    var lower := Lower(s);
    if s != lower && s != Upper(s) {
      return None;
    }
    var pos := LastIndex(lower, '1');
    if pos.None? || pos.value < 1 || pos.value + 7 > |lower| {
      return None;
    }
    var hrp := lower[..pos.value];
    var data := ReadSymbols(CHARSET, lower[pos.value + 1..]);
    if data.None? {
      return None;
    }
    r := ReadData(hrp, data.value);
  }

  /** Verifies the checksum and regroups the data before it. */
  method ReadData(hrp: string, data: seq<nat>) returns (r: Option<Decoded>)
    requires |data| >= 6 && Groups(data, 32)
    ensures r == DecodeData(hrp, data)
  {
    var expanded := HrpExpand(hrp);
    GroupsSmall(data);
    var spec := Polymod(expanded + data);
    if spec != BECH32 && spec != BECH32M {
      return None;
    }
    var bytes := ConvertBits(data[..|data| - 6], 5, 8, false);
    assert bytes.Some? <==> BytesOf(data[..|data| - 6]).Some?;
    if bytes.None? {
      return None;
    }
    r := Some(Decoded(hrp, bytes.value, spec));
  }

  method ReadSymbols(a: string, s: string) returns (data: Option<seq<nat>>)
    ensures data == Symbols(a, s)
  {
    var read: seq<nat> := [];
    var i := 0;
    while i < |s|
      invariant 0 <= i <= |s| && Symbols(a, s[..i]) == Some(read)
    {
      assert s[..i + 1][..i] == s[..i];
      if s[i] !in a {
        return None;
      }
      read := read + [FirstIndex(a, s[i])];
      i := i + 1;
    }
    assert s[..i] == s;
    data := Some(read);
  }

  // ---------- the round trips ----------

  predicate PlainHrp(hrp: string) {
    hrp != "" && forall i :: 0 <= i < |hrp| ==> hrp[i] < 128 as char && !IsUpper(hrp[i])
  }

  lemma LowerPlain(s: string)
    requires forall i :: 0 <= i < |s| ==> !IsUpper(s[i])
    ensures Lower(s) == s
  {
  }

  /** The separator found is the one the encoder wrote, since no symbol is the separator. */
  lemma Separated(a: string, hrp: string, d: seq<nat>)
    requires Alphabet(a) && PlainHrp(hrp) && Groups(d, 32)
    ensures var s := hrp + "1" + Chars(a, d);
      Lower(s) == s && LastIndex(s, '1') == Some(|hrp|) && s[..|hrp|] == hrp && s[|hrp| + 1..] == Chars(a, d)
  {
    var s := hrp + "1" + Chars(a, d);
    forall j | |hrp| < j < |s| ensures s[j] != '1' && !IsUpper(s[j]) {
      assert s[j] == a[d[j - |hrp| - 1]];
    }
    assert s[|hrp|] == '1';
    LowerPlain(s);
  }

  /** Decoding an encoding returns what was encoded for the two checksum constants, and nothing for any other. */
  lemma DecodeEncoded(hrp: string, bytes: Bytes, spec: nat)
    requires PlainHrp(hrp) && spec < Pow2(30)
    ensures |CHARSET| == 32
    ensures DecodeOf(CHARSET, EncodeOf(CHARSET, hrp, bytes, spec)) ==
      if spec == BECH32 || spec == BECH32M then Some(Decoded(hrp, bytes, spec)) else None
  {
    CharsetPlaces(0);
    CharsetIsAlphabet();
    DecodeEncodedIn(CHARSET, hrp, bytes, spec);
  }

  lemma DecodeEncodedIn(a: string, hrp: string, bytes: Bytes, spec: nat)
    requires Alphabet(a) && PlainHrp(hrp) && spec < Pow2(30)
    ensures DecodeOf(a, EncodeOf(a, hrp, bytes, spec)) ==
      if spec == BECH32 || spec == BECH32M then Some(Decoded(hrp, bytes, spec)) else None
  {
    var data := DataOf(bytes) + Six(Checksum(Values(hrp, bytes), spec));
    EncodeString(a, hrp, bytes, spec);
    assert DecodeOf(a, hrp + "1" + Chars(a, data)) == DecodeData(hrp, data) by { DecodeString(a, hrp, data); }
    DecodeForced(hrp, bytes, spec);
  }

  lemma EncodeString(a: string, hrp: string, bytes: Bytes, spec: nat)
    requires |a| == 32
    ensures EncodeOf(a, hrp, bytes, spec) == hrp + "1" + Chars(a, DataOf(bytes) + Six(Checksum(Values(hrp, bytes), spec)))
  {
    var d, m := DataOf(bytes), Six(Checksum(Values(hrp, bytes), spec));
    CharsConcat(a, d, m);
    assert hrp + "1" + (Chars(a, d) + Chars(a, m)) == hrp + "1" + Chars(a, d) + Chars(a, m);
  }

  lemma CharsConcat(a: string, d: seq<nat>, m: seq<nat>)
    requires Groups(d, |a|) && Groups(m, |a|)
    ensures Groups(d + m, |a|) && Chars(a, d + m) == Chars(a, d) + Chars(a, m)
  {
  }

  lemma DecodeString(a: string, hrp: string, d: seq<nat>)
    requires Alphabet(a) && PlainHrp(hrp) && Groups(d, 32) && |d| >= 6
    ensures DecodeOf(a, hrp + "1" + Chars(a, d)) == DecodeData(hrp, d)
  {
    Separated(a, hrp, d);
    SymbolsOfChars(a, d);
  }

  lemma DecodeForced(hrp: string, bytes: Bytes, spec: nat)
    requires spec < Pow2(30)
    ensures var m := Six(Checksum(Values(hrp, bytes), spec));
      DecodeData(hrp, DataOf(bytes) + m) ==
      if spec == BECH32 || spec == BECH32M then Some(Decoded(hrp, bytes, spec)) else None
  {
    var d, m := DataOf(bytes), Six(Checksum(Values(hrp, bytes), spec));
    SixHold(hrp, bytes, spec);
    BytesOfData(bytes);
    DecodeVerified(hrp, d, m, bytes, spec);
  }

  lemma BytesOfData(bytes: Bytes)
    ensures BytesOf(DataOf(bytes)) == Some(bytes)
  {
  }

  lemma DecodeVerified(hrp: string, d: seq<nat>, m: seq<nat>, bytes: Bytes, spec: nat)
    requires |m| == 6 && Fold(1, Expanded(hrp) + (d + m)) == spec && BytesOf(d) == Some(bytes)
    ensures DecodeData(hrp, d + m) == if spec == BECH32 || spec == BECH32M then Some(Decoded(hrp, bytes, spec)) else None
  {
    assert (d + m)[..|d + m| - 6] == d;
  }

  /** The six symbols make the checksum come out as `spec`. */
  lemma SixHold(hrp: string, bytes: Bytes, spec: nat)
    requires spec < Pow2(30)
    ensures Fold(1, Expanded(hrp) + (DataOf(bytes) + Six(Checksum(Values(hrp, bytes), spec)))) == spec
  {
    SixComplete(Values(hrp, bytes), spec);
    Reassociate(Expanded(hrp), DataOf(bytes), Six(Checksum(Values(hrp, bytes), spec)));
  }

  lemma Reassociate(a: seq<nat>, b: seq<nat>, c: seq<nat>)
    ensures a + b + c == a + (b + c)
  {
  }

  lemma SixComplete(values: seq<nat>, spec: nat)
    requires spec < Pow2(30)
    ensures Fold(1, values + Six(Checksum(values, spec))) == spec
  {
    var mod := Checksum(values, spec);
    ChecksumBound(values, spec);
    SixValue(mod);
    ChecksumForced(values, Six(mod), spec);
  }

  lemma SixValue(mod: nat)
    requires mod < Pow2(30)
    ensures Value(Six(mod), 5) == mod
  {
    Widths(6);
    Join(0, 30, mod);
    ShiftLeftZero(0, 30);
    ValueOfDigits(mod, 5, 6);
  }

  lemma ChecksumBound(values: seq<nat>, spec: nat)
    requires spec < Pow2(30)
    ensures Checksum(values, spec) < Pow2(30)
  {
    var all := values + Zeros(6);
    Pow2Values();
    StirBound(Fold(1, all[..|all| - 1]), 0, TAPS);
    XorBound(Fold(1, all), spec, 30);
  }

  /** A string with letters of both cases does not decode, and one in capitals decodes like the one in small letters. */
  lemma LetterCases(a: string, s: string)
    requires |a| == 32
    ensures (exists i, j :: 0 <= i < |s| && 0 <= j < |s| && 'A' <= s[i] <= 'Z' && 'a' <= s[j] <= 'z') ==>
      DecodeOf(a, s).None?
    ensures (forall i :: 0 <= i < |s| ==> !('A' <= s[i] <= 'Z')) ==> DecodeOf(a, Upper(s)) == DecodeOf(a, s)
  {
    if i, j :| 0 <= i < |s| && 0 <= j < |s| && 'A' <= s[i] <= 'Z' && 'a' <= s[j] <= 'z' {
      assert Lower(s)[i] != s[i] && Upper(s)[j] != s[j];
    } else if forall i :: 0 <= i < |s| ==> !('A' <= s[i] <= 'Z') {
      assert Lower(Upper(s)) == s && Lower(s) == s && Upper(Upper(s)) == Upper(s);
    }
  }

  /** Whatever decodes is the encoding of what it decodes to, up to the case of its letters. */
  lemma EncodeDecoded(s: string)
    requires |CHARSET| == 32 && DecodeOf(CHARSET, s).Some?
    ensures var d := DecodeOf(CHARSET, s).value; EncodeOf(CHARSET, d.hrp, d.bytes, d.spec) == Lower(s)
  {
    EncodeDecodedIn(CHARSET, s);
  }

  lemma EncodeDecodedIn(a: string, s: string)
    requires |a| == 32 && DecodeOf(a, s).Some?
    ensures var d := DecodeOf(a, s).value; EncodeOf(a, d.hrp, d.bytes, d.spec) == Lower(s)
  {
    var d := DecodeOf(a, s).value;
    var hrp, data := DecodedParts(a, s);
    DecodedData(hrp, data, d);
    EncodeString(a, hrp, d.bytes, d.spec);
  }

  /** The parts of a string that decodes. */
  lemma DecodedParts(a: string, s: string) returns (hrp: string, data: seq<nat>)
    requires |a| == 32 && DecodeOf(a, s).Some?
    ensures Groups(data, 32) && |data| >= 6 && DecodeData(hrp, data) == DecodeOf(a, s)
    ensures Lower(s) == hrp + "1" + Chars(a, data)
  {
    var lower := Lower(s);
    var pos := LastIndex(lower, '1').value;
    hrp, data := lower[..pos], Symbols(a, lower[pos + 1..]).value;
    assert lower == lower[..pos] + [lower[pos]] + lower[pos + 1..];
  }

  lemma DecodedData(hrp: string, data: seq<nat>, d: Decoded)
    requires Groups(data, 32) && |data| >= 6 && DecodeData(hrp, data) == Some(d)
    ensures d.hrp == hrp && DataOf(d.bytes) + Six(Checksum(Values(hrp, d.bytes), d.spec)) == data
  {
    var front, six := data[..|data| - 6], data[|data| - 6..];
    assert data == front + six;
    assert Expanded(hrp) + data == Values(hrp, d.bytes) + six;
    SixForced(Values(hrp, d.bytes), six, d.spec);
  }

  lemma SixForced(values: seq<nat>, six: seq<nat>, spec: nat)
    requires Groups(six, 32) && |six| == 6 && Fold(1, values + six) == spec
    ensures Six(Checksum(values, spec)) == six
  {
    Pow2Values();
    ChecksumForced(values, six, spec);
    DigitsOfValue(six, 5);
  }
}
