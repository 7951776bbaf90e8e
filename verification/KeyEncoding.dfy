/**
 Byte keys: big-endian numbers, composite keys, the order in which a partition iterates, prefix ranges, and query scopes.
 */
module KeyEncoding {
  import opened Prelude

  // ---------- byte order ----------

  /** The order of keys in a partition: bytewise lexicographic, a proper prefix first. */
  predicate Less(a: Bytes, b: Bytes) {
    b != [] && (a == [] || a[0] < b[0] || (a[0] == b[0] && Less(a[1..], b[1..])))
  }

  lemma {:induction false} LessTotal(a: Bytes, b: Bytes)
    ensures a == b || Less(a, b) || Less(b, a)
    ensures !(Less(a, b) && Less(b, a)) && !Less(a, a)
  {
    if a != [] {
      LessTotal(a[1..], a[1..]);
      if b != [] {
        LessTotal(a[1..], b[1..]);
        assert a[0] == b[0] && a[1..] == b[1..] ==> a == b by {
          assert a == [a[0]] + a[1..] && b == [b[0]] + b[1..];
        }
      }
    }
  }

  lemma {:induction false} LessTransitive(a: Bytes, b: Bytes, c: Bytes)
    requires Less(a, b) && Less(b, c)
    ensures Less(a, c)
  {
    if a != [] && a[0] == b[0] == c[0] {
      LessTransitive(a[1..], b[1..], c[1..]);
    }
  }

  lemma {:induction false} LessCommonPrefix(p: Bytes, a: Bytes, b: Bytes)
    ensures Less(p + a, p + b) <==> Less(a, b)
  {
    if p == [] {
      assert p + a == a && p + b == b;
    } else {
      assert (p + a)[1..] == p[1..] + a && (p + b)[1..] == p[1..] + b;
      LessCommonPrefix(p[1..], a, b);
    }
  }

  lemma {:induction false} LessLastByte(a: Bytes, b: Bytes, x: byte, y: byte)
    requires |a| == |b|
    ensures Less(a + [x], b + [y]) <==> Less(a, b) || (a == b && x < y)
  {
    if a == [] {
      assert (a + [x])[1..] == [] && (b + [y])[1..] == [];
    } else {
      assert (a + [x])[1..] == a[1..] + [x] && (b + [y])[1..] == b[1..] + [y];
      LessLastByte(a[1..], b[1..], x, y);
      assert a == b <==> a[0] == b[0] && a[1..] == b[1..] by {
        assert a == [a[0]] + a[1..] && b == [b[0]] + b[1..];
      }
      LessTotal(a[1..], a[1..]);
    }
  }

  // ---------- big-endian numbers ----------

  function Pow256(width: nat): (p: nat)
    ensures p > 0
  {
    if width == 0 then 1 else 256 * Pow256(width - 1)
  }

  lemma Pow256Values()
    ensures Pow256(2) == 0x1_0000 && Pow256(4) == TWO_32 && Pow256(8) == 0x1_0000_0000_0000_0000
  {
    assert Pow256(2) == 256 * Pow256(1) && Pow256(4) == 256 * (256 * Pow256(2));
    assert Pow256(6) == 256 * (256 * Pow256(4)) && Pow256(8) == 256 * (256 * Pow256(6));
  }

  const TWO_64: nat := 0x1_0000_0000_0000_0000

  /** `n.to_be_bytes()` for an unsigned integer of `width` bytes. */
  function BigEndian(n: nat, width: nat): (b: Bytes)
    ensures |b| == width
  {
    if width == 0 then [] else BigEndian(n / 256, width - 1) + [n % 256]
  }

  /** `from_be_bytes`. */
  function FromBigEndian(b: Bytes): nat {
    if b == [] then 0 else FromBigEndian(b[..|b| - 1]) * 256 + b[|b| - 1]
  }

  lemma {:induction false} BigEndianRoundTrip(n: nat, width: nat)
    requires n < Pow256(width)
    ensures FromBigEndian(BigEndian(n, width)) == n
  {
    if width > 0 {
      BigEndianRoundTrip(n / 256, width - 1);
      var b := BigEndian(n, width);
      assert b[..|b| - 1] == BigEndian(n / 256, width - 1);
    }
  }

  lemma {:induction false} FromBigEndianRoundTrip(b: Bytes)
    ensures FromBigEndian(b) < Pow256(|b|) && BigEndian(FromBigEndian(b), |b|) == b
  {
    if b != [] {
      var front := b[..|b| - 1];
      FromBigEndianRoundTrip(front);
      assert FromBigEndian(b) / 256 == FromBigEndian(front) && FromBigEndian(b) % 256 == b[|b| - 1];
      assert b == front + [b[|b| - 1]];
    }
  }

  /** Numeric order is byte order. */
  lemma {:induction false} BigEndianOrder(i: nat, j: nat, width: nat)
    requires i < Pow256(width) && j < Pow256(width)
    ensures Less(BigEndian(i, width), BigEndian(j, width)) <==> i < j
  {
    if width > 0 {
      BigEndianOrder(i / 256, j / 256, width - 1);
      LessLastByte(BigEndian(i / 256, width - 1), BigEndian(j / 256, width - 1), i % 256, j % 256);
      if BigEndian(i / 256, width - 1) == BigEndian(j / 256, width - 1) {
        BigEndianRoundTrip(i / 256, width - 1);
        BigEndianRoundTrip(j / 256, width - 1);
      }
    }
  }

  // ---------- composite keys ----------

  /** `prefixed_u64_key`. */
  function PrefixedU64Key(prefix: Bytes, id: nat): Bytes {
    prefix + BigEndian(id, 8)
  }

  /** `key_u64_suffix`; the source panics on a key shorter than eight bytes. */
  function KeyU64Suffix(key: Bytes): nat
    requires |key| >= 8
  {
    FromBigEndian(key[|key| - 8..])
  }

  /** Keys of one prefix are ordered by id, and prefix and id can be read back, whatever the lengths of the prefixes. */
  lemma PrefixedKeys(p: Bytes, i: nat, q: Bytes, j: nat)
    requires i < TWO_64 && j < TWO_64
    ensures KeyU64Suffix(PrefixedU64Key(p, i)) == i
    ensures PrefixedU64Key(p, i) == PrefixedU64Key(q, j) <==> p == q && i == j
    ensures Less(PrefixedU64Key(p, i), PrefixedU64Key(p, j)) <==> i < j
  {
    Pow256Values();
    BigEndianRoundTrip(i, 8);
    BigEndianRoundTrip(j, 8);
    BigEndianOrder(i, j, 8);
    LessCommonPrefix(p, BigEndian(i, 8), BigEndian(j, 8));
    var a, b := PrefixedU64Key(p, i), PrefixedU64Key(q, j);
    assert a[|a| - 8..] == BigEndian(i, 8) && b[|b| - 8..] == BigEndian(j, 8);
    if a == b {
      assert p == a[..|a| - 8] && q == b[..|b| - 8];
    }
  }

  /** `utxo_key`: a 32-byte intent hash and a big-endian u32. */
  function UtxoKey(intentHash: Bytes, outputIndex: nat): Bytes {
    intentHash + BigEndian(outputIndex, 4)
  }

  /** `unspent_key`: owner, token type and UTXO key. */
  function UnspentKey(owner: Bytes, tokenType: Bytes, intentHash: Bytes, outputIndex: nat): Bytes {
    owner + tokenType + UtxoKey(intentHash, outputIndex)
  }

  /** `dust_gen_owner_key`: an owner of any length and the 32-byte hash of the backing UTXO. */
  function DustGenOwnerKey(owner: Bytes, nightUtxo: Bytes): Bytes {
    owner + nightUtxo
  }

  lemma UtxoKeyInjective(h: Bytes, i: nat, g: Bytes, j: nat)
    requires |h| == |g| == 32 && i < TWO_32 && j < TWO_32
    ensures UtxoKey(h, i) == UtxoKey(g, j) <==> h == g && i == j
  {
    Pow256Values();
    BigEndianRoundTrip(i, 4);
    BigEndianRoundTrip(j, 4);
    var a, b := UtxoKey(h, i), UtxoKey(g, j);
    assert a[..32] == h && b[..32] == g && a[32..] == BigEndian(i, 4) && b[32..] == BigEndian(j, 4);
  }

  lemma UnspentKeyInjective(o: Bytes, t: Bytes, h: Bytes, i: nat, p: Bytes, u: Bytes, g: Bytes, j: nat)
    requires |o| == |t| == |h| == |p| == |u| == |g| == 32 && i < TWO_32 && j < TWO_32
    ensures UnspentKey(o, t, h, i) == UnspentKey(p, u, g, j) <==> o == p && t == u && h == g && i == j
  {
    UtxoKeyInjective(h, i, g, j);
    var a, b := UnspentKey(o, t, h, i), UnspentKey(p, u, g, j);
    assert a[..32] == o && a[32..64] == t && a[64..] == UtxoKey(h, i);
    assert b[..32] == p && b[32..64] == u && b[64..] == UtxoKey(g, j);
  }

  /** Owners of different lengths never share a key, because the second part has a fixed length. */
  lemma DustGenOwnerKeyInjective(o: Bytes, n: Bytes, p: Bytes, m: Bytes)
    requires |n| == |m| == 32
    ensures DustGenOwnerKey(o, n) == DustGenOwnerKey(p, m) <==> o == p && n == m
  {
    var a, b := DustGenOwnerKey(o, n), DustGenOwnerKey(p, m);
    assert a[..|a| - 32] == o && b[..|b| - 32] == p && a[|a| - 32..] == n && b[|b| - 32..] == m;
  }

  /** The keys of one UTXO's outputs are in the order of the outputs, behind its intent hash. */
  lemma UtxoKeyOrder(h: Bytes, i: nat, g: Bytes, j: nat)
    requires |h| == |g| == 32 && i < TWO_32 && j < TWO_32
    ensures h <= UtxoKey(g, j) <==> h == g
    ensures Less(UtxoKey(h, i), UtxoKey(h, j)) <==> i < j
  {
    assert UtxoKey(g, j)[..32] == g;
    Pow256Values();
    BigEndianOrder(i, j, 4);
    LessCommonPrefix(h, BigEndian(i, 4), BigEndian(j, 4));
  }

  /** The unspent keys behind an owner are that owner's, and behind an owner and a token that account's. */
  lemma UnspentKeyPrefix(o: Bytes, t: Bytes, p: Bytes, u: Bytes, g: Bytes, j: nat)
    requires |o| == |t| == |p| == |u| == |g| == 32 && j < TWO_32
    ensures o <= UnspentKey(p, u, g, j) <==> o == p
    ensures o + t <= UnspentKey(p, u, g, j) <==> o == p && t == u
    ensures UnspentKey(p, u, g, j)[64..] == UtxoKey(g, j)
  {
    var k := UnspentKey(p, u, g, j);
    assert k[..32] == p && k[32..64] == u && k[..64] == p + u;
    assert (o + t)[..32] == o && (o + t)[32..] == t;
  }

  /** The keys behind an owner that are 32 bytes longer are that owner's, each with the hash as its last 32 bytes. */
  lemma DustGenOwnerKeyPrefix(o: Bytes, p: Bytes, m: Bytes)
    requires |m| == 32
    ensures o <= DustGenOwnerKey(p, m) && |DustGenOwnerKey(p, m)| == |o| + 32 <==> o == p
    ensures DustGenOwnerKey(p, m)[|DustGenOwnerKey(p, m)| - 32..] == m
  {
    assert DustGenOwnerKey(p, m)[..|p|] == p;
  }

  // ---------- prefix ranges ----------

  predicate AllFF(p: Bytes) {
    forall i :: 0 <= i < |p| ==> p[i] == 255
  }

  /** Keys from `prefix` on, up to and without `end`; no bound when there is no `end`. */
  predicate InPrefixRange(key: Bytes, prefix: Bytes, end: Option<Bytes>) {
    !Less(key, prefix) && (end.Some? ==> Less(key, end.value))
  }

  lemma {:induction false} FromAllFF(key: Bytes, p: Bytes)
    requires AllFF(p)
    ensures !Less(key, p) <==> p <= key
  {
    if p != [] && key != [] {
      FromAllFF(key[1..], p[1..]);
      assert p <= key <==> p[0] == key[0] && p[1..] <= key[1..];
    }
  }

  /** `kept` keeps its bytes up to one that is not 0xff, and `p` has only 0xff after that byte. */
  lemma {:induction false} FromPrefix(key: Bytes, p: Bytes, n: nat)
    requires n < |p| && p[n] < 255 && AllFF(p[n + 1..])
    ensures InPrefixRange(key, p, Some(p[..n] + [p[n] + 1])) <==> p <= key
  {
    var end := p[..n] + [p[n] + 1];
    if key != [] {
      assert p <= key <==> p[0] == key[0] && p[1..] <= key[1..];
      if n == 0 {
        FromAllFF(key[1..], p[1..]);
        assert end == [p[0] + 1] && !Less(key[1..], end[1..]);
      } else {
        FromPrefix(key[1..], p[1..], n - 1);
        assert p[1..][n..] == p[n + 1..] && end[1..] == p[1..][..n - 1] + [p[1..][n - 1] + 1];
      }
    }
  }

  lemma PrefixEndAt(prefix: Bytes, n: nat)
    requires n < |prefix| && prefix[n] < 255 && AllFF(prefix[n + 1..])
    ensures var end := prefix[..n] + [prefix[n] + 1];
      forall key: Bytes :: InPrefixRange(key, prefix, Some(end)) <==> prefix <= key
  {
    var end := prefix[..n] + [prefix[n] + 1];
    forall key: Bytes ensures InPrefixRange(key, prefix, Some(end)) <==> prefix <= key {
      FromPrefix(key, prefix, n);
    }
  }

  /** `prefix_end`: drops trailing 0xff bytes and increments the last one left. */
  method PrefixEnd(prefix: Bytes) returns (r: Option<Bytes>)
    ensures r.None? <==> AllFF(prefix)
    ensures forall key: Bytes :: InPrefixRange(key, prefix, r) <==> prefix <= key
  {
    var end := prefix;
    while end != []
      invariant |end| <= |prefix| && end == prefix[..|end|] && AllFF(prefix[|end|..])
    {
      var n := |end| - 1;
      if end[n] != 255 {
        PrefixEndAt(prefix, n);
        assert end[..n] + [end[n] + 1] == prefix[..n] + [prefix[n] + 1];
        r := Some(end[..n] + [end[n] + 1]);
        return;
      }
      assert prefix[n..] == [prefix[n]] + prefix[n + 1..];
      end := end[..n];
    }
    forall key: Bytes ensures !Less(key, prefix) <==> prefix <= key {
      FromAllFF(key, prefix);
    }
    r := None;
  }

  /** Any end of the range of a prefix is the least string above every key with that prefix. */
  lemma PrefixEndLeast(prefix: Bytes, end: Bytes, e: Bytes)
    requires forall key: Bytes :: InPrefixRange(key, prefix, Some(end)) <==> prefix <= key
    requires forall key: Bytes :: prefix <= key ==> Less(key, e)
    ensures !Less(e, end)
  {
    LessTotal(e, e);
    LessTotal(prefix, e);
    if Less(e, end) {
      assert InPrefixRange(e, prefix, Some(end));
    }
  }

  // ---------- query scopes ----------

  datatype Order = Asc | Desc

  /** Each part behind its length as a big-endian u32. */
  function Flatten(parts: seq<Bytes>): Bytes {
    if parts == [] then [] else Length(parts[0]) + parts[0] + Flatten(parts[1..])
  }

  function Length(part: Bytes): (b: Bytes)
    ensures |b| == 4
  {
    BigEndian(AsU32(|part|), 4)
  }

  function ScopeOf(parts: seq<Bytes>, order: Order): Bytes {
    [if order.Asc? then 0 else 1] + Flatten(parts)
  }

  lemma {:induction false} FlattenAppend(parts: seq<Bytes>, p: Bytes)
    ensures Flatten(parts + [p]) == Flatten(parts) + Length(p) + p
  {
    if parts == [] {
      assert parts + [p] == [p] && Flatten([p]) == Length(p) + p + Flatten([]);
    } else {
      FlattenAppend(parts[1..], p);
      assert (parts + [p])[1..] == parts[1..] + [p];
    }
  }

  lemma ScopeAppend(parts: seq<Bytes>, p: Bytes, order: Order)
    ensures ScopeOf(parts + [p], order) == ScopeOf(parts, order) + Length(p) + p
  {
    FlattenAppend(parts, p);
  }

  /** `scope`: grows the bytes part by part. */
  method Scope(parts: seq<Bytes>, order: Order) returns (out: Bytes)
    ensures out == ScopeOf(parts, order)
  {
    out := [];
    match order {
      case Asc => out := out + [0];
      case Desc => out := out + [1];
    }
    var i := 0;
    while i < |parts|
      invariant 0 <= i <= |parts| && out == ScopeOf(parts[..i], order)
    {
      ScopeAppend(parts[..i], parts[i], order);
      assert parts[..i + 1] == parts[..i] + [parts[i]];
      out := out + Length(parts[i]);
      out := out + parts[i];
      i := i + 1;
    }
    assert parts[..i] == parts;
  }

  lemma {:induction false} FlattenInjective(a: seq<Bytes>, b: seq<Bytes>)
    requires forall i :: 0 <= i < |a| ==> |a[i]| < TWO_32
    requires forall i :: 0 <= i < |b| ==> |b[i]| < TWO_32
    requires Flatten(a) == Flatten(b)
    ensures a == b
  {
    if a != [] && b != [] {
      SameHead(a[0], Flatten(a[1..]), b[0], Flatten(b[1..]));
      FlattenInjective(a[1..], b[1..]);
      assert a == [a[0]] + a[1..] && b == [b[0]] + b[1..];
    } else {
      assert a != [] ==> |Flatten(a)| >= 4;
      assert b != [] ==> |Flatten(b)| >= 4;
    }
  }

  lemma SameHead(p: Bytes, x: Bytes, q: Bytes, y: Bytes)
    requires |p| < TWO_32 && |q| < TWO_32
    requires Length(p) + p + x == Length(q) + q + y
    ensures p == q && x == y
  {
    var s, t := Length(p) + p + x, Length(q) + q + y;
    assert s[..4] == Length(p) && t[..4] == Length(q);
    SameLength(p, q);
    assert s[4..4 + |p|] == p && t[4..4 + |q|] == q && s[4 + |p|..] == x && t[4 + |q|..] == y;
  }

  lemma SameLength(p: Bytes, q: Bytes)
    requires |p| < TWO_32 && |q| < TWO_32 && Length(p) == Length(q)
    ensures |p| == |q|
  {
    assert FromBigEndian(Length(p)) == |p| by { LengthBack(p); }
    assert FromBigEndian(Length(q)) == |q| by { LengthBack(q); }
  }

  lemma LengthBack(p: Bytes)
    requires |p| < TWO_32
    ensures FromBigEndian(Length(p)) == |p|
  {
    U32RoundTrip(|p|);
    assert AsU32(|p|) == |p|;
  }

  lemma U32RoundTrip(n: nat)
    requires n < TWO_32
    ensures FromBigEndian(BigEndian(n, 4)) == n
  {
    Pow256Values();
    BigEndianRoundTrip(n, 4);
  }

  /** Two queries have the same scope only when they have the same parts and the same order. */
  lemma ScopeInjective(a: seq<Bytes>, o: Order, b: seq<Bytes>, p: Order)
    requires forall i :: 0 <= i < |a| ==> |a[i]| < TWO_32
    requires forall i :: 0 <= i < |b| ==> |b[i]| < TWO_32
    ensures ScopeOf(a, o) == ScopeOf(b, p) <==> a == b && o == p
  {
    var s, t := ScopeOf(a, o), ScopeOf(b, p);
    assert s[1..] == Flatten(a) && t[1..] == Flatten(b);
    if s == t {
      assert s[0] == t[0];
      FlattenInjective(a, b);
    }
  }

  function Zeros(n: nat): Bytes {
    seq(n, i => 0)
  }

  function Empties(n: nat): seq<Bytes> {
    seq(n, i => [])
  }

  lemma {:induction false} EmptyParts(n: nat)
    ensures Flatten(Empties(n)) == Zeros(4 * n)
  {
    if n > 0 {
      EmptyParts(n - 1);
      assert Empties(n)[1..] == Empties(n - 1);
      ZeroLength();
    }
  }

  lemma ZeroLength()
    ensures BigEndian(0, 4) == Zeros(4)
  {
    assert BigEndian(0, 2) == BigEndian(0, 1) + [0] && BigEndian(0, 4) == BigEndian(0, 3) + [0];
  }

  /** The bound on the lengths is needed: the cast to u32 makes a part of 2^32 zero bytes look like empty parts. */
  lemma ScopeCollision(order: Order)
    ensures ScopeOf([Zeros(TWO_32)], order) == ScopeOf(Empties(TWO_32 / 4 + 1), order)
  {
    EmptyParts(TWO_32 / 4 + 1);
    ZeroLength();
    var parts := [Zeros(TWO_32)];
    assert Flatten(parts[1..]) == [];
    assert Flatten(parts) == Zeros(4) + Zeros(TWO_32) + [];
    assert Zeros(4) + Zeros(TWO_32) + [] == Zeros(TWO_32 + 4);
  }
}
