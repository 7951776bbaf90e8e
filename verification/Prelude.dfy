/** Shared value types: optional values, error results, bytes, and Rust's narrowing casts. */
module Prelude {

  datatype Option<+T> = None | Some(value: T)

  datatype Result<+T, +E> = Ok(value: T) | Err(error: E)

  type byte = x: int | 0 <= x < 256

  type Bytes = seq<byte>

  const TWO_32: nat := 0x1_0000_0000
  const TWO_127: nat := 0x8000_0000_0000_0000_0000_0000_0000_0000
  const TWO_128: nat := 0x1_0000_0000_0000_0000_0000_0000_0000_0000

  /** `n as u32`. */
  function AsU32(n: nat): nat {
    n % TWO_32
  }

  /** The value of an i128 that holds `n` modulo 2^128: both `n as i128` and wrapping i128 arithmetic. */
  function AsI128(n: int): int {
    var r := n % TWO_128;
    if r < TWO_127 then r else r - TWO_128
  }

  /** Wrapping early and wrapping late agree. */
  lemma AsI128Sum(a: int, b: int)
    ensures AsI128(AsI128(a) + AsI128(b)) == AsI128(a + b)
  {
    assert AsI128(a) == a - TWO_128 * (a / TWO_128) || AsI128(a) == a - TWO_128 * (a / TWO_128) - TWO_128;
    assert AsI128(b) == b - TWO_128 * (b / TWO_128) || AsI128(b) == b - TWO_128 * (b / TWO_128) - TWO_128;
  }

  lemma AsI128Idempotent(v: int)
    ensures AsI128(AsI128(v)) == AsI128(v)
  {
    AsI128Sum(v, 0);
  }

  lemma AsI128Negate(v: int)
    ensures AsI128(-AsI128(v)) == AsI128(-v)
  {
    assert AsI128(v) == v - TWO_128 * (v / TWO_128) || AsI128(v) == v - TWO_128 * (v / TWO_128) - TWO_128;
  }

  /** A sum over a finite map does not depend on the order in which its keys are visited. */
  ghost function Total<K(!new)>(m: map<K, int>): int {
    if m == map[] then 0
    else
      var k :| k in m;
      m[k] + Total(m - {k})
  }

  lemma {:induction false} TotalPick<K(!new)>(m: map<K, int>, k: K)
    requires k in m
    ensures Total(m) == m[k] + Total(m - {k})
    decreases |m|
  {
    var j :| j in m && Total(m) == m[j] + Total(m - {j});
    if j != k {
      TotalPick(m - {j}, k);
      TotalPick(m - {k}, j);
      assert m - {j} - {k} == m - {k} - {j};
    }
  }

  lemma TotalInsert<K(!new)>(m: map<K, int>, k: K, v: int)
    requires k !in m
    ensures Total(m[k := v]) == Total(m) + v
  {
    TotalPick(m[k := v], k);
    assert m[k := v] - {k} == m;
  }
}
