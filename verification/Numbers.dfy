/** The fixed-width integers. */
module Numbers {
  const U64_MAX: int := 0xFFFF_FFFF_FFFF_FFFF
  const I64_MAX: int := 0x7FFF_FFFF_FFFF_FFFF
  const I64_MIN: int := -0x8000_0000_0000_0000

  type U64 = n: int | 0 <= n <= U64_MAX
  type I64 = n: int | I64_MIN <= n <= I64_MAX

  predicate FitsI64(n: int) {
    I64_MIN <= n <= I64_MAX
  }

  /** The value a saturating 64-bit signed operation delivers for the exact result n. */
  function Saturate(n: int): I64 {
    if n < I64_MIN then I64_MIN else if n > I64_MAX then I64_MAX else n
  }

  function Abs(n: int): nat {
    if n < 0 then -n else n
  }

  function Min(a: int, b: int): int {
    if a <= b then a else b
  }

  function Max(a: int, b: int): int {
    if a >= b then a else b
  }
}

module Outcomes {
  datatype Option<+T> = None | Some(value: T)

  datatype Result<+T, +E> = Ok(value: T) | Err(error: E) {
    predicate IsFailure() {
      Err?
    }

    function PropagateFailure<U>(): Result<U, E>
      requires Err?
    {
      Err(error)
    }

    function Extract(): T
      requires Ok?
    {
      value
    }
  }

  function Lookup<K, V>(m: map<K, V>, k: K): Option<V> {
    if k in m then Some(m[k]) else None
  }

  /** Inserts, replaces or removes one entry. */
  function Put<K, V>(m: map<K, V>, k: K, v: Option<V>): map<K, V> {
    if v.Some? then m[k := v.value] else m - {k}
  }

  lemma PutBack<K, V>(m: map<K, V>, k: K, v: Option<V>)
    ensures Put(Put(m, k, v), k, Lookup(m, k)) == m
  {}
}

/** Elementary facts about products and quotients. */
module Arithmetic {
  lemma QuotientNonNegative(n: int, d: int)
    requires n >= 0 && d > 0
    ensures n / d >= 0
  {}

  lemma DivMod(n: int, d: int)
    requires d > 0
    ensures n == d * (n / d) + n % d && 0 <= n % d < d
  {}

  lemma Scale(k: nat, low: int, high: int)
    requires low <= high
    ensures k * low <= k * high
  {}

  /** A number between two neighbouring multiples determines its quotient. */
  lemma QuotientUnique(d: int, k: int, r: int)
    requires d > 0 && 0 <= r < d
    ensures (d * k + r) / d == k && (d * k + r) % d == r
  {
    var n := d * k + r;
    var q := n / d;
    DivMod(n, d);
    assert d * (k - q) == n % d - r;
    assert d * (q - k) == -(d * (k - q));
    if k > q { Scale(d, 1, k - q); }
    if k < q { Scale(d, 1, q - k); }
  }

  lemma Distribute(a: int, b: int, c: int)
    ensures (a + b) * c == a * c + b * c && c * (a + b) == c * a + c * b
  {}

  lemma CancelFactor(p: int, a: int, b: int)
    requires p > 0 && p * a < p * b
    ensures a < b
  {
    if a >= b { Scale(p, b, a); }
  }

  lemma StrictScale(k: int, low: int, high: int)
    requires k > 0 && low < high
    ensures low * k < high * k
  {
    Scale(k, low + 1, high);
    Distribute(low, 1, k);
  }

  lemma EqualMultiples(d: int, a: int, b: int)
    requires d > 0 && d * a == d * b
    ensures a == b
  {
    QuotientUnique(d, a, 0);
    QuotientUnique(d, b, 0);
  }
}
