/** Exact frame ratios (src/arrangement.rs). */
module StretchRatios {
  import opened Numbers
  import opened Outcomes
  import opened Arithmetic

  datatype StretchError = InvalidStretch | NonIntegralSourceBoundary | TimeOverflow

  datatype StretchRatio = StretchRatio(sourceFrames: U64, projectFrames: U64) {
    predicate NonZero() {
      sourceFrames != 0 && projectFrames != 0
    }

    /** Maps a project offset exactly; an offset between two source frames is refused. */
    function SourceOffset(projectOffset: U64): Result<U64, StretchError>
      requires projectFrames != 0
    {
      var numerator := projectOffset * sourceFrames;
      if numerator % projectFrames != 0 then Err(NonIntegralSourceBoundary)
      else if numerator / projectFrames > U64_MAX then Err(TimeOverflow)
      else QuotientNonNegative(numerator, projectFrames); Ok(numerator / projectFrames)
    }
  }

  function Gcd(left: nat, right: nat): (g: nat)
    ensures left + right > 0 ==> g > 0
    decreases right
  {
    if right == 0 then left else Gcd(right, left % right)
  }

  /** The loop of the program: Euclid's algorithm on two variables. */
  method ComputeGcd(a: U64, b: U64) returns (g: U64)
    ensures g == Gcd(a, b)
  {
    var left, right := a, b;
    while right != 0
      invariant Gcd(left, right) == Gcd(a, b)
      decreases right
    {
      left, right := right, left % right;
    }
    g := left;
  }

  function NewRatio(sourceFrames: U64, projectFrames: U64): Result<StretchRatio, StretchError> {
    if sourceFrames == 0 || projectFrames == 0 then Err(InvalidStretch)
    else
      var divisor := Gcd(sourceFrames, projectFrames);
      GcdDivides(sourceFrames, projectFrames);
      QuotientBounds(sourceFrames, divisor);
      QuotientBounds(projectFrames, divisor);
      Ok(StretchRatio(sourceFrames / divisor, projectFrames / divisor))
  }

  lemma QuotientBounds(n: nat, d: nat)
    requires d > 0
    ensures 0 <= n / d <= n
  {
    var q := n / d;
    DivMod(n, d);
    if q > n { Scale(q, 1, d); }
  }

  lemma GcdStep(g: int, k: int, m: int, q: int)
    ensures g * k * q + g * m == g * (k * q + m)
  {}

  /** The divisor divides both of its arguments. */
  lemma {:induction false} GcdDivides(a: nat, b: nat)
    requires a + b > 0
    ensures a % Gcd(a, b) == 0 && b % Gcd(a, b) == 0
    decreases b
  {
    var g := Gcd(a, b);
    if b != 0 {
      GcdDivides(b, a % b);
      var k, m, q := b / g, (a % b) / g, a / b;
      DivMod(a, b);
      DivMod(b, g);
      DivMod(a % b, g);
      GcdStep(g, k, m, q);
      QuotientUnique(g, k * q + m, 0);
    }
  }

  lemma BezoutStep(b: int, q: int, r: int, x: int, y: int)
    ensures (b * q + r) * y + b * (x - q * y) == b * x + r * y
  {
    assert (b * q + r) * y == b * q * y + r * y;
    assert b * (x - q * y) == b * x - b * q * y;
  }

  /** Bezout: the divisor is an integer combination of its arguments. */
  lemma {:induction false} Bezout(a: nat, b: nat) returns (x: int, y: int)
    ensures a * x + b * y == Gcd(a, b)
    decreases b
  {
    if b == 0 {
      x, y := 1, 0;
    } else {
      var q, r := a / b, a % b;
      var x', y' := Bezout(b, r);
      x, y := y', x' - q * y';
      DivMod(a, b);
      BezoutStep(b, q, r, x', y');
    }
  }

  /** Combining two multiples of g. */
  lemma CombineMultiples(g: int, k: int, m: int, x: int, y: int)
    ensures g * k * x + g * m * y == g * (k * x + m * y)
  {}

  lemma UnitFactor(g: int, k: int)
    requires g > 0 && g * k == g
    ensures k == 1
  {
    if k > 1 { Scale(g, 2, k); }
    if k < 1 { Scale(g, k, 0); }
  }

  /** A common divisor that is an integer combination of two numbers is their only one. */
  lemma UnitDivides(g: int, k: int)
    requires g > 0 && g * k == 1
    ensures g == 1
  {
    if k <= 0 { Scale(g, k, 0); } else { Scale(g, 1, k); }
  }

  lemma BezoutMakesCoprime(a: nat, b: nat, x: int, y: int)
    requires a + b > 0
    requires a * x + b * y == 1
    ensures Gcd(a, b) == 1
  {
    var g := Gcd(a, b);
    GcdDivides(a, b);
    var k, m := a / g, b / g;
    DivMod(a, g);
    DivMod(b, g);
    CombineMultiples(g, k, m, x, y);
    UnitDivides(g, k * x + m * y);
  }

  /** Construction keeps the ratio of the two lengths and delivers its coprime form. */
  lemma NewRatioIsCoprime(sourceFrames: U64, projectFrames: U64)
    requires sourceFrames != 0 && projectFrames != 0
    ensures var ratio := NewRatio(sourceFrames, projectFrames);
      && ratio.Ok?
      && ratio.value.NonZero()
      && ratio.value.sourceFrames * projectFrames == sourceFrames * ratio.value.projectFrames
      && Gcd(ratio.value.sourceFrames, ratio.value.projectFrames) == 1
  {
    var g := Gcd(sourceFrames, projectFrames);
    var x, y := Bezout(sourceFrames, projectFrames);
    GcdDivides(sourceFrames, projectFrames);
    QuotientBounds(sourceFrames, g);
    QuotientBounds(projectFrames, g);
    var k, m := sourceFrames / g, projectFrames / g;
    DivMod(sourceFrames, g);
    DivMod(projectFrames, g);
    CombineMultiples(g, k, m, x, y);
    UnitFactor(g, k * x + m * y);
    assert k != 0 && m != 0;
    BezoutMakesCoprime(k, m, x, y);
    CrossMultiply(g, k, m);
  }

  lemma CrossMultiply(g: int, k: int, m: int)
    ensures k * (g * m) == (g * k) * m
  {}

  /** Euclid: a coprime factor can be cancelled from a multiple. */
  lemma CoprimeCancels(a: nat, b: nat, n: int)
    requires b > 0 && Gcd(a, b) == 1
    requires (n * a) % b == 0
    ensures n % b == 0
  {
    var x, y := Bezout(a, b);
    var k := (n * a) / b;
    DivMod(n * a, b);
    assert n == b * (k * x + n * y) by {
      calc {
        n;
        n * (a * x + b * y);
        { Expand(n, a, x, b, y); }
        n * a * x + b * n * y;
        b * k * x + b * n * y;
        { CombineMultiples(b, k, n, x, y); }
        b * (k * x + n * y);
      }
    }
    QuotientUnique(b, k * x + n * y, 0);
  }

  lemma Expand(n: int, a: int, x: int, b: int, y: int)
    ensures n * (a * x + b * y) == n * a * x + b * n * y
  {}

  lemma MultipleTimes(b: int, q: int, a: int)
    ensures (b * q) * a == b * (q * a)
  {}

  /** Every multiple of the denominator maps exactly. */
  lemma MultipleMaps(ratio: StretchRatio, q: nat)
    requires ratio.NonZero()
    requires ratio.projectFrames * q <= U64_MAX
    ensures (ratio.projectFrames * q * ratio.sourceFrames) % ratio.projectFrames == 0
    ensures (ratio.projectFrames * q * ratio.sourceFrames) / ratio.projectFrames == q * ratio.sourceFrames
  {
    MultipleTimes(ratio.projectFrames, q, ratio.sourceFrames);
    QuotientUnique(ratio.projectFrames, q * ratio.sourceFrames, 0);
  }

  /** For the coprime form, an offset maps to a source frame exactly at the multiples of the denominator. */
  lemma SourceOffsetDefinedExactlyAtMultiples(ratio: StretchRatio, offset: U64)
    requires ratio.NonZero() && Gcd(ratio.sourceFrames, ratio.projectFrames) == 1
    ensures ratio.SourceOffset(offset) != Err(NonIntegralSourceBoundary) <==> offset % ratio.projectFrames == 0
  {
    var q := offset / ratio.projectFrames;
    DivMod(offset, ratio.projectFrames);
    if offset % ratio.projectFrames == 0 {
      MultipleMaps(ratio, q);
    } else if (offset * ratio.sourceFrames) % ratio.projectFrames == 0 {
      CoprimeCancels(ratio.sourceFrames, ratio.projectFrames, offset);
    }
  }

  /** The mapped value is the exact rational image of the offset, and conversely. */
  lemma SourceOffsetExact(ratio: StretchRatio, offset: U64, mapped: U64)
    requires ratio.projectFrames != 0
    ensures ratio.SourceOffset(offset) == Ok(mapped)
       <==> offset * ratio.sourceFrames == ratio.projectFrames * mapped
  {
    DivMod(offset * ratio.sourceFrames, ratio.projectFrames);
    if offset * ratio.sourceFrames == ratio.projectFrames * mapped {
      QuotientUnique(ratio.projectFrames, mapped, 0);
    }
  }

  /** Two mapped offsets add up, and a mapped larger offset has a strictly larger image. */
  lemma SourceOffsetAdditive(ratio: StretchRatio, first: U64, second: U64)
    requires ratio.NonZero()
    requires first + second <= U64_MAX
    requires ratio.SourceOffset(first).Ok? && ratio.SourceOffset(second).Ok?
    requires ratio.SourceOffset(first).value + ratio.SourceOffset(second).value <= U64_MAX
    ensures ratio.SourceOffset(first + second)
         == Ok(ratio.SourceOffset(first).value + ratio.SourceOffset(second).value)
  {
    var m1, m2 := ratio.SourceOffset(first).value, ratio.SourceOffset(second).value;
    SourceOffsetExact(ratio, first, m1);
    SourceOffsetExact(ratio, second, m2);
    Distribute(first, second, ratio.sourceFrames);
    Distribute(m1, m2, ratio.projectFrames);
    SourceOffsetExact(ratio, first + second, m1 + m2);
  }

  lemma SourceOffsetMonotone(ratio: StretchRatio, low: U64, high: U64)
    requires ratio.NonZero() && low < high
    requires ratio.SourceOffset(low).Ok? && ratio.SourceOffset(high).Ok?
    ensures ratio.SourceOffset(low).value < ratio.SourceOffset(high).value
  {
    var m1, m2 := ratio.SourceOffset(low).value, ratio.SourceOffset(high).value;
    SourceOffsetExact(ratio, low, m1);
    SourceOffsetExact(ratio, high, m2);
    StrictScale(ratio.sourceFrames, low, high);
    CancelFactor(ratio.projectFrames, m1, m2);
  }

  /** An offset no longer than one that maps never overflows: it maps, or is refused as fractional. */
  lemma SourceOffsetNeverOverflowsInside(ratio: StretchRatio, offset: U64, placement: U64)
    requires ratio.NonZero() && offset <= placement
    requires ratio.SourceOffset(placement).Ok?
    ensures ratio.SourceOffset(offset) != Err(TimeOverflow)
    ensures ratio.SourceOffset(offset).Ok? ==> ratio.SourceOffset(offset).value <= ratio.SourceOffset(placement).value
  {
    var whole := ratio.SourceOffset(placement).value;
    SourceOffsetExact(ratio, placement, whole);
    var n := offset * ratio.sourceFrames;
    DivMod(n, ratio.projectFrames);
    Scale(ratio.sourceFrames, offset, placement);
    if n / ratio.projectFrames > whole {
      Scale(ratio.projectFrames, whole + 1, n / ratio.projectFrames);
      Distribute(whole, 1, ratio.projectFrames);
    }
  }

  /** The ratio a new audio clip receives maps its whole placement to its whole source range. */
  lemma NewRatioMapsWholeClip(sourceLen: U64, placementLen: U64)
    requires sourceLen != 0 && placementLen != 0
    ensures var ratio := NewRatio(sourceLen, placementLen);
      ratio.Ok? && ratio.value.NonZero() && ratio.value.SourceOffset(placementLen) == Ok(sourceLen)
  {
    NewRatioIsCoprime(sourceLen, placementLen);
    var ratio := NewRatio(sourceLen, placementLen).value;
    assert placementLen * ratio.sourceFrames == ratio.projectFrames * sourceLen;
    SourceOffsetExact(ratio, placementLen, sourceLen);
  }

  lemma FractionalStaysFractional(p: int, s: int, first: int, second: int, m1: int)
    requires p > 0 && first * s == p * m1
    ensures (second * s) % p == ((first + second) * s) % p
  {
    Distribute(first, second, s);
    var n := second * s;
    DivMod(n, p);
    Distribute(m1, n / p, p);
    QuotientUnique(p, m1 + n / p, n % p);
  }

  /** Inside a mapped length, adding a mapped offset changes neither whether nor how another offset maps. */
  lemma SourceOffsetSum(ratio: StretchRatio, total: U64, first: U64, second: U64)
    requires ratio.NonZero() && first + second <= total
    requires ratio.SourceOffset(total).Ok? && ratio.SourceOffset(first).Ok?
    ensures ratio.SourceOffset(second).Ok? ==>
      && ratio.SourceOffset(first).value + ratio.SourceOffset(second).value <= U64_MAX
      && ratio.SourceOffset(first + second)
         == Ok(ratio.SourceOffset(first).value + ratio.SourceOffset(second).value)
    ensures ratio.SourceOffset(second).Err? ==> ratio.SourceOffset(first + second) == ratio.SourceOffset(second)
  {
    SourceOffsetExact(ratio, first, ratio.SourceOffset(first).value);
    SourceOffsetNeverOverflowsInside(ratio, second, total);
    SourceOffsetNeverOverflowsInside(ratio, first + second, total);
    FractionalStaysFractional(ratio.projectFrames, ratio.sourceFrames, first, second, ratio.SourceOffset(first).value);
    if ratio.SourceOffset(second).Ok? {
      var both := ratio.SourceOffset(first + second).value;
      SourceOffsetSumValue(
        ratio, first, second, ratio.SourceOffset(first).value, ratio.SourceOffset(second).value, both);
    }
  }

  lemma SourceOffsetSumValue(ratio: StretchRatio, first: U64, second: U64, m1: U64, m2: U64, both: U64)
    requires ratio.NonZero() && first + second <= U64_MAX
    requires ratio.SourceOffset(first) == Ok(m1) && ratio.SourceOffset(second) == Ok(m2)
    requires ratio.SourceOffset(first + second) == Ok(both)
    ensures both == m1 + m2
  {
    SourceOffsetExact(ratio, first, m1);
    SourceOffsetExact(ratio, second, m2);
    SourceOffsetExact(ratio, first + second, both);
    Distribute(first, second, ratio.sourceFrames);
    Distribute(m1, m2, ratio.projectFrames);
    EqualMultiples(ratio.projectFrames, m1 + m2, both);
  }
}
