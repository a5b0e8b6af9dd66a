/** The concurrency limit and its float64 percentage. */
module MaxParallel {

  datatype MaxParallel = MaxParallel(value: int, percent: bool)

  /** Products below this are exact in float64. */
  const EXACT: int := 0x20_0000_0000_0000

  /** q is a float64 quotient of m by 100: off by at most one part in 2^53, and
      exact when the true quotient is a whole number. */
  ghost predicate IsFloatQuotient(m: int, q: real) {
    var exact := m as real / 100.0;
    && -Magnitude(exact) <= (q - exact) * (EXACT as real) <= Magnitude(exact)
    && (m % 100 == 0 ==> q == exact)
  }

  function Magnitude(x: real): real { if x < 0.0 then -x else x }

  function Ceil(x: real): int { -((-x).Floor) }

  function CeilDiv(m: int, d: int): int
    requires d > 0
  {
    -((-m) / d)
  }

  /** Resolve as the code computes it, given the float64 quotient of its division. */
  function Resolve(b: MaxParallel, total: nat, quotient: real): int {
    var n := if b.percent then Ceil(quotient) else b.value;
    var atLeastOne := if n < 1 then 1 else n;
    if atLeastOne > total && total > 0 then total else atLeastOne
  }

  function Clamp(n: int, total: nat): int {
    var atLeastOne := if n < 1 then 1 else n;
    if atLeastOne > total && total > 0 then total else atLeastOne
  }

  /** The limit as documented: the whole-number ceiling of the percentage, at least 1
      and at most the total. */
  function Limit(b: MaxParallel, total: nat): int {
    Clamp(if b.percent then CeilDiv(total * b.value, 100) else b.value, total)
  }

  /** Rounding never shows: every float64 quotient of a product below 2^53 has the
      ceiling of the exact one, since a non-multiple of 100 is at least 1/100 away
      from a whole number and the rounding error is smaller. */
  lemma FloatCeilingIsExact(m: int, q: real)
    requires -EXACT < m < EXACT && IsFloatQuotient(m, q)
    ensures Ceil(q) == CeilDiv(m, 100)
  {
  }

  lemma ResolveIsTheLimit(b: MaxParallel, total: nat, quotient: real)
    requires b.percent ==> -EXACT < total * b.value < EXACT && IsFloatQuotient(total * b.value, quotient)
    ensures Resolve(b, total, quotient) == Limit(b, total)
  {
    if b.percent { FloatCeilingIsExact(total * b.value, quotient); }
  }

  /** At least one always; at most the total exactly when there is a node at all
      (with none, the code answers 1). */
  lemma LimitBounds(b: MaxParallel, total: nat)
    ensures 1 <= Limit(b, total)
    ensures Limit(b, total) <= total <==> total > 0
    ensures b.percent && 0 < b.value <= 100 && total > 0 ==>
      total * b.value <= 100 * Limit(b, total) < total * b.value + 100
  {
  }

  /** The limit case by case: of v nodes as many as there are, of v percent the fewest
      that reach them, and one where the setting asks for less. Without any node a
      percentage gives one and a count is taken as it is. */
  lemma LimitCaseByCase(b: MaxParallel, total: nat)
    ensures !b.percent && b.value < 1 ==> Limit(b, total) == 1
    ensures !b.percent && 1 <= b.value && total > 0 ==> Limit(b, total) == if b.value <= total then b.value else total
    ensures b.percent && b.value <= 0 ==> Limit(b, total) == 1
    ensures b.percent && 0 < b.value <= 100 && total > 0 ==>
      forall n: nat :: 100 * n >= total * b.value <==> n >= Limit(b, total)
    ensures b.percent && b.value > 100 && total > 0 ==> Limit(b, total) == total
    ensures total == 0 ==> Limit(b, total) == if b.percent || b.value < 1 then 1 else b.value
  {
    if b.percent && b.value <= 0 {
      assert total * b.value <= 0;
    }
    if b.percent && b.value > 100 && total > 0 {
      assert total * b.value >= 100 * total;
    }
    if b.percent && 0 < b.value <= 100 && total > 0 {
      LimitBounds(b, total);
    }
  }

  /** And so is what the code computes. */
  lemma ResolveCaseByCase(b: MaxParallel, total: nat, quotient: real)
    requires b.percent ==> -EXACT < total * b.value < EXACT && IsFloatQuotient(total * b.value, quotient)
    ensures !b.percent && 1 <= b.value && total > 0 ==>
      Resolve(b, total, quotient) == if b.value <= total then b.value else total
    ensures b.percent && 0 < b.value <= 100 && total > 0 ==>
      forall n: nat :: 100 * n >= total * b.value <==> n >= Resolve(b, total, quotient)
  {
    ResolveIsTheLimit(b, total, quotient);
    LimitCaseByCase(b, total);
  }

  /** More nodes or a larger setting never lower the limit, with one exception: a count
      is not capped when there is no node at all, and is once there are some but fewer
      than it asks for. */
  lemma LimitIsMonotoneIff(b: MaxParallel, total: nat, total': nat, c: MaxParallel)
    requires total <= total' && b.percent == c.percent && b.value <= c.value
    ensures Limit(b, total) <= Limit(c, total') <==> b.percent || !(total == 0 < total' < b.value)
  {
    if b.percent && b.value >= 0 {
      ProductIsMonotone(total, b.value, total', c.value);
      CeilDivIsMonotone(total * b.value, total' * c.value);
    } else if b.percent {
      assert total * b.value <= 0;
      assert Limit(b, total) == 1;
    }
  }

  /** The exception: five nodes at once, of none and of one. */
  lemma NotMonotoneFromZero()
    ensures Limit(MaxParallel(5, false), 0) == 5 && Limit(MaxParallel(5, false), 1) == 1
  {
  }

  lemma ProductIsMonotone(a: nat, b: nat, c: nat, d: nat)
    requires a <= c && b <= d
    ensures a * b <= c * d
  {
    assert c * d == a * b + (c - a) * b + c * (d - b);
  }

  lemma CeilDivIsMonotone(m: int, m': int)
    requires m <= m'
    ensures CeilDiv(m, 100) <= CeilDiv(m', 100)
  {
  }
}
