/**
 * Importance decay: a record's importance shrinks exponentially with the
 * days since it was last accessed, but never below a floor.
 * `Math.exp` is a parameter constrained by the laws the proofs rely on.
 */
module Decay {
  import opened Types

  /** Milliseconds per day: 1000 * 60 * 60 * 24. */
  const MsPerDay: real := 86400000.0

  /** The properties of the exponential function that decay relies on. */
  ghost predicate ExpLaws(exp: real -> real) {
    && exp(0.0) == 1.0
    && (forall x :: x <= 0.0 ==> 0.0 < exp(x) <= 1.0)
    && (forall x, y :: x <= y ==> exp(x) <= exp(y))
  }

  function Max(a: real, b: real): (r: real)
    ensures r >= a && r >= b && (r == a || r == b)
  {
    if a >= b then a else b
  }

  /** Age in days, measured from the last access and never negative. */
  function AgeDays(now: int, lastAccessed: int): (d: real)
    ensures d >= 0.0
    ensures now <= lastAccessed ==> d == 0.0
    ensures now > lastAccessed ==> d == (now - lastAccessed) as real / MsPerDay
  {
    (if now - lastAccessed > 0 then now - lastAccessed else 0) as real / MsPerDay
  }

  /** The decay factor `exp(-rate * ageDays)`. */
  function Factor(now: int, lastAccessed: int, rate: real, exp: real -> real): real {
    exp(-rate * AgeDays(now, lastAccessed))
  }

  /** `applyDecay`: a copy of the record whose importance has decayed, floored at `floor`. */
  function ApplyDecay(m: MemoryRecord, now: int, rate: real, floor: real, exp: real -> real): (r: MemoryRecord)
    ensures r.importance >= floor
    ensures r == m.(importance := r.importance)
  {
    m.(importance := Max(floor, m.importance * Factor(now, m.lastAccessed, rate, exp)))
  }

  lemma DecayedImportance(m: MemoryRecord, now: int, rate: real, floor: real, exp: real -> real)
    ensures ApplyDecay(m, now, rate, floor, exp).importance == Max(floor, m.importance * Factor(now, m.lastAccessed, rate, exp))
  {
  }

  lemma MaxMonotone(c: real, a: real, b: real)
    requires a <= b
    ensures Max(c, a) <= Max(c, b)
  {
  }

  lemma MulMonotone(a: real, b: real, c: real)
    requires a >= 0.0 && b <= c
    ensures a * b <= a * c
  {
    assert a * c - a * b == a * (c - b);
  }

  /** Scaling a non-negative importance by a smaller factor never gives a larger floored result. */
  lemma ScaledOrder(floor: real, importance: real, smaller: real, larger: real)
    requires importance >= 0.0 && smaller <= larger
    ensures Max(floor, importance * smaller) <= Max(floor, importance * larger)
  {
    var low, high := importance * smaller, importance * larger;
    MulMonotone(importance, smaller, larger);
    assert low <= high;
    MaxMonotone(floor, low, high);
  }

  /** The exponent of the decay factor is never positive, and later runs have the smaller exponent. */
  lemma ExponentOrder(rate: real, younger: real, older: real)
    requires rate >= 0.0 && 0.0 <= younger <= older
    ensures -rate * older <= -rate * younger <= 0.0
  {
    MulMonotone(rate, younger, older);
    MulMonotone(rate, 0.0, younger);
  }

  /** With a non-negative rate the factor lies in (0, 1] and shrinks as `now` advances. */
  lemma FactorOrder(earlier: int, later: int, lastAccessed: int, rate: real, exp: real -> real)
    requires ExpLaws(exp) && rate >= 0.0 && earlier <= later
    ensures 0.0 < Factor(later, lastAccessed, rate, exp) <= Factor(earlier, lastAccessed, rate, exp) <= 1.0
  {
    var a1 := AgeDays(earlier, lastAccessed);
    var a2 := AgeDays(later, lastAccessed);
    assert a1 <= a2;
    ExponentOrder(rate, a1, a2);
  }

  /** A record accessed at or after `now` has no age: only the floor applies. */
  lemma DecayWithoutAge(m: MemoryRecord, now: int, rate: real, floor: real, exp: real -> real)
    requires ExpLaws(exp)
    requires now <= m.lastAccessed
    ensures ApplyDecay(m, now, rate, floor, exp).importance == Max(floor, m.importance)
  {
    var age := AgeDays(now, m.lastAccessed);
    assert age == 0.0;
    assert -rate * age == 0.0;
    assert Factor(now, m.lastAccessed, rate, exp) == 1.0;
  }

  /** With a non-negative rate and importance, decay never lifts importance above its old value or the floor. */
  lemma DecayNeverRaises(m: MemoryRecord, now: int, rate: real, floor: real, exp: real -> real)
    requires ExpLaws(exp)
    requires rate >= 0.0 && m.importance >= 0.0
    ensures ApplyDecay(m, now, rate, floor, exp).importance <= Max(floor, m.importance)
  {
    FactorOrder(now, now, m.lastAccessed, rate, exp);
    var f := Factor(now, m.lastAccessed, rate, exp);
    MulMonotone(m.importance, f, 1.0);
    assert m.importance * 1.0 == m.importance;
    MaxMonotone(floor, m.importance * f, m.importance);
    assert ApplyDecay(m, now, rate, floor, exp).importance == Max(floor, m.importance * f);
  }

  /** Importance after decay is non-increasing in the time at which decay runs. */
  lemma DecayMonotoneInTime(m: MemoryRecord, earlier: int, later: int, rate: real, floor: real, exp: real -> real)
    requires ExpLaws(exp)
    requires earlier <= later
    requires rate >= 0.0 && m.importance >= 0.0
    ensures ApplyDecay(m, later, rate, floor, exp).importance <= ApplyDecay(m, earlier, rate, floor, exp).importance
  {
    FactorOrder(earlier, later, m.lastAccessed, rate, exp);
    ScaledOrder(floor, m.importance, Factor(later, m.lastAccessed, rate, exp), Factor(earlier, m.lastAccessed, rate, exp));
    DecayedImportance(m, earlier, rate, floor, exp);
    DecayedImportance(m, later, rate, floor, exp);
  }
}
