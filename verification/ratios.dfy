/** Small numeric helpers shared by the scorers: Python's `min(x, 1.0)`,
    `max(n, 1)` and `set(xs)`. */
module Ratios {

  function ToSet(xs: seq<string>): (s: set<string>)
    ensures forall x :: x in s <==> x in xs
  {
    set x | x in xs
  }

  /** `min(x, 1.0)`. */
  function AtMostOne(x: real): real {
    if x < 1.0 then x else 1.0
  }

  /** `max(n, 1)`. */
  function AtLeastOne(n: nat): nat {
    if n > 1 then n else 1
  }

  predicate InUnit(x: real) {
    0.0 <= x <= 1.0
  }

  /** `min(num / den, 1.0)` for a positive denominator: full once the
      numerator reaches the denominator, positive exactly when the numerator is. */
  function CappedRatio(num: real, den: real): (r: real)
    requires den > 0.0
    ensures num >= 0.0 ==> InUnit(r)
    ensures r == 1.0 <==> num >= den
    ensures num >= 0.0 ==> (r > 0.0 <==> num > 0.0)
  {
    RatioFacts(num, den);
    AtMostOne(num / den)
  }

  lemma RatioFacts(num: real, den: real)
    requires den > 0.0
    ensures num >= den <==> num / den >= 1.0
    ensures num > 0.0 ==> num / den > 0.0
    ensures num == 0.0 ==> num / den == 0.0
  {
    var q := num / den;
    assert q * den == num;
    assert (1.0 - q) * den == den - num;
  }

  /** A subset as large as its superset is the superset. */
  lemma SubsetOfSameSize<T>(a: set<T>, b: set<T>)
    requires a <= b && |a| >= |b|
    ensures a == b
  {
    if a != b {
      var x :| x in b && x !in a;
      assert a <= b - {x};
      SubsetSize(a, b - {x});
      assert false;
    }
  }

  lemma SubsetSize<T>(a: set<T>, b: set<T>)
    requires a <= b
    ensures |a| <= |b|
  {
    assert b == a + (b - a);
  }
}
