/** Order-preserving filtering and the subsequence relation, used by every
    list comprehension of the form `[x for x in xs if cond]`. */
module Seqs {

  /** `[x for x in xs if keep(x)]`. */
  function Filter<T>(xs: seq<T>, keep: T -> bool): (r: seq<T>)
    ensures |r| <= |xs|
    ensures forall i :: 0 <= i < |r| ==> keep(r[i]) && r[i] in xs
    ensures forall x :: x in xs && keep(x) ==> x in r
    ensures multiset(r) <= multiset(xs)
    decreases |xs|
  {
    if |xs| == 0 then []
    else
      var rest := Filter(xs[1..], keep);
      assert xs == [xs[0]] + xs[1..];
      if keep(xs[0]) then [xs[0]] + rest else rest
  }

  lemma {:induction false} FilterAppend<T>(a: seq<T>, b: seq<T>, keep: T -> bool)
    ensures Filter(a + b, keep) == Filter(a, keep) + Filter(b, keep)
    decreases |a|
  {
    if |a| > 0 {
      assert (a + b)[1..] == a[1..] + b;
      FilterAppend(a[1..], b, keep);
    } else {
      assert a + b == b;
    }
  }

  /** A filter that keeps everything changes nothing. */
  lemma {:induction false} FilterAll<T>(xs: seq<T>, keep: T -> bool)
    requires forall i :: 0 <= i < |xs| ==> keep(xs[i])
    ensures Filter(xs, keep) == xs
    decreases |xs|
  {
    if |xs| > 0 {
      FilterAll(xs[1..], keep);
      assert [xs[0]] + xs[1..] == xs;
    }
  }

  /** Filtering twice with the same condition is filtering once. */
  lemma FilterIdempotent<T>(xs: seq<T>, keep: T -> bool)
    ensures Filter(Filter(xs, keep), keep) == Filter(xs, keep)
  {
    FilterAll(Filter(xs, keep), keep);
  }

  /** `a` can be obtained from `b` by deleting elements. */
  ghost predicate IsSubsequence<T>(a: seq<T>, b: seq<T>)
    decreases |b|
  {
    || |a| == 0
    || (|b| > 0 && a[0] == b[0] && IsSubsequence(a[1..], b[1..]))
    || (|b| > 0 && IsSubsequence(a, b[1..]))
  }

  lemma {:induction false} SubsequenceOfSelf<T>(xs: seq<T>)
    ensures IsSubsequence(xs, xs)
    decreases |xs|
  {
    if |xs| > 0 {
      SubsequenceOfSelf(xs[1..]);
    }
  }

  /** A filter that keeps nothing yields nothing. */
  lemma {:induction false} FilterNone<T>(xs: seq<T>, keep: T -> bool)
    requires forall i :: 0 <= i < |xs| ==> !keep(xs[i])
    ensures Filter(xs, keep) == []
    decreases |xs|
  {
    if |xs| > 0 {
      FilterNone(xs[1..], keep);
    }
  }

  /** A filter keeps a subsequence of its input. */
  lemma {:induction false} FilterIsSubsequence<T>(xs: seq<T>, keep: T -> bool)
    ensures IsSubsequence(Filter(xs, keep), xs)
    decreases |xs|
  {
    if |xs| > 0 {
      FilterIsSubsequence(xs[1..], keep);
      assert [xs[0]] + xs[1..] == xs;
      var rest := Filter(xs[1..], keep);
      if keep(xs[0]) {
        assert ([xs[0]] + rest)[1..] == rest;
      }
    }
  }

  /** `[f(x) for x in xs]`. */
  function Map<T, U>(xs: seq<T>, f: T -> U): (r: seq<U>)
    ensures |r| == |xs|
    ensures forall i :: 0 <= i < |xs| ==> r[i] == f(xs[i])
  {
    seq(|xs|, i requires 0 <= i < |xs| => f(xs[i]))
  }

  lemma MapCons<T, U>(x: T, xs: seq<T>, f: T -> U)
    ensures Map([x] + xs, f) == [f(x)] + Map(xs, f)
  {
    assert forall i :: 1 <= i < |xs| + 1 ==> ([x] + xs)[i] == xs[i - 1];
  }

  /** No element occurs twice. */
  predicate Distinct<T(==)>(xs: seq<T>) {
    forall i, j :: 0 <= i < j < |xs| ==> xs[i] != xs[j]
  }

  /** Filtering never introduces a repetition. */
  lemma {:induction false} FilterDistinct<T>(xs: seq<T>, keep: T -> bool)
    requires Distinct(xs)
    ensures Distinct(Filter(xs, keep))
    decreases |xs|
  {
    if |xs| > 0 {
      DistinctTail(xs);
      FilterDistinct(xs[1..], keep);
      FilterHead(xs, keep);
      if keep(xs[0]) {
        DistinctCons(xs[0], Filter(xs[1..], keep));
      } else {
        assert Filter(xs, keep) == Filter(xs[1..], keep);
      }
    }
  }

  /** The tail of a sequence without repetitions has none, nor its head. */
  lemma DistinctTail<T>(xs: seq<T>)
    requires |xs| > 0 && Distinct(xs)
    ensures Distinct(xs[1..]) && xs[0] !in xs[1..]
  {
    var rest := xs[1..];
    forall i, j | 0 <= i < j < |rest| ensures rest[i] != rest[j] {
      assert rest[i] == xs[i + 1] && rest[j] == xs[j + 1];
    }
    forall j | 0 <= j < |rest| ensures rest[j] != xs[0] {
      assert rest[j] == xs[j + 1];
    }
  }

  /** A new element in front keeps a sequence free of repetitions. */
  lemma DistinctCons<T>(x: T, rest: seq<T>)
    requires Distinct(rest) && x !in rest
    ensures Distinct([x] + rest)
  {
    var r := [x] + rest;
    forall i, j | 0 <= i < j < |r| ensures r[i] != r[j] {
      if i == 0 {
        assert r[j] == rest[j - 1];
      } else {
        assert r[i] == rest[i - 1] && r[j] == rest[j - 1];
      }
    }
  }

  /** The first element of every (non-empty) inner sequence. */
  function Heads<T>(xs: seq<seq<T>>): (r: seq<T>)
    requires forall i :: 0 <= i < |xs| ==> |xs[i]| > 0
    ensures |r| == |xs|
    ensures forall i :: 0 <= i < |xs| ==> r[i] == xs[i][0]
  {
    seq(|xs|, i requires 0 <= i < |xs| => xs[i][0])
  }

  /** Sequences that start differently are different. */
  lemma DistinctHeads<T>(xs: seq<seq<T>>)
    requires forall i :: 0 <= i < |xs| ==> |xs[i]| > 0
    requires Distinct(Heads(xs))
    ensures Distinct(xs)
  {
    forall i, j | 0 <= i < j < |xs| ensures xs[i] != xs[j] {
      assert Heads(xs)[i] != Heads(xs)[j];
    }
  }

  /** `sum(1 for x in xs if p(x))`. */
  function CountWhere<T>(xs: seq<T>, p: T -> bool): (n: nat)
    ensures n <= |xs|
    ensures n > 0 <==> exists i :: 0 <= i < |xs| && p(xs[i])
    decreases |xs|
  {
    if |xs| == 0 then 0
    else
      var rest := CountWhere(xs[1..], p);
      assert forall i :: 1 <= i < |xs| ==> xs[i] == xs[1..][i - 1];
      (if p(xs[0]) then 1 else 0) + rest
  }

  /** `{x for x in xs if p(x)}`. */
  function Where<T>(xs: seq<T>, p: T -> bool): set<T> {
    set x | x in xs && p(x)
  }

  /** Without repetitions, the count is the size of the set of matches. */
  lemma {:induction false} CountDistinct<T>(xs: seq<T>, p: T -> bool)
    requires Distinct(xs)
    ensures CountWhere(xs, p) == |Where(xs, p)|
    decreases |xs|
  {
    if |xs| > 0 {
      DistinctTail(xs);
      CountDistinct(xs[1..], p);
      WhereCons(xs, p);
    }
  }

  lemma WhereCons<T>(xs: seq<T>, p: T -> bool)
    requires |xs| > 0 && xs[0] !in xs[1..]
    ensures |Where(xs, p)| == (if p(xs[0]) then 1 else 0) + |Where(xs[1..], p)|
  {
    assert xs == [xs[0]] + xs[1..];
    var rest := Where(xs[1..], p);
    if p(xs[0]) {
      assert Where(xs, p) == {xs[0]} + rest;
    } else {
      assert Where(xs, p) == rest;
    }
  }

  /** What a filter keeps and what it drops make up the input. */
  lemma {:induction false} FilterPartition<T>(xs: seq<T>, keep: T -> bool, drop: T -> bool)
    requires forall x :: drop(x) == !keep(x)
    ensures multiset(Filter(xs, keep)) + multiset(Filter(xs, drop)) == multiset(xs)
    decreases |xs|
  {
    if |xs| > 0 {
      FilterPartition(xs[1..], keep, drop);
      FilterHead(xs, keep);
      FilterHead(xs, drop);
      assert drop(xs[0]) == !keep(xs[0]);
      PartitionStep(xs, keep(xs[0]), Filter(xs[1..], keep), Filter(xs[1..], drop));
    }
  }

  lemma PartitionStep<T>(xs: seq<T>, kept: bool, k: seq<T>, d: seq<T>)
    requires |xs| > 0 && multiset(k) + multiset(d) == multiset(xs[1..])
    ensures multiset((if kept then [xs[0]] else []) + k) + multiset((if kept then [] else [xs[0]]) + d) == multiset(xs)
  {
    assert xs == [xs[0]] + xs[1..];
  }

  /** A filter drops only elements that fail its condition. */
  lemma FilterDropsOnly<T>(xs: seq<T>, keep: T -> bool)
    ensures forall x :: x in multiset(xs) - multiset(Filter(xs, keep)) ==> !keep(x)
  {
    var drop := (x: T) => !keep(x);
    FilterPartition(xs, keep, drop);
    assert multiset(xs) - multiset(Filter(xs, keep)) == multiset(Filter(xs, drop));
  }

  /** Mapping keeps prefixes. */
  lemma MapPrefix<T, U>(a: seq<T>, b: seq<T>, f: T -> U)
    requires a <= b
    ensures Map(a, f) <= Map(b, f)
  {
  }

  /** One step of a filter: the head is kept or not, then the rest. */
  lemma FilterHead<T>(xs: seq<T>, keep: T -> bool)
    requires |xs| > 0
    ensures Filter(xs, keep) == (if keep(xs[0]) then [xs[0]] else []) + Filter(xs[1..], keep)
  {
  }

  /** Filters that agree on every element keep the same elements. */
  lemma {:induction false} FilterCongruent<T>(xs: seq<T>, p: T -> bool, q: T -> bool)
    requires forall i :: 0 <= i < |xs| ==> p(xs[i]) == q(xs[i])
    ensures Filter(xs, p) == Filter(xs, q)
    decreases |xs|
  {
    if |xs| > 0 {
      FilterCongruent(xs[1..], p, q);
    }
  }

  /** A filter keeps something exactly when some element passes. */
  lemma FilterNonEmpty<T>(xs: seq<T>, keep: T -> bool)
    ensures Filter(xs, keep) != [] <==> exists i :: 0 <= i < |xs| && keep(xs[i])
  {
    if Filter(xs, keep) != [] {
      var x := Filter(xs, keep)[0];
      var i :| 0 <= i < |xs| && xs[i] == x;
    }
    if exists i :: 0 <= i < |xs| && keep(xs[i]) {
      var i :| 0 <= i < |xs| && keep(xs[i]);
      assert xs[i] in Filter(xs, keep);
    }
  }

  /** Filtering by one condition and then another is filtering by both. */
  lemma {:induction false} FilterFilter<T>(xs: seq<T>, p: T -> bool, q: T -> bool, both: T -> bool)
    requires forall x :: both(x) == (p(x) && q(x))
    ensures Filter(Filter(xs, p), q) == Filter(xs, both)
    decreases |xs|
  {
    if |xs| > 0 {
      FilterFilter(xs[1..], p, q, both);
      var rest := Filter(xs[1..], p);
      if p(xs[0]) {
        assert ([xs[0]] + rest)[1..] == rest;
      }
    }
  }

  /** Concatenation regroups freely. */
  lemma Assoc<T>(a: seq<T>, b: seq<T>, c: seq<T>)
    ensures a + (b + c) == (a + b) + c
  {
  }

  /** Sequences that differ at most in a first element `f` does not tell
      apart have the same image. */
  lemma MapHeadOnly<T, U>(a: seq<T>, b: seq<T>, f: T -> U)
    requires |a| == |b| > 0 && f(a[0]) == f(b[0]) && a[1..] == b[1..]
    ensures Map(a, f) == Map(b, f)
  {
    forall i | 0 <= i < |a| ensures f(a[i]) == f(b[i]) {
      if i > 0 {
        assert a[i] == a[1..][i - 1];
      }
    }
  }

  /** Some element of `xs` has key `k`. */
  ghost predicate HasKey<T, K>(xs: seq<T>, key: T -> K, k: K) {
    exists i :: 0 <= i < |xs| && key(xs[i]) == k
  }

  /** A new key in front keeps the keys pairwise distinct. */
  lemma KeysDistinctCons<T, K>(x: T, rest: seq<T>, key: T -> K)
    requires forall i :: 0 <= i < |rest| ==> key(rest[i]) != key(x)
    requires forall i, j :: 0 <= i < j < |rest| ==> key(rest[i]) != key(rest[j])
    ensures forall i, j :: 0 <= i < j < |[x] + rest| ==> key(([x] + rest)[i]) != key(([x] + rest)[j])
  {
    var r := [x] + rest;
    forall i, j | 0 <= i < j < |r| ensures key(r[i]) != key(r[j]) {
      assert r[j] == rest[j - 1];
      if i > 0 {
        assert r[i] == rest[i - 1];
      }
    }
  }

  /** `x` occurs in `xs`, and no element before its first occurrence shares
      its key: `x` is the first element of `xs` with that key. */
  ghost predicate FirstWithKey<T, K>(xs: seq<T>, key: T -> K, x: T) {
    exists j :: 0 <= j < |xs| && xs[j] == x && forall j' :: 0 <= j' < j ==> key(xs[j']) != key(x)
  }

  /** Putting an element with another key in front keeps every first. */
  lemma FirstWithKeyCons<T, K>(y: T, xs: seq<T>, key: T -> K, kept: seq<T>, p: T -> bool)
    requires forall i :: 0 <= i < |kept| && p(kept[i]) ==> FirstWithKey(xs, key, kept[i]) && key(kept[i]) != key(y)
    ensures forall i :: 0 <= i < |kept| && p(kept[i]) ==> FirstWithKey([y] + xs, key, kept[i])
  {
    var ys := [y] + xs;
    forall i | 0 <= i < |kept| && p(kept[i]) ensures FirstWithKey(ys, key, kept[i]) {
      var x := kept[i];
      var j :| 0 <= j < |xs| && xs[j] == x && forall j' :: 0 <= j' < j ==> key(xs[j']) != key(x);
      assert ys[j + 1] == x;
      forall j' | 0 <= j' < j + 1 ensures key(ys[j']) != key(x) {
        if j' > 0 {
          assert ys[j'] == xs[j' - 1];
        }
      }
    }
  }

  /** The head of a sequence is the first with its key. */
  lemma FirstWithKeyHead<T, K>(xs: seq<T>, key: T -> K)
    requires |xs| > 0
    ensures FirstWithKey(xs, key, xs[0])
  {
  }

  lemma HasKeyHead<T, K>(y: T, rest: seq<T>, key: T -> K)
    ensures HasKey([y] + rest, key, key(y))
  {
    assert ([y] + rest)[0] == y;
  }

  lemma HasKeyCons<T, K>(y: T, rest: seq<T>, key: T -> K, k: K)
    requires HasKey(rest, key, k)
    ensures HasKey([y] + rest, key, k)
  {
    var i :| 0 <= i < |rest| && key(rest[i]) == k;
    assert ([y] + rest)[i + 1] == rest[i];
  }
}
