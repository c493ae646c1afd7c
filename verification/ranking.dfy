/** Best-first selection shared by both search services and by the answer
    generator's sentence picker: Python's `xs.sort(key=..., reverse=True)`
    followed by `xs[:k]`.

    Python's sort is stable also with `reverse=True`: elements with equal
    keys keep their original relative order. `SortDesc` is a functional
    insertion sort; `SortDescUnique` shows that any sorted arrangement that
    keeps equal-key elements in input order is this one, so `SortDesc` is
    exactly what the Python sort produces. */
module Ranking {
  import Seqs


  ghost predicate SortedDesc<T>(s: seq<T>, key: T -> real) {
    forall i, j :: 0 <= i < j < |s| ==> key(s[i]) >= key(s[j])
  }

  /** The elements whose key is `v`, in their order in `s`. */
  function WithKey<T>(s: seq<T>, key: T -> real, v: real): (r: seq<T>)
    ensures forall i :: 0 <= i < |r| ==> key(r[i]) == v && r[i] in s
    decreases |s|
  {
    if |s| == 0 then []
    else (if key(s[0]) == v then [s[0]] else []) + WithKey(s[1..], key, v)
  }

  /** Elements with equal keys appear in the same relative order in both. */
  ghost predicate SameTies<T>(a: seq<T>, b: seq<T>, key: T -> real) {
    forall v :: WithKey(a, key, v) == WithKey(b, key, v)
  }

  lemma {:induction false} WithKeyAppend<T>(a: seq<T>, b: seq<T>, key: T -> real, v: real)
    ensures WithKey(a + b, key, v) == WithKey(a, key, v) + WithKey(b, key, v)
    decreases |a|
  {
    if |a| == 0 {
      assert a + b == b;
    } else {
      assert (a + b)[1..] == a[1..] + b;
      WithKeyAppend(a[1..], b, key, v);
    }
  }

  lemma {:induction false} WithKeyNone<T>(s: seq<T>, key: T -> real, v: real)
    requires forall i :: 0 <= i < |s| ==> key(s[i]) != v
    ensures WithKey(s, key, v) == []
    decreases |s|
  {
    if |s| > 0 {
      WithKeyNone(s[1..], key, v);
    }
  }

  /** Insert `x` after every element whose key is at least `key(x)`. */
  function InsertDesc<T>(x: T, s: seq<T>, key: T -> real): (r: seq<T>)
    ensures |r| == |s| + 1
    ensures multiset(r) == multiset(s) + multiset{x}
    decreases |s|
  {
    if |s| == 0 then [x]
    else if key(s[0]) >= key(x) then
      var r := [s[0]] + InsertDesc(x, s[1..], key);
      assert s == [s[0]] + s[1..];
      r
    else [x] + s
  }

  lemma {:induction false} InsertDescSorted<T>(x: T, s: seq<T>, key: T -> real)
    requires SortedDesc(s, key)
    ensures SortedDesc(InsertDesc(x, s, key), key)
    decreases |s|
  {
    if |s| > 0 && key(s[0]) >= key(x) {
      var rest := InsertDesc(x, s[1..], key);
      InsertDescSorted(x, s[1..], key);
      var r := [s[0]] + rest;
      forall j | 0 < j < |r| ensures key(r[0]) >= key(r[j]) {
        assert r[j] in multiset(rest);
        assert r[j] in multiset(s[1..]) + multiset{x};
        if r[j] != x {
          assert r[j] in s[1..];
        }
      }
    }
  }

  lemma {:induction false} InsertDescTies<T>(x: T, s: seq<T>, key: T -> real)
    requires SortedDesc(s, key)
    ensures SameTiesAfterInsert(x, s, key)
    decreases |s|
  {
    if |s| > 0 {
      if key(s[0]) >= key(x) {
        InsertDescTies(x, s[1..], key);
        InsertDescTiesAfterHead(x, s, key);
      } else {
        InsertDescTiesAtFront(x, s, key);
      }
    }
  }

  lemma InsertDescTiesAfterHead<T>(x: T, s: seq<T>, key: T -> real)
    requires |s| > 0 && key(s[0]) >= key(x)
    requires SameTiesAfterInsert(x, s[1..], key)
    ensures SameTiesAfterInsert(x, s, key)
  {
    forall v ensures WithKey(InsertDesc(x, s, key), key, v) == WithKey(s, key, v) + (if key(x) == v then [x] else []) {
      TiesAfterHead(x, s, key, v);
    }
  }

  lemma TiesAfterHead<T>(x: T, s: seq<T>, key: T -> real, v: real)
    requires |s| > 0 && key(s[0]) >= key(x)
    requires WithKey(InsertDesc(x, s[1..], key), key, v) == WithKey(s[1..], key, v) + (if key(x) == v then [x] else [])
    ensures WithKey(InsertDesc(x, s, key), key, v) == WithKey(s, key, v) + (if key(x) == v then [x] else [])
  {
    var rest := InsertDesc(x, s[1..], key);
    var h := if key(s[0]) == v then [s[0]] else [];
    var e := if key(x) == v then [x] else [];
    var a := WithKey(s[1..], key, v);
    assert InsertDesc(x, s, key) == [s[0]] + rest;
    WithKeyCons(s[0], rest, key, v);
    assert WithKey(InsertDesc(x, s, key), key, v) == h + (a + e);
    assert WithKey(s, key, v) == h + a;
    Seqs.Assoc(h, a, e);
  }

  lemma WithKeyCons<T>(y: T, t: seq<T>, key: T -> real, v: real)
    ensures WithKey([y] + t, key, v) == (if key(y) == v then [y] else []) + WithKey(t, key, v)
  {
    assert ([y] + t)[1..] == t;
  }

  lemma InsertDescTiesAtFront<T>(x: T, s: seq<T>, key: T -> real)
    requires SortedDesc(s, key)
    requires |s| > 0 && key(s[0]) < key(x)
    ensures SameTiesAfterInsert(x, s, key)
  {
    var r := InsertDesc(x, s, key);
    assert r == [x] + s;
    assert r[0] == x && r[1..] == s;
    forall v ensures WithKey(r, key, v) == WithKey(s, key, v) + (if key(x) == v then [x] else []) {
      if key(x) == v {
        WithKeyNone(s, key, v);
      }
    }
  }

  ghost predicate SameTiesAfterInsert<T>(x: T, s: seq<T>, key: T -> real) {
    forall v :: WithKey(InsertDesc(x, s, key), key, v) == WithKey(s, key, v) + (if key(x) == v then [x] else [])
  }

  /** Python's stable `sort(key=key, reverse=True)`. */
  function SortDesc<T>(s: seq<T>, key: T -> real): (r: seq<T>)
    ensures |r| == |s|
    ensures multiset(r) == multiset(s)
    ensures SortedDesc(r, key)
    ensures SameTies(r, s, key)
    decreases |s|
  {
    if |s| == 0 then []
    else
      var init := s[..|s| - 1];
      var last := s[|s| - 1];
      var sortedInit := SortDesc(init, key);
      InsertDescSorted(last, sortedInit, key);
      InsertDescTies(last, sortedInit, key);
      assert s == init + [last];
      SortDescTies(init, last, key, sortedInit);
      InsertDesc(last, sortedInit, key)
  }

  lemma SortDescTies<T>(init: seq<T>, last: T, key: T -> real, sortedInit: seq<T>)
    requires SameTies(sortedInit, init, key)
    requires SameTiesAfterInsert(last, sortedInit, key)
    ensures SameTies(InsertDesc(last, sortedInit, key), init + [last], key)
  {
    forall v ensures WithKey(InsertDesc(last, sortedInit, key), key, v) == WithKey(init + [last], key, v) {
      WithKeyAppend(init, [last], key, v);
      assert WithKey([last], key, v) == (if key(last) == v then [last] else []);
    }
  }

  lemma {:induction false} SortedFirstIsMax<T>(s: seq<T>, key: T -> real, y: T)
    requires SortedDesc(s, key) && |s| > 0 && y in s
    ensures key(s[0]) >= key(y)
  {
    var j :| 0 <= j < |s| && s[j] == y;
  }

  lemma WithKeyOfHead<T>(s: seq<T>, key: T -> real)
    requires |s| > 0
    ensures WithKey(s, key, key(s[0])) != []
  {
    assert WithKey(s, key, key(s[0]))[0] == s[0];
  }

  /** A sorted sequence that keeps ties in the order of another sorted
      sequence is that sequence: a stable descending sort has one outcome. */
  lemma {:induction false} SortDescUnique<T>(a: seq<T>, b: seq<T>, key: T -> real)
    requires SortedDesc(a, key) && SortedDesc(b, key)
    requires SameTies(a, b, key)
    ensures a == b
    decreases |a|
  {
    if |a| == 0 && |b| > 0 {
      assert false;
    } else if |a| > 0 && |b| == 0 {
      WithKeyOfHead(a, key);
      assert false;
    } else if |a| > 0 {
      var va := key(a[0]);
      var vb := key(b[0]);
      var wa := WithKey(a, key, va);
      assert wa == [a[0]] + WithKey(a[1..], key, va);
      assert wa[0] in b by { assert wa == WithKey(b, key, va); }
      SortedFirstIsMax(b, key, wa[0]);
      var wb := WithKey(b, key, vb);
      assert wb == [b[0]] + WithKey(b[1..], key, vb);
      assert wb[0] in a by { assert wb == WithKey(a, key, vb); }
      SortedFirstIsMax(a, key, wb[0]);
      assert va == vb;
      assert a[0] == b[0] by { assert wa == WithKey(b, key, va); }
      forall v ensures WithKey(a[1..], key, v) == WithKey(b[1..], key, v) {
        var ha := if key(a[0]) == v then [a[0]] else [];
        assert WithKey(a, key, v) == ha + WithKey(a[1..], key, v);
        assert WithKey(b, key, v) == ha + WithKey(b[1..], key, v);
        assert WithKey(a, key, v) == WithKey(b, key, v);
        assert WithKey(a[1..], key, v) == (ha + WithKey(a[1..], key, v))[|ha|..];
        assert WithKey(b[1..], key, v) == (ha + WithKey(b[1..], key, v))[|ha|..];
      }
      SortDescUnique(a[1..], b[1..], key);
      assert a == [a[0]] + a[1..];
      assert b == [b[0]] + b[1..];
    }
  }

  /** Python's `s[:k]`; a negative `k` counts from the end. */
  function Take<T>(s: seq<T>, k: int): (r: seq<T>)
    ensures r <= s
    ensures k >= 0 ==> |r| == (if k < |s| then k else |s|)
    ensures k < 0 ==> |r| == (if |s| + k > 0 then |s| + k else 0)
  {
    if k >= 0 then (if k < |s| then s[..k] else s)
    else (if |s| + k > 0 then s[..|s| + k] else [])
  }

  lemma WithKeyOfPrefix<T>(p: seq<T>, s: seq<T>, key: T -> real, v: real)
    requires p <= s
    ensures WithKey(p, key, v) <= WithKey(s, key, v)
  {
    assert s == p + s[|p|..];
    WithKeyAppend(p, s[|p|..], key, v);
  }

  /** The best `k` candidates, best first, ties in input order. */
  function TopK<T>(candidates: seq<T>, key: T -> real, k: int): (r: seq<T>)
    ensures k >= 0 ==> |r| == (if k < |candidates| then k else |candidates|)
    ensures SortedDesc(r, key)
    ensures multiset(r) <= multiset(candidates)
    ensures forall v :: WithKey(r, key, v) <= WithKey(candidates, key, v)
    ensures forall y, i :: y in multiset(candidates) - multiset(r) && 0 <= i < |r| ==> key(r[i]) >= key(y)
  {
    var sorted := SortDesc(candidates, key);
    var r := Take(sorted, k);
    TopKFacts(candidates, key, sorted, r);
    r
  }

  lemma TopKFacts<T>(candidates: seq<T>, key: T -> real, sorted: seq<T>, r: seq<T>)
    requires sorted == SortDesc(candidates, key)
    requires r <= sorted
    ensures SortedDesc(r, key)
    ensures multiset(r) <= multiset(candidates)
    ensures forall v :: WithKey(r, key, v) <= WithKey(candidates, key, v)
    ensures forall y, i :: y in multiset(candidates) - multiset(r) && 0 <= i < |r| ==> key(r[i]) >= key(y)
  {
    var rest := sorted[|r|..];
    assert sorted == r + rest;
    assert multiset(sorted) == multiset(r) + multiset(rest);
    assert SortedDesc(r, key) by {
      forall i, j | 0 <= i < j < |r| ensures key(r[i]) >= key(r[j]) {
        assert r[i] == sorted[i] && r[j] == sorted[j];
      }
    }
    forall v ensures WithKey(r, key, v) <= WithKey(candidates, key, v) {
      WithKeyOfPrefix(r, sorted, key, v);
    }
    TopKBeaten(sorted, r, rest, key);
  }

  lemma TopKBeaten<T>(sorted: seq<T>, r: seq<T>, rest: seq<T>, key: T -> real)
    requires SortedDesc(sorted, key)
    requires sorted == r + rest
    ensures forall y, i :: y in multiset(sorted) - multiset(r) && 0 <= i < |r| ==> key(r[i]) >= key(y)
  {
    assert multiset(sorted) - multiset(r) == multiset(rest);
    forall y, i | y in multiset(rest) && 0 <= i < |r|
      ensures key(r[i]) >= key(y)
    {
      assert y in rest;
      var j :| 0 <= j < |rest| && rest[j] == y;
      assert sorted[|r| + j] == y;
      assert sorted[i] == r[i];
    }
  }
}
