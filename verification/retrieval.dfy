/** The selection step both search services share: drop every scored
    section at or below the threshold, order the rest best first (ties in
    section order) and keep the first `k`. */
module Retrieval {
  import opened Seqs
  import opened Ranking
  import opened Manual

  /** A section must score strictly above this to be returned. */
  const Threshold: real := 0.05

  predicate AboveThreshold(r: SearchResult) {
    r.score > Threshold
  }

  /** `min(a, b)`. */
  function Min(a: int, b: int): int {
    if a < b then a else b
  }

  function Rank(scored: seq<SearchResult>, k: int): (r: seq<SearchResult>)
    ensures k >= 0 ==> |r| <= k
    ensures k >= 0 ==> |r| == Min(k, |Filter(scored, AboveThreshold)|)
    ensures forall i :: 0 <= i < |r| ==> r[i].score > Threshold && r[i] in scored
    ensures SortedDesc(r, ResultScore)
    ensures forall v :: WithKey(r, ResultScore, v) <= WithKey(scored, ResultScore, v)
    ensures forall y, i :: y in scored && y !in r && 0 <= i < |r| ==> r[i].score >= y.score
    ensures k >= |scored| ==> forall x :: x in scored && x.score > Threshold ==> x in r
  {
    var candidates := Filter(scored, AboveThreshold);
    var r := TopK(candidates, ResultScore, k);
    RankOrderFacts(scored, candidates, r, k);
    RankCoverFacts(scored, candidates, r, k);
    r
  }

  lemma RankOrderFacts(scored: seq<SearchResult>, candidates: seq<SearchResult>, r: seq<SearchResult>, k: int)
    requires candidates == Filter(scored, AboveThreshold)
    requires r == TopK(candidates, ResultScore, k)
    ensures forall i :: 0 <= i < |r| ==> r[i].score > Threshold && r[i] in scored
    ensures forall v :: WithKey(r, ResultScore, v) <= WithKey(scored, ResultScore, v)
  {
    RankMembers(scored, candidates, r);
    RankTies(scored, candidates, r);
  }

  lemma RankCoverFacts(scored: seq<SearchResult>, candidates: seq<SearchResult>, r: seq<SearchResult>, k: int)
    requires candidates == Filter(scored, AboveThreshold)
    requires r == TopK(candidates, ResultScore, k)
    ensures forall y, i :: y in scored && y !in r && 0 <= i < |r| ==> r[i].score >= y.score
    ensures k >= |scored| ==> forall x :: x in scored && x.score > Threshold ==> x in r
  {
    RankMembers(scored, candidates, r);
    RankBeaten(scored, candidates, r);
    RankComplete(scored, candidates, r, k);
  }

  lemma RankMembers(scored: seq<SearchResult>, candidates: seq<SearchResult>, r: seq<SearchResult>)
    requires candidates == Filter(scored, AboveThreshold)
    requires multiset(r) <= multiset(candidates)
    ensures forall i :: 0 <= i < |r| ==> r[i].score > Threshold && r[i] in scored
  {
    forall i | 0 <= i < |r| ensures r[i] in candidates {
      assert r[i] in multiset(r);
    }
  }

  lemma RankTies(scored: seq<SearchResult>, candidates: seq<SearchResult>, r: seq<SearchResult>)
    requires candidates == Filter(scored, AboveThreshold)
    requires forall i :: 0 <= i < |r| ==> r[i].score > Threshold
    requires forall v :: WithKey(r, ResultScore, v) <= WithKey(candidates, ResultScore, v)
    ensures forall v :: WithKey(r, ResultScore, v) <= WithKey(scored, ResultScore, v)
  {
    forall v ensures WithKey(r, ResultScore, v) <= WithKey(scored, ResultScore, v) {
      if v > Threshold {
        WithKeyOfFilter(scored, v);
      } else {
        WithKeyNone(r, ResultScore, v);
      }
    }
  }

  lemma RankBeaten(scored: seq<SearchResult>, candidates: seq<SearchResult>, r: seq<SearchResult>)
    requires candidates == Filter(scored, AboveThreshold)
    requires forall i :: 0 <= i < |r| ==> r[i].score > Threshold
    requires forall y, i :: y in multiset(candidates) - multiset(r) && 0 <= i < |r| ==> r[i].score >= y.score
    ensures forall y, i :: y in scored && y !in r && 0 <= i < |r| ==> r[i].score >= y.score
  {
    forall y, i | y in scored && y !in r && 0 <= i < |r| ensures r[i].score >= y.score {
      if y.score > Threshold {
        assert y in candidates;
        assert y in multiset(candidates);
        assert y !in multiset(r);
        assert y in multiset(candidates) - multiset(r);
      }
    }
  }

  lemma RankComplete(scored: seq<SearchResult>, candidates: seq<SearchResult>, r: seq<SearchResult>, k: int)
    requires candidates == Filter(scored, AboveThreshold)
    requires multiset(r) <= multiset(candidates)
    requires k >= 0 ==> |r| == (if k < |candidates| then k else |candidates|)
    ensures k >= |scored| ==> forall x :: x in scored && x.score > Threshold ==> x in r
  {
    if k >= |scored| {
      assert |r| == |candidates|;
      SubMultisetOfSameSize(r, candidates);
    }
  }

  lemma SubMultisetOfSameSize<T>(a: seq<T>, b: seq<T>)
    requires multiset(a) <= multiset(b) && |a| == |b|
    ensures forall x :: x in b ==> x in a
  {
    var d := multiset(b) - multiset(a);
    assert multiset(b) == multiset(a) + d;
    assert |multiset(b)| == |multiset(a)| + |d|;
    assert multiset(a) == multiset(b);
    forall x | x in b ensures x in a {
      assert x in multiset(b);
    }
  }

  /** Above the threshold, filtering leaves the tie groups as they were. */
  lemma {:induction false} WithKeyOfFilter(s: seq<SearchResult>, v: real)
    requires v > Threshold
    ensures WithKey(Filter(s, AboveThreshold), ResultScore, v) == WithKey(s, ResultScore, v)
    decreases |s|
  {
    if |s| > 0 {
      WithKeyOfFilter(s[1..], v);
      var rest := Filter(s[1..], AboveThreshold);
      if AboveThreshold(s[0]) {
        assert Filter(s, AboveThreshold) == [s[0]] + rest;
        WithKeyAppend([s[0]], rest, ResultScore, v);
      } else {
        assert Filter(s, AboveThreshold) == rest;
      }
    }
  }
}
