/** The two sentence-level stages of the answer generator: the dedupe stage
    of `_clean_content`, and `_extract_relevant_sentences`, which picks at
    most five mid-length sentences mentioning the most keywords. Both cut
    text into sentences at every '.'. */
module AnswerSentences {
  import opened Text
  import opened Seqs
  import opened Ranking

  // ---------------------------------------------------------------------------
  // Sentence pieces

  predicate NonEmpty(s: string) {
    s != ""
  }

  /** `[s.strip() for s in content.split('.') if s.strip()]`: the stripped
      pieces in order, dropping exactly the empty ones. */
  function SentencePieces(content: string): (r: seq<string>)
    ensures forall i :: 0 <= i < |r| ==> r[i] != "" && IsStripped(r[i])
    ensures forall p :: p in Split(content, '.') && Strip(p) != "" ==> Strip(p) in r
    ensures forall i :: 0 <= i < |r| ==> r[i] in Map(Split(content, '.'), Strip)
    ensures IsSubsequence(r, Map(Split(content, '.'), Strip))
    ensures forall x :: x in multiset(Map(Split(content, '.'), Strip)) - multiset(r) ==> x == ""
  {
    StrippedPieces(Split(content, '.'));
    FilterIsSubsequence(Map(Split(content, '.'), Strip), NonEmpty);
    FilterDropsOnly(Map(Split(content, '.'), Strip), NonEmpty);
    PiecesOf(content)
  }

  function PiecesOf(content: string): seq<string> {
    Filter(Map(Split(content, '.'), Strip), NonEmpty)
  }

  lemma StrippedPieces(pieces: seq<string>)
    ensures forall i :: 0 <= i < |pieces| ==> IsStripped(Map(pieces, Strip)[i])
    ensures forall p :: p in pieces ==> Strip(p) in Map(pieces, Strip)
  {
    var stripped := Map(pieces, Strip);
    forall i | 0 <= i < |stripped| ensures IsStripped(stripped[i]) {
      StripStripped(pieces[i]);
    }
    forall p | p in pieces ensures Strip(p) in stripped {
      var j :| 0 <= j < |pieces| && pieces[j] == p;
      assert stripped[j] == Strip(p);
    }
  }

  // ---------------------------------------------------------------------------
  // Relevant sentences

  /** The keyword test of the picker: `kw in sentence`. */
  function KeywordIn(sentence: string): string -> bool {
    k => Contains(sentence, k)
  }

  /** `sum(1 for kw in keywords if kw in sentence)`. */
  function Hits(sentence: string, keywords: seq<string>): (n: nat)
    ensures n <= |keywords|
    ensures n > 0 <==> exists i :: 0 <= i < |keywords| && Contains(sentence, keywords[i])
  {
    CountWhere(keywords, KeywordIn(sentence))
  }

  /** For a keyword list without repetitions the count is the number of
      distinct keywords found, so it does not depend on the list's order. */
  lemma HitsOfDistinct(sentence: string, keywords: seq<string>)
    requires Distinct(keywords)
    ensures Hits(sentence, keywords) == |Where(keywords, KeywordIn(sentence))|
  {
    CountDistinct(keywords, KeywordIn(sentence));
  }

  /** A sentence with its keyword count. */
  datatype Scored = Scored(text: string, hits: nat)

  function HitKey(s: Scored): real {
    s.hits as real
  }

  function TextOf(s: Scored): string {
    s.text
  }

  /** Kept by the picker: 10 to 100 characters, and at least one keyword. */
  predicate Relevant(s: Scored) {
    10 <= |s.text| <= 100 && s.hits > 0
  }

  function ScoreSentences(pieces: seq<string>, keywords: seq<string>): (r: seq<Scored>)
    ensures |r| == |pieces|
    ensures forall i :: 0 <= i < |r| ==> r[i] == Scored(pieces[i], Hits(pieces[i], keywords))
  {
    Map(pieces, (p: string) => Scored(p, Hits(p, keywords)))
  }

  /** The relevant sentences, scored, in content order. */
  function Candidates(content: string, keywords: seq<string>): (r: seq<Scored>)
    ensures forall i :: 0 <= i < |r| ==>
              Relevant(r[i]) && r[i].hits == Hits(r[i].text, keywords) && r[i].text in SentencePieces(content)
    ensures forall p :: p in SentencePieces(content) && Relevant(Scored(p, Hits(p, keywords))) ==> Scored(p, Hits(p, keywords)) in r
  {
    ScoredPieces(SentencePieces(content), keywords);
    Filter(ScoreSentences(SentencePieces(content), keywords), Relevant)
  }

  lemma ScoredPieces(pieces: seq<string>, keywords: seq<string>)
    ensures forall x :: x in ScoreSentences(pieces, keywords) ==> x.hits == Hits(x.text, keywords) && x.text in pieces
    ensures forall p :: p in pieces ==> Scored(p, Hits(p, keywords)) in ScoreSentences(pieces, keywords)
  {
    var scored := ScoreSentences(pieces, keywords);
    forall x | x in scored ensures x.hits == Hits(x.text, keywords) && x.text in pieces {
      var j :| 0 <= j < |scored| && scored[j] == x;
    }
    forall p | p in pieces ensures Scored(p, Hits(p, keywords)) in scored {
      var j :| 0 <= j < |pieces| && pieces[j] == p;
      assert scored[j] == Scored(p, Hits(p, keywords));
    }
  }

  lemma NoKeywordsNoCandidates(content: string, keywords: seq<string>)
    ensures keywords == [] ==> Candidates(content, keywords) == []
  {
    if keywords == [] {
      var scored := ScoreSentences(SentencePieces(content), keywords);
      FilterNone(scored, Relevant);
    }
  }

  const MaxSentences: nat := 5

  /** Best first by keyword count, ties in their original order, at most
      five. */
  function Pick(candidates: seq<Scored>): (r: seq<Scored>)
    ensures |r| == (if |candidates| < MaxSentences then |candidates| else MaxSentences)
    ensures forall i :: 0 <= i < |r| ==> r[i] in candidates
    ensures forall i, j :: 0 <= i < j < |r| ==> r[i].hits >= r[j].hits
  {
    var r := TopK(candidates, HitKey, MaxSentences);
    PickMembers(candidates, r);
    PickOrder(r);
    r
  }

  /** Sentences with equal counts keep their order, and every sentence left
      out has no more keywords than any sentence picked. */
  lemma PickFair(candidates: seq<Scored>)
    ensures forall v :: WithKey(Pick(candidates), HitKey, v) <= WithKey(candidates, HitKey, v)
    ensures forall y, i :: y in multiset(candidates) - multiset(Pick(candidates)) && 0 <= i < |Pick(candidates)| ==>
              Pick(candidates)[i].hits >= y.hits
  {
    var r := Pick(candidates);
    assert r == TopK(candidates, HitKey, MaxSentences);
    forall y, i | y in multiset(candidates) - multiset(r) && 0 <= i < |r| ensures r[i].hits >= y.hits {
      assert HitKey(r[i]) >= HitKey(y);
    }
  }

  lemma PickMembers(candidates: seq<Scored>, r: seq<Scored>)
    requires multiset(r) <= multiset(candidates)
    ensures forall i :: 0 <= i < |r| ==> r[i] in candidates
  {
    forall i | 0 <= i < |r| ensures r[i] in candidates {
      assert r[i] in multiset(r);
    }
  }

  lemma PickOrder(r: seq<Scored>)
    requires SortedDesc(r, HitKey)
    ensures forall i, j :: 0 <= i < j < |r| ==> r[i].hits >= r[j].hits
  {
    forall i, j | 0 <= i < j < |r| ensures r[i].hits >= r[j].hits {
      assert HitKey(r[i]) >= HitKey(r[j]);
    }
  }

  /** `_extract_relevant_sentences`: as many qualifying sentences as fit
      in five, most keywords first, equal counts in content order, and no
      qualifying sentence left out has more keywords than one picked. */
  function RelevantSentences(content: string, keywords: seq<string>): (r: seq<string>)
    ensures keywords == [] ==> r == []
    ensures |r| <= MaxSentences
    ensures forall s :: s in r ==> 10 <= |s| <= 100 && Hits(s, keywords) > 0 && s in SentencePieces(content)
    ensures forall i, j :: 0 <= i < j < |r| ==> Hits(r[i], keywords) >= Hits(r[j], keywords)
    ensures |r| == (if |Qualifying(content, keywords)| < MaxSentences then |Qualifying(content, keywords)| else MaxSentences)
    ensures TiesInOrder(r, Qualifying(content, keywords), keywords)
    ensures NoneLeftBetter(r, Qualifying(content, keywords), keywords)
  {
    RelevantFacts(content, keywords);
    RelevantFair(content, keywords);
    Map(Pick(Candidates(content, keywords)), TextOf)
  }

  /** The picker's test on a piece: 10 to 100 characters, and a keyword. */
  function Qualifies(keywords: seq<string>): string -> bool {
    p => 10 <= |p| <= 100 && Hits(p, keywords) > 0
  }

  /** The pieces that qualify, in content order. */
  function Qualifying(content: string, keywords: seq<string>): seq<string> {
    Filter(SentencePieces(content), Qualifies(keywords))
  }

  function HitsKey(keywords: seq<string>): string -> real {
    s => Hits(s, keywords) as real
  }

  /** Sentences with equal counts come in the order they have in `pool`. */
  ghost predicate TiesInOrder(r: seq<string>, pool: seq<string>, keywords: seq<string>) {
    forall v :: WithKey(r, HitsKey(keywords), v) <= WithKey(pool, HitsKey(keywords), v)
  }

  /** Every sentence of `pool` not in `r` has at most the count of each in `r`. */
  ghost predicate NoneLeftBetter(r: seq<string>, pool: seq<string>, keywords: seq<string>) {
    forall p, i :: p in pool && p !in r && 0 <= i < |r| ==> Hits(r[i], keywords) >= Hits(p, keywords)
  }

  /** The candidates are the qualifying pieces, scored. */
  lemma {:induction false} QualifyingScored(pieces: seq<string>, keywords: seq<string>)
    ensures Map(Filter(ScoreSentences(pieces, keywords), Relevant), TextOf) == Filter(pieces, Qualifies(keywords))
    decreases |pieces|
  {
    if |pieces| > 0 {
      var scored := ScoreSentences(pieces, keywords);
      assert scored[1..] == ScoreSentences(pieces[1..], keywords);
      QualifyingScored(pieces[1..], keywords);
      FilterHead(scored, Relevant);
      FilterHead(pieces, Qualifies(keywords));
      assert Relevant(scored[0]) == Qualifies(keywords)(pieces[0]);
      var rest := Filter(scored[1..], Relevant);
      if Relevant(scored[0]) {
        MapCons(scored[0], rest, TextOf);
      }
    }
  }

  /** Taking the texts of scored sentences commutes with selecting a count. */
  lemma {:induction false} WithKeyTexts(xs: seq<Scored>, keywords: seq<string>, v: real)
    requires forall i :: 0 <= i < |xs| ==> xs[i].hits == Hits(xs[i].text, keywords)
    ensures WithKey(Map(xs, TextOf), HitsKey(keywords), v) == Map(WithKey(xs, HitKey, v), TextOf)
    decreases |xs|
  {
    if |xs| > 0 {
      WithKeyTexts(xs[1..], keywords, v);
      assert xs == [xs[0]] + xs[1..];
      MapCons(xs[0], xs[1..], TextOf);
      WithKeyCons(TextOf(xs[0]), Map(xs[1..], TextOf), HitsKey(keywords), v);
      WithKeyCons(xs[0], xs[1..], HitKey, v);
      var w := WithKey(xs[1..], HitKey, v);
      if HitKey(xs[0]) == v {
        MapCons(xs[0], w, TextOf);
      }
    }
  }

  lemma RelevantFair(content: string, keywords: seq<string>)
    ensures var r := Map(Pick(Candidates(content, keywords)), TextOf);
            && |r| == (if |Qualifying(content, keywords)| < MaxSentences then |Qualifying(content, keywords)| else MaxSentences)
            && TiesInOrder(r, Qualifying(content, keywords), keywords)
            && NoneLeftBetter(r, Qualifying(content, keywords), keywords)
  {
    var candidates := Candidates(content, keywords);
    QualifyingScored(SentencePieces(content), keywords);
    assert Map(candidates, TextOf) == Qualifying(content, keywords);
    PickFair(candidates);
    PickedTies(candidates, Pick(candidates), keywords);
    PickedLeftOut(candidates, Pick(candidates), keywords);
  }

  lemma PickedTies(candidates: seq<Scored>, picked: seq<Scored>, keywords: seq<string>)
    requires forall j :: 0 <= j < |candidates| ==> candidates[j].hits == Hits(candidates[j].text, keywords)
    requires forall j :: 0 <= j < |picked| ==> picked[j].hits == Hits(picked[j].text, keywords)
    requires forall v :: WithKey(picked, HitKey, v) <= WithKey(candidates, HitKey, v)
    ensures TiesInOrder(Map(picked, TextOf), Map(candidates, TextOf), keywords)
  {
    forall v
      ensures WithKey(Map(picked, TextOf), HitsKey(keywords), v) <= WithKey(Map(candidates, TextOf), HitsKey(keywords), v)
    {
      WithKeyTexts(picked, keywords, v);
      WithKeyTexts(candidates, keywords, v);
      MapPrefix(WithKey(picked, HitKey, v), WithKey(candidates, HitKey, v), TextOf);
    }
  }

  lemma PickedLeftOut(candidates: seq<Scored>, picked: seq<Scored>, keywords: seq<string>)
    requires forall j :: 0 <= j < |candidates| ==> candidates[j].hits == Hits(candidates[j].text, keywords)
    requires forall j :: 0 <= j < |picked| ==> picked[j].hits == Hits(picked[j].text, keywords)
    requires forall y, k :: y in multiset(candidates) - multiset(picked) && 0 <= k < |picked| ==> picked[k].hits >= y.hits
    ensures NoneLeftBetter(Map(picked, TextOf), Map(candidates, TextOf), keywords)
  {
    forall p, i | p in Map(candidates, TextOf) && p !in Map(picked, TextOf) && 0 <= i < |picked|
      ensures Hits(Map(picked, TextOf)[i], keywords) >= Hits(p, keywords)
    {
      LeftOutNoBetter(candidates, picked, keywords, p, i);
    }
  }

  /** A candidate whose text is not among the picked texts was not picked,
      so it has at most the count of each picked one. */
  lemma LeftOutNoBetter(candidates: seq<Scored>, picked: seq<Scored>, keywords: seq<string>, p: string, i: nat)
    requires forall j :: 0 <= j < |candidates| ==> candidates[j].hits == Hits(candidates[j].text, keywords)
    requires forall y, k :: y in multiset(candidates) - multiset(picked) && 0 <= k < |picked| ==> picked[k].hits >= y.hits
    requires p in Map(candidates, TextOf) && p !in Map(picked, TextOf) && i < |picked|
    ensures picked[i].hits >= Hits(p, keywords)
  {
    var j :| 0 <= j < |candidates| && Map(candidates, TextOf)[j] == p;
    var y := candidates[j];
    assert y !in picked;
    assert y in multiset(candidates) - multiset(picked);
  }

  lemma RelevantFacts(content: string, keywords: seq<string>)
    ensures keywords == [] ==> Map(Pick(Candidates(content, keywords)), TextOf) == []
    ensures RelevantList(Map(Pick(Candidates(content, keywords)), TextOf), content, keywords)
  {
    NoKeywordsNoCandidates(content, keywords);
    var candidates := Candidates(content, keywords);
    var picked := Pick(candidates);
    PickedFacts(content, keywords, candidates, picked);
    PickedList(content, keywords, picked);
  }

  /** At most `MaxSentences` sentences, each of the right length, with a
      keyword, and from the content, in descending order of keyword count. */
  predicate RelevantList(r: seq<string>, content: string, keywords: seq<string>) {
    && |r| <= MaxSentences
    && (forall s :: s in r ==> 10 <= |s| <= 100 && Hits(s, keywords) > 0 && s in SentencePieces(content))
    && (forall i, j :: 0 <= i < j < |r| ==> Hits(r[i], keywords) >= Hits(r[j], keywords))
  }

  lemma PickedList(content: string, keywords: seq<string>, picked: seq<Scored>)
    requires |picked| <= MaxSentences
    requires forall i :: 0 <= i < |picked| ==>
               10 <= |picked[i].text| <= 100 && picked[i].hits == Hits(picked[i].text, keywords) > 0 && picked[i].text in SentencePieces(content)
    requires forall i, j :: 0 <= i < j < |picked| ==> picked[i].hits >= picked[j].hits
    ensures RelevantList(Map(picked, TextOf), content, keywords)
  {
    RelevantMembers(content, keywords, picked);
    RelevantOrder(keywords, picked);
  }

  lemma RelevantMembers(content: string, keywords: seq<string>, picked: seq<Scored>)
    requires forall i :: 0 <= i < |picked| ==>
               10 <= |picked[i].text| <= 100 && Hits(picked[i].text, keywords) > 0 && picked[i].text in SentencePieces(content)
    ensures forall s :: s in Map(picked, TextOf) ==> 10 <= |s| <= 100 && Hits(s, keywords) > 0 && s in SentencePieces(content)
  {
    var r := Map(picked, TextOf);
    forall s | s in r ensures 10 <= |s| <= 100 && Hits(s, keywords) > 0 && s in SentencePieces(content) {
      var i :| 0 <= i < |r| && r[i] == s;
    }
  }

  lemma RelevantOrder(keywords: seq<string>, picked: seq<Scored>)
    requires forall i :: 0 <= i < |picked| ==> picked[i].hits == Hits(picked[i].text, keywords)
    requires forall i, j :: 0 <= i < j < |picked| ==> picked[i].hits >= picked[j].hits
    ensures forall i, j :: 0 <= i < j < |Map(picked, TextOf)| ==> Hits(Map(picked, TextOf)[i], keywords) >= Hits(Map(picked, TextOf)[j], keywords)
  {
  }

  lemma PickedFacts(content: string, keywords: seq<string>, candidates: seq<Scored>, picked: seq<Scored>)
    requires candidates == Candidates(content, keywords)
    requires forall i :: 0 <= i < |picked| ==> picked[i] in candidates
    ensures forall i :: 0 <= i < |picked| ==>
              10 <= |picked[i].text| <= 100 && picked[i].hits == Hits(picked[i].text, keywords) > 0 && picked[i].text in SentencePieces(content)
  {
    forall i | 0 <= i < |picked|
      ensures 10 <= |picked[i].text| <= 100 && picked[i].hits == Hits(picked[i].text, keywords) > 0 && picked[i].text in SentencePieces(content)
    {
      var j :| 0 <= j < |candidates| && candidates[j] == picked[i];
      assert Relevant(candidates[j]);
    }
  }

  /** Any two listings of the same keywords without repetitions pick the
      same sentences: the order of Python's set iteration does not matter. */
  lemma RelevantSentencesOrderFree(content: string, a: seq<string>, b: seq<string>)
    requires Distinct(a) && Distinct(b)
    requires forall k :: k in a <==> k in b
    ensures RelevantSentences(content, a) == RelevantSentences(content, b)
  {
    CandidatesOrderFree(content, a, b);
    assert RelevantSentences(content, a) == Map(Pick(Candidates(content, a)), TextOf);
  }

  lemma CandidatesOrderFree(content: string, a: seq<string>, b: seq<string>)
    requires Distinct(a) && Distinct(b)
    requires forall k :: k in a <==> k in b
    ensures Candidates(content, a) == Candidates(content, b)
  {
    var pieces := SentencePieces(content);
    forall i | 0 <= i < |pieces| ensures Hits(pieces[i], a) == Hits(pieces[i], b) {
      HitsOfDistinct(pieces[i], a);
      HitsOfDistinct(pieces[i], b);
      assert Where(a, KeywordIn(pieces[i])) == Where(b, KeywordIn(pieces[i]));
    }
    assert ScoreSentences(pieces, a) == ScoreSentences(pieces, b);
  }

  // ---------------------------------------------------------------------------
  // Dedupe stage of `_clean_content`

  /** `re.sub(r'\s+', ' ', s.lower())`. */
  function Normalize(s: string): string {
    CollapseSpaces(Lower(s))
  }

  /** The loop of `_clean_content` over already stripped sentences, from
      some point on: a sentence is kept when its normal form `key` is longer
      than ten characters and not yet `seen`. */
  function Dedupe(xs: seq<string>, seen: set<string>, key: string -> string): (r: seq<string>)
    ensures forall i :: 0 <= i < |r| ==> |key(r[i])| > 10 && key(r[i]) !in seen && r[i] in xs
    ensures forall i :: 0 <= i < |r| ==> FirstWithKey(xs, key, r[i])
    decreases |xs|
  {
    if |xs| == 0 then []
    else
      var n := key(xs[0]);
      if |n| > 10 && n !in seen then
        var rest := Dedupe(xs[1..], seen + {n}, key);
        DedupeKeepsHead(xs, seen, key, rest);
        [xs[0]] + rest
      else
        var rest := Dedupe(xs[1..], seen, key);
        DedupeDropsHead(xs, seen, key, rest);
        rest
  }

  predicate Always(x: string) {
    true
  }

  /** The step of `Dedupe` that keeps the first sentence. */
  lemma DedupeKeepsHead(xs: seq<string>, seen: set<string>, key: string -> string, rest: seq<string>)
    requires |xs| > 0 && |key(xs[0])| > 10 && key(xs[0]) !in seen
    requires forall i :: 0 <= i < |rest| ==> |key(rest[i])| > 10 && key(rest[i]) !in seen + {key(xs[0])} && rest[i] in xs[1..]
    requires forall i :: 0 <= i < |rest| ==> FirstWithKey(xs[1..], key, rest[i])
    ensures forall i :: 0 <= i < |[xs[0]] + rest| ==>
              |key(([xs[0]] + rest)[i])| > 10 && key(([xs[0]] + rest)[i]) !in seen && ([xs[0]] + rest)[i] in xs
    ensures forall i :: 0 <= i < |[xs[0]] + rest| ==> FirstWithKey(xs, key, ([xs[0]] + rest)[i])
  {
    FirstWithKeyCons(xs[0], xs[1..], key, rest, Always);
    FirstWithKeyHead(xs, key);
    assert xs == [xs[0]] + xs[1..];
    var r := [xs[0]] + rest;
    forall i | 0 <= i < |r| ensures |key(r[i])| > 10 && key(r[i]) !in seen && r[i] in xs && FirstWithKey(xs, key, r[i]) {
      if i > 0 {
        assert r[i] == rest[i - 1];
      }
    }
  }

  /** The step of `Dedupe` that drops the first sentence. */
  lemma DedupeDropsHead(xs: seq<string>, seen: set<string>, key: string -> string, rest: seq<string>)
    requires |xs| > 0 && !(|key(xs[0])| > 10 && key(xs[0]) !in seen)
    requires forall i :: 0 <= i < |rest| ==> |key(rest[i])| > 10 && key(rest[i]) !in seen && rest[i] in xs[1..]
    requires forall i :: 0 <= i < |rest| ==> FirstWithKey(xs[1..], key, rest[i])
    ensures forall i :: 0 <= i < |rest| ==> rest[i] in xs
    ensures forall i :: 0 <= i < |rest| ==> FirstWithKey(xs, key, rest[i])
  {
    FirstWithKeyCons(xs[0], xs[1..], key, rest, Always);
    assert xs == [xs[0]] + xs[1..];
  }

  /** No two kept sentences share a normal form. */
  lemma {:induction false} DedupeDistinct(xs: seq<string>, seen: set<string>, key: string -> string)
    ensures forall i, j :: 0 <= i < j < |Dedupe(xs, seen, key)| ==>
              key(Dedupe(xs, seen, key)[i]) != key(Dedupe(xs, seen, key)[j])
    decreases |xs|
  {
    if |xs| > 0 {
      var n := key(xs[0]);
      if |n| > 10 && n !in seen {
        var rest := Dedupe(xs[1..], seen + {n}, key);
        DedupeDistinct(xs[1..], seen + {n}, key);
        assert Dedupe(xs, seen, key) == [xs[0]] + rest;
        KeysDistinctCons(xs[0], rest, key);
      } else {
        DedupeDistinct(xs[1..], seen, key);
      }
    }
  }

  /** Every long enough sentence is represented: its normal form was seen
      before or some kept sentence has it. */
  lemma {:induction false} DedupeComplete(xs: seq<string>, seen: set<string>, key: string -> string, x: string)
    requires x in xs && |key(x)| > 10
    ensures key(x) in seen || HasKey(Dedupe(xs, seen, key), key, key(x))
    decreases |xs|
  {
    var n := key(xs[0]);
    if |n| > 10 && n !in seen {
      var rest := Dedupe(xs[1..], seen + {n}, key);
      assert Dedupe(xs, seen, key) == [xs[0]] + rest;
      if x == xs[0] || key(x) == n {
        HasKeyHead(xs[0], rest, key);
      } else {
        assert x in xs[1..];
        DedupeComplete(xs[1..], seen + {n}, key, x);
        if key(x) !in seen {
          HasKeyCons(xs[0], rest, key, key(x));
        }
      }
    } else if x != xs[0] {
      assert x in xs[1..];
      DedupeComplete(xs[1..], seen, key, x);
    }
  }

  /** The sentences `_clean_content` keeps, in order: of the stripped pieces
      with a long enough normal form, the first with each form. */
  function KeptSentences(content: string): (r: seq<string>)
    ensures forall i :: 0 <= i < |r| ==> IsStripped(r[i]) && |Normalize(r[i])| > 10 && r[i] in Map(Split(content, '.'), Strip)
    ensures forall i, j :: 0 <= i < j < |r| ==> Normalize(r[i]) != Normalize(r[j])
    ensures forall p :: p in Split(content, '.') && |Normalize(Strip(p))| > 10 ==> HasKey(r, Normalize, Normalize(Strip(p)))
    ensures IsSubsequence(r, Map(Split(content, '.'), Strip))
    ensures forall i :: 0 <= i < |r| ==> FirstWithKey(Map(Split(content, '.'), Strip), Normalize, r[i])
  {
    var stripped := Map(Split(content, '.'), Strip);
    DedupeKeepsOrder(stripped, {}, Normalize);
    StrippedPieces(Split(content, '.'));
    DedupeDistinct(stripped, {}, Normalize);
    KeptCover(stripped);
    Dedupe(stripped, {}, Normalize)
  }

  lemma KeptCover(stripped: seq<string>)
    ensures forall x :: x in stripped && |Normalize(x)| > 10 ==> HasKey(Dedupe(stripped, {}, Normalize), Normalize, Normalize(x))
  {
    forall x | x in stripped && |Normalize(x)| > 10
      ensures HasKey(Dedupe(stripped, {}, Normalize), Normalize, Normalize(x))
    {
      DedupeComplete(stripped, {}, Normalize, x);
    }
  }

  /** `_clean_content` after its regular-expression pre-passes: the kept
      sentences joined by ". ". `generate_answer` hands the result to the
      picker, which cuts it again at '.': the sentences it sees are exactly
      the ones the cleaner kept, in the same order. */
  function CleanContent(content: string): (r: string)
    ensures SentencePieces(r) == KeptSentences(content)
  {
    KeptShape(content);
    CleanedPieces(KeptSentences(content));
    Strip(Join(KeptSentences(content), ". "))
  }

  /** The kept sentences appear in the order of the content. */
  lemma {:induction false} DedupeKeepsOrder(xs: seq<string>, seen: set<string>, key: string -> string)
    ensures IsSubsequence(Dedupe(xs, seen, key), xs)
    decreases |xs|
  {
    if |xs| > 0 {
      var n := key(xs[0]);
      if |n| > 10 && n !in seen {
        DedupeKeepsOrder(xs[1..], seen + {n}, key);
        assert Dedupe(xs, seen, key)[1..] == Dedupe(xs[1..], seen + {n}, key);
      } else {
        DedupeKeepsOrder(xs[1..], seen, key);
      }
    }
  }

  // ---------------------------------------------------------------------------
  // The picker sees exactly what the cleaner kept

  lemma StripAfterSpace(q: string)
    ensures Strip(" " + q) == Strip(q)
  {
    assert (" " + q)[1..] == q;
  }

  /** The pieces of `" " + t` strip to the pieces of `t`. */
  lemma StrippedSplitAfterSpace(t: string)
    ensures Map(Split(" " + t, '.'), Strip) == Map(Split(t, '.'), Strip)
  {
    var a := Split(" " + t, '.');
    var b := Split(t, '.');
    assert " " + t == [' '] + t;
    SplitAfterOther(' ', t, '.');
    StripAfterSpace(b[0]);
    MapHeadOnly(a, b, Strip);
  }

  lemma SplitAfterOther(x: char, t: string, c: char)
    requires x != c
    ensures Split([x] + t, c) == [[x] + Split(t, c)[0]] + Split(t, c)[1..]
  {
    assert ([x] + t)[1..] == t;
  }

  /** Splitting a ". "-join of stripped, non-empty, dot-free sentences and
      keeping the stripped non-empty pieces gives the sentences back. */
  lemma {:induction false} PiecesOfJoin(ps: seq<string>)
    requires forall i :: 0 <= i < |ps| ==> CleanSentence(ps[i])
    ensures PiecesOf(Join(ps, ". ")) == ps
    decreases |ps|
  {
    if |ps| == 0 {
      PiecesOfEmpty();
    } else if |ps| == 1 {
      PiecesOfSingle(ps);
    } else {
      CleanTail(ps);
      PiecesOfJoin(ps[1..]);
      PiecesCons(ps);
    }
  }

  lemma CleanTail(ps: seq<string>)
    requires |ps| > 0 && forall i :: 0 <= i < |ps| ==> CleanSentence(ps[i])
    ensures CleanSentence(ps[0]) && forall i :: 0 <= i < |ps[1..]| ==> CleanSentence(ps[1..][i])
  {
    assert CleanSentence(ps[0]);
    forall i | 0 <= i < |ps[1..]| ensures CleanSentence(ps[1..][i]) {
      assert ps[1..][i] == ps[i + 1];
    }
  }

  lemma PiecesOfSingle(ps: seq<string>)
    requires |ps| == 1 && CleanSentence(ps[0])
    ensures PiecesOf(Join(ps, ". ")) == ps
  {
    PiecesOfOne(ps[0]);
    assert ps == [ps[0]];
  }

  lemma PiecesCons(ps: seq<string>)
    requires |ps| > 1 && CleanSentence(ps[0])
    requires PiecesOf(Join(ps[1..], ". ")) == ps[1..]
    ensures PiecesOf(Join(ps, ". ")) == ps
  {
    PiecesStep(ps);
    assert [ps[0]] + ps[1..] == ps;
  }

  /** A sentence as the cleaner keeps it. */
  predicate CleanSentence(p: string) {
    p != "" && IsStripped(p) && '.' !in p
  }

  lemma PiecesOfEmpty()
    ensures PiecesOf(Join([], ". ")) == []
  {
    assert Split("", '.') == [""];
  }

  lemma PiecesOfOne(p: string)
    requires CleanSentence(p)
    ensures PiecesOf(Join([p], ". ")) == [p]
  {
    SplitNoSeparator(p, '.');
    StripIdentity(p);
    assert Map(Split(p, '.'), Strip) == [p];
  }

  lemma PiecesStep(ps: seq<string>)
    requires |ps| > 1 && CleanSentence(ps[0])
    ensures PiecesOf(Join(ps, ". ")) == [ps[0]] + PiecesOf(Join(ps[1..], ". "))
  {
    var p := ps[0];
    var t := Join(ps[1..], ". ");
    JoinHead(ps);
    StrippedPiecesAfter(p, t);
    KeepNonEmptyHead(p, Map(Split(t, '.'), Strip));
  }

  lemma JoinHead(ps: seq<string>)
    requires |ps| > 1
    ensures Join(ps, ". ") == ps[0] + ['.'] + (" " + Join(ps[1..], ". "))
  {
    assert Join(ps, ". ") == ps[0] + ". " + Join(ps[1..], ". ");
    DotSpace(ps[0], Join(ps[1..], ". "));
  }

  /** The stripped pieces of "p. t" are p followed by those of t. */
  lemma StrippedPiecesAfter(p: string, t: string)
    requires CleanSentence(p)
    ensures Map(Split(p + ['.'] + (" " + t), '.'), Strip) == [p] + Map(Split(t, '.'), Strip)
  {
    var rest := Split(" " + t, '.');
    SplitAtSeparator(p, '.', " " + t);
    StripIdentity(p);
    MapCons(p, rest, Strip);
    StrippedSplitAfterSpace(t);
  }

  lemma KeepNonEmptyHead(p: string, m: seq<string>)
    requires p != ""
    ensures Filter([p] + m, NonEmpty) == [p] + Filter(m, NonEmpty)
  {
    assert ([p] + m)[1..] == m;
    FilterHead([p] + m, NonEmpty);
  }

  lemma DotSpace(a: string, t: string)
    ensures a + ". " + t == a + ['.'] + (" " + t)
  {
  }

  /** A ". "-join of stripped, non-empty sentences has nothing to strip. */
  lemma {:induction false} JoinIsStripped(ps: seq<string>)
    requires forall i :: 0 <= i < |ps| ==> ps[i] != "" && IsStripped(ps[i])
    ensures IsStripped(Join(ps, ". "))
    decreases |ps|
  {
    if |ps| > 1 {
      JoinIsStripped(ps[1..]);
      var t := Join(ps[1..], ". ");
      assert Join(ps, ". ") == ps[0] + ". " + t;
      assert t != "" by {
        JoinNonEmpty(ps[1..]);
      }
    }
  }

  lemma {:induction false} JoinNonEmpty(ps: seq<string>)
    requires |ps| > 0 && ps[0] != ""
    ensures Join(ps, ". ") != ""
  {
    if |ps| > 1 {
      assert Join(ps, ". ") == ps[0] + ". " + Join(ps[1..], ". ");
    }
  }

  /** The kept sentences are non-empty and free of '.'. */
  lemma KeptShape(content: string)
    ensures forall i :: 0 <= i < |KeptSentences(content)| ==> CleanSentence(KeptSentences(content)[i])
  {
    var r := KeptSentences(content);
    forall i | 0 <= i < |r| ensures r[i] != "" {
      assert |Normalize(r[i])| <= |r[i]|;
    }
    NoDotAfterStrip(Split(content, '.'), r);
  }

  lemma NoDotAfterStrip(pieces: seq<string>, r: seq<string>)
    requires forall j :: 0 <= j < |pieces| ==> '.' !in pieces[j]
    requires forall i :: 0 <= i < |r| ==> r[i] in Map(pieces, Strip)
    ensures forall i :: 0 <= i < |r| ==> '.' !in r[i]
  {
    var stripped := Map(pieces, Strip);
    forall i | 0 <= i < |r| ensures '.' !in r[i] {
      var j :| 0 <= j < |stripped| && stripped[j] == r[i];
      StripKeepsOut(pieces[j], '.');
    }
  }

  /** Stripping and re-cutting a ". "-join of clean sentences gives them back. */
  lemma CleanedPieces(kept: seq<string>)
    requires forall i :: 0 <= i < |kept| ==> CleanSentence(kept[i])
    ensures PiecesOf(Strip(Join(kept, ". "))) == kept
  {
    JoinIsStripped(kept);
    StripIdentity(Join(kept, ". "));
    PiecesOfJoin(kept);
  }
}
