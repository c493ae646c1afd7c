/** The four relevance signals of the keyword search service and their
    weighted total (weights 0.4 / 0.3 / 0.2 / 0.1). Every signal lies in
    [0, 1]; the contracts say when each one is zero, when it is full, and
    what it responds to. */
module LexicalScoring {
  import opened Text
  import opened Tokenizer
  import opened Manual
  import opened Ratios

  // ---------------------------------------------------------------------------
  // Title signal

  /** One token lies inside the other (`q in t or t in q`). */
  predicate Overlaps(q: string, t: string) {
    Contains(t, q) || Contains(q, t)
  }

  /** The query tokens that overlap some title token; each earns 0.5. */
  function PartialMatches(queryWords: set<string>, titleWords: set<string>): set<string> {
    set q | q in queryWords && exists t :: t in titleWords && Overlaps(q, t)
  }

  /** `_calculate_title_score`: exact shared tokens count 1, and every query
      token overlapping a title token counts 0.5 more, so an exact match earns
      1.5; the sum is divided by the number of distinct query tokens. */
  function TitleScore(query: string, title: string): (r: real)
    ensures InUnit(r)
    ensures title == "" ==> r == 0.0
    ensures Tokenize(query) == [] ==> r == 0.0
    ensures title != "" && Tokenize(query) != [] && ToSet(Tokenize(query)) <= ToSet(Tokenize(title)) ==> r == 1.0
    ensures title != "" ==>
              (r > 0.0 <==> exists q, t :: q in Tokenize(query) && t in Tokenize(title) && Overlaps(q, t))
  {
    if title == "" then 0.0
    else
      var qs := ToSet(Tokenize(query));
      var ts := ToSet(Tokenize(title));
      var exact := |qs * ts|;
      var partial := |PartialMatches(qs, ts)|;
      TitleScoreFacts(query, title, qs, ts);
      CappedRatio(exact as real + 0.5 * partial as real, AtLeastOne(|qs|) as real)
  }

  lemma TitleScoreFacts(query: string, title: string, qs: set<string>, ts: set<string>)
    requires qs == ToSet(Tokenize(query)) && ts == ToSet(Tokenize(title))
    ensures Tokenize(query) == [] ==> |qs| == 0
    ensures Tokenize(query) != [] && qs <= ts ==> |qs * ts| == |qs| >= 1
    ensures |PartialMatches(qs, ts)| > 0 <==> exists q, t :: q in Tokenize(query) && t in Tokenize(title) && Overlaps(q, t)
    ensures |qs * ts| > 0 ==> |PartialMatches(qs, ts)| > 0
  {
    if Tokenize(query) != [] {
      assert Tokenize(query)[0] in qs;
      if qs <= ts {
        assert qs * ts == qs;
      }
    }
    if |qs * ts| > 0 {
      var q :| q in qs * ts;
      ContainsSelf(q);
      assert q in PartialMatches(qs, ts);
    }
    if exists q, t :: q in Tokenize(query) && t in Tokenize(title) && Overlaps(q, t) {
      var q, t :| q in Tokenize(query) && t in Tokenize(title) && Overlaps(q, t);
      assert q in PartialMatches(qs, ts);
    }
    if |PartialMatches(qs, ts)| > 0 {
      var q :| q in PartialMatches(qs, ts);
    }
  }

  // ---------------------------------------------------------------------------
  // Keyword signal

  /** Credit for one section keyword: 1 if it occurs in the lower-cased
      query, else 0.5 if some query token occurs in it, else 0. */
  function KeywordCredit(query: string, keyword: string): (c: real)
    ensures c == 0.0 || c == 0.5 || c == 1.0
    ensures c == 1.0 <==> Contains(Lower(query), Lower(keyword))
    ensures c == 0.0 <==> !Contains(Lower(query), Lower(keyword))
                          && forall w :: w in Tokenize(query) ==> !Contains(Lower(keyword), w)
  {
    if Contains(Lower(query), Lower(keyword)) then 1.0
    else if exists w :: w in Tokenize(query) && Contains(Lower(keyword), w) then 0.5
    else 0.0
  }

  /** The summed credit of a keyword list. */
  function CreditSum(query: string, keywords: seq<string>): (r: real)
    ensures 0.0 <= r <= |keywords| as real
    ensures r == |keywords| as real <==> forall i :: 0 <= i < |keywords| ==> KeywordCredit(query, keywords[i]) == 1.0
    ensures r == 0.0 <==> forall i :: 0 <= i < |keywords| ==> KeywordCredit(query, keywords[i]) == 0.0
    decreases |keywords|
  {
    if |keywords| == 0 then 0.0
    else
      var rest := CreditSum(query, keywords[1..]);
      assert forall i :: 1 <= i < |keywords| ==> keywords[i] == keywords[1..][i - 1];
      KeywordCredit(query, keywords[0]) + rest
  }

  /** `_calculate_keyword_score`: the mean credit of the section's keywords. */
  function KeywordScore(query: string, keywords: seq<string>): (r: real)
    ensures InUnit(r)
    ensures keywords == [] ==> r == 0.0
    ensures keywords != [] ==>
              (r == 1.0 <==> forall i :: 0 <= i < |keywords| ==> Contains(Lower(query), Lower(keywords[i])))
    ensures keywords != [] ==>
              (r == 0.0 <==> forall i :: 0 <= i < |keywords| ==> KeywordCredit(query, keywords[i]) == 0.0)
  {
    if keywords == [] then 0.0
    else
      var sum := CreditSum(query, keywords);
      CappedRatio(sum, AtLeastOne(|keywords|) as real)
  }

  // ---------------------------------------------------------------------------
  // Content signal

  /** `hay.count(needle)`: non-overlapping occurrences, scanning left to
      right; an escaped-literal `re.findall` counts the same way. */
  function Occurrences(hay: string, needle: string): (n: nat)
    ensures |needle| == 0 ==> n == |hay| + 1
    ensures |needle| > 0 ==> (n > 0 <==> Contains(hay, needle))
    ensures |needle| > 0 ==> n * |needle| <= |hay|
    decreases |hay|
  {
    if |needle| == 0 then |hay| + 1
    else if |hay| < |needle| then
      ContainsLength(hay, needle);
      0
    else if IsPrefix(needle, hay) then 1 + Occurrences(hay[|needle|..], needle)
    else Occurrences(hay[1..], needle)
  }

  /** A token of three or more characters counts once more at half weight. */
  function WordWeight(w: string): real {
    if |w| >= 3 then 1.5 else 1.0
  }

  /** The weighted occurrence count of a token list in the lower-cased content;
      a token listed twice is counted twice. */
  function MatchTotal(contentLower: string, words: seq<string>): (r: real)
    ensures r >= 0.0
    ensures (forall i :: 0 <= i < |words| ==> |words[i]| > 0) ==>
              (r > 0.0 <==> exists i :: 0 <= i < |words| && Contains(contentLower, words[i]))
    decreases |words|
  {
    if |words| == 0 then 0.0
    else
      var rest := MatchTotal(contentLower, words[1..]);
      assert forall i :: 1 <= i < |words| ==> words[i] == words[1..][i - 1];
      WeightedCount(contentLower, words[0]) + rest
  }

  /** One token's contribution: its weight per occurrence. */
  function WeightedCount(contentLower: string, word: string): (r: real)
    ensures r >= 0.0
    ensures |word| > 0 ==> (r > 0.0 <==> Contains(contentLower, word))
  {
    Occurrences(contentLower, word) as real * WordWeight(word)
  }

  lemma {:induction false} MatchTotalAppend(contentLower: string, a: seq<string>, b: seq<string>)
    ensures MatchTotal(contentLower, a + b) == MatchTotal(contentLower, a) + MatchTotal(contentLower, b)
    decreases |a|
  {
    if |a| == 0 {
      assert a + b == b;
    } else {
      assert (a + b)[1..] == a[1..] + b;
      calc {
        MatchTotal(contentLower, a + b);
        WeightedCount(contentLower, a[0]) + MatchTotal(contentLower, a[1..] + b);
        { MatchTotalAppend(contentLower, a[1..], b); }
        WeightedCount(contentLower, a[0]) + MatchTotal(contentLower, a[1..]) + MatchTotal(contentLower, b);
        MatchTotal(contentLower, a) + MatchTotal(contentLower, b);
      }
    }
  }

  /** Tokens are iterated as a list, so a query that repeats its words
      doubles the raw match total. */
  lemma RepeatedQueryCountsTwice(contentLower: string, words: seq<string>)
    ensures MatchTotal(contentLower, words + words) == 2.0 * MatchTotal(contentLower, words)
  {
    MatchTotalAppend(contentLower, words, words);
  }

  /** `_calculate_content_score`: match total per hundred characters of content. */
  function ContentScore(query: string, content: string): (r: real)
    ensures InUnit(r)
    ensures content == "" ==> r == 0.0
    ensures Tokenize(query) == [] ==> r == 0.0
    ensures content != "" ==>
              (r > 0.0 <==> exists i :: 0 <= i < |Tokenize(query)| && Contains(Lower(content), Tokenize(query)[i]))
  {
    if content == "" then 0.0
    else
      var words := Tokenize(query);
      assert forall i :: 0 <= i < |words| ==> IsToken(words[i]);
      var total := MatchTotal(Lower(content), words);
      CappedRatio(total, |content| as real / 100.0)
  }

  // ---------------------------------------------------------------------------
  // Bonus signal

  const ProcedureQueryTerms: seq<string> := ["방법", "절차", "어떻게", "how"]
  const ProcedureContentTerms: seq<string> := ["방법", "절차", "단계", "하십시오", "순서"]
  const TroubleQueryTerms: seq<string> := ["문제", "오류", "고장", "안됨", "작동"]
  const MaintenanceContentTerms: seq<string> := ["점검", "확인", "교체", "정비", "수리"]
  const SafetyTitleTerms: seq<string> := ["안전", "주의", "경고", "중요"]

  /** A how-to question meeting procedural content (+0.3). */
  predicate ProcedureBonus(query: string, section: Section) {
    ContainsAny(Lower(query), ProcedureQueryTerms) && ContainsAny(Lower(section.content), ProcedureContentTerms)
  }

  /** A trouble report meeting maintenance content (+0.2). */
  predicate TroubleBonus(query: string, section: Section) {
    ContainsAny(Lower(query), TroubleQueryTerms) && ContainsAny(Lower(section.content), MaintenanceContentTerms)
  }

  /** A safety term in the section title (+0.1), whatever the query. */
  predicate SafetyBonus(section: Section) {
    ContainsAny(Lower(section.title), SafetyTitleTerms)
  }

  /** `_calculate_bonus_score`: additive, with no baseline. */
  function BonusScore(query: string, section: Section): (r: real)
    ensures r in {0.0, 0.1, 0.2, 0.3, 0.4, 0.5, 0.6}
    ensures r == 0.0 <==> !ProcedureBonus(query, section) && !TroubleBonus(query, section) && !SafetyBonus(section)
    ensures ProcedureBonus(query, section) ==> r >= 0.3
    ensures TroubleBonus(query, section) ==> r >= 0.2
    ensures SafetyBonus(section) ==> r >= 0.1
    ensures r > 0.3 ==> ProcedureBonus(query, section)
    ensures r == (if ProcedureBonus(query, section) then 0.3 else 0.0)
               + (if TroubleBonus(query, section) then 0.2 else 0.0)
               + (if SafetyBonus(section) then 0.1 else 0.0)
  {
    var b := (if ProcedureBonus(query, section) then 0.3 else 0.0)
           + (if TroubleBonus(query, section) then 0.2 else 0.0)
           + (if SafetyBonus(section) then 0.1 else 0.0);
    AtMostOne(b)
  }

  // ---------------------------------------------------------------------------
  // Aggregation

  predicate SignalsInUnit(s: ScoreBreakdown) {
    InUnit(s.title) && InUnit(s.keyword) && InUnit(s.content) && InUnit(s.bonus)
  }

  /** All four signals of one section for one query. */
  function Signals(query: string, section: Section): (s: ScoreBreakdown)
    ensures SignalsInUnit(s)
  {
    ScoreBreakdown(
      TitleScore(query, section.title),
      KeywordScore(query, section.keywords),
      ContentScore(query, section.content),
      BonusScore(query, section))
  }

  /** `_calculate_total_score`. */
  function Total(s: ScoreBreakdown): (r: real)
    ensures SignalsInUnit(s) ==> InUnit(r)
  {
    0.4 * s.title + 0.3 * s.keyword + 0.2 * s.content + 0.1 * s.bonus
  }
}
