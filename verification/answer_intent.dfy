/** What the answer generator reads off a question: an intent label from a
    fixed table, and the set of search keywords. Both look only at the
    Hangul runs of two or more syllables (`[가-힣]{2,}`), except for the
    intent's second, substring-based pass. */
module AnswerIntent {
  import opened Text
  import opened Optional
  import opened Seqs
  import opened Lookup
  import opened Tokenizer

  const DefaultIntent: string := "궁금하신 내용"

  /** One intent: its label, the words that select it, and the icon and
      heading the fallback answer shows for it. The source keeps the last
      two in a second table keyed by the label. */
  datatype Intent = Intent(name: string, words: seq<string>, icon: string, heading: string)

  /** The intents in the order they are tried. */
  const Intents: seq<Intent> := [
    Intent("점검하고 싶으신가요?", ["점검", "확인", "체크"], "🔧", "점검 방법"),
    Intent("교체하려고 하시나요?", ["교체", "교환", "갈기", "바꾸기"], "🔄", "교체 방법"),
    Intent("관리 방법을 알고 싶으신가요?", ["관리", "유지", "보관", "정비"], "🛠\U{FE0F}", "관리 방법"),
    Intent("문제가 있으신가요?", ["문제", "고장", "이상", "작동 안함", "이슈"], "⚠\U{FE0F}", "문제 해결"),
    Intent("사용법을 알고 싶으신가요?", ["방법", "어떻게", "절차", "하는 법", "사용"], "📖", "사용 방법")
  ]

  /** Icon and heading for a label that is not in the table. */
  const DefaultIcon: string := "📝"
  const DefaultHeading: string := "관련 정보"

  function IntentEntry(intent: Intent): (string, seq<string>) {
    (intent.name, intent.words)
  }

  /** The intents as a lookup table from label to selecting words. */
  function IntentTable(): (r: seq<(string, seq<string>)>)
    ensures |r| == |Intents|
    ensures forall i :: 0 <= i < |r| ==> r[i] == (Intents[i].name, Intents[i].words)
  {
    Map(Intents, IntentEntry)
  }

  /** A table word is one of the question's Hangul words. */
  function TokenHit(question: string): string -> bool {
    (w: string) => w in HangulWords(question)
  }

  /** A table word occurs in the lower-cased question. */
  function TextHit(question: string): string -> bool {
    (w: string) => Contains(Lower(question), w)
  }

  /** `_analyze_question_intent`: the first intent with a word among the
      question's Hangul words; failing that, the first with a word inside
      the lower-cased question; failing that, the default. */
  function AnalyzeIntent(question: string): (r: string)
    ensures r == DefaultIntent || exists i :: 0 <= i < |Intents| && r == Intents[i].name
    ensures r == DefaultIntent <==> forall i :: 0 <= i < |Intents| ==> !AnyHit(Intents[i].words, TextHit(question))
    ensures FirstEntry(IntentTable(), TokenHit(question)).Some? ==> r == FirstEntry(IntentTable(), TokenHit(question)).value
    ensures (exists i :: 0 <= i < |Intents| && AnyHit(Intents[i].words, TokenHit(question))) ==> FirstChosen(r, TokenHit(question))
    ensures (forall i :: 0 <= i < |Intents| ==> !AnyHit(Intents[i].words, TokenHit(question))) && r != DefaultIntent ==>
              FirstChosen(r, TextHit(question))
  {
    TokenHitIsTextHit(question);
    LabelsAreNotDefault();
    ChosenFirst(TokenHit(question));
    ChosenFirst(TextHit(question));
    match FirstEntry(IntentTable(), TokenHit(question))
    case Some(name) => name
    case None => FirstEntry(IntentTable(), TextHit(question)).GetOr(DefaultIntent)
  }

  /** `name` is the label of the first intent in table order with a word
      passing `hit`. */
  predicate FirstChosen(name: string, hit: string -> bool) {
    exists i :: 0 <= i < |Intents| && name == Intents[i].name && AnyHit(Intents[i].words, hit)
                && forall j :: 0 <= j < i ==> !AnyHit(Intents[j].words, hit)
  }

  /** The lookup over the intent table picks the first intent that hits,
      and picks one whenever some intent hits. */
  lemma ChosenFirst(hit: string -> bool)
    ensures FirstEntry(IntentTable(), hit).Some? ==> FirstChosen(FirstEntry(IntentTable(), hit).value, hit)
    ensures FirstEntry(IntentTable(), hit).None? <==> forall i :: 0 <= i < |Intents| ==> !AnyHit(Intents[i].words, hit)
  {
    var table := IntentTable();
    if FirstEntry(table, hit).Some? {
      var i :| 0 <= i < |table| && FirstEntry(table, hit).value == table[i].0 && AnyHit(table[i].1, hit)
               && forall j :: 0 <= j < i ==> !AnyHit(table[j].1, hit);
      assert forall j :: 0 <= j < i ==> table[j].1 == Intents[j].words;
    }
  }

  lemma LabelsAreNotDefault()
    ensures forall i :: 0 <= i < |Intents| ==> Intents[i].name != DefaultIntent
  {
    assert forall i :: 0 <= i < |Intents| ==> Intents[i].name[0] != DefaultIntent[0];
  }

  /** A Hangul word of the question also occurs in it once lower-cased, so
      the token pass never finds an intent the substring pass would miss. */
  lemma TokenHitIsTextHit(question: string)
    ensures forall words :: AnyHit(words, TokenHit(question)) ==> AnyHit(words, TextHit(question))
  {
    forall words | AnyHit(words, TokenHit(question)) ensures AnyHit(words, TextHit(question)) {
      var i :| 0 <= i < |words| && TokenHit(question)(words[i]);
      var w := words[i];
      HangulWordsOccur(question);
      var j :| 0 <= j < |HangulWords(question)| && HangulWords(question)[j] == w;
      ContainsLower(question, w);
      assert NoAsciiUpper(w) by {
        assert AllIn(w, IsHangulSyllable);
        forall k | 0 <= k < |w| ensures !IsAsciiUpper(w[k]) {
          assert IsHangulSyllable(w[k]);
        }
      }
      LowerIdentity(w);
      assert TextHit(question)(words[i]);
    }
  }

  /** `intent_info.get(intent, ("📝", "관련 정보"))` in `_fallback_answer`. */
  function HeadingFor(name: string): (r: (string, string))
    ensures forall i :: 0 <= i < |Intents| && Intents[i].name == name && (forall j :: 0 <= j < i ==> Intents[j].name != name) ==>
              r == (Intents[i].icon, Intents[i].heading)
    ensures (forall i :: 0 <= i < |Intents| ==> Intents[i].name != name) ==> r == (DefaultIcon, DefaultHeading)
  {
    HeadingIn(Intents, name)
  }

  function HeadingIn(intents: seq<Intent>, name: string): (r: (string, string))
    ensures forall i :: 0 <= i < |intents| && intents[i].name == name && (forall j :: 0 <= j < i ==> intents[j].name != name) ==>
              r == (intents[i].icon, intents[i].heading)
    ensures (forall i :: 0 <= i < |intents| ==> intents[i].name != name) ==> r == (DefaultIcon, DefaultHeading)
    decreases |intents|
  {
    if |intents| == 0 then (DefaultIcon, DefaultHeading)
    else if intents[0].name == name then (intents[0].icon, intents[0].heading)
    else
      assert forall i :: 1 <= i < |intents| ==> intents[i] == intents[1..][i - 1];
      HeadingIn(intents[1..], name)
  }

  /** An answer gets the generic heading exactly when the question matched
      no intent. */
  lemma HeadingMatchesIntent(question: string)
    ensures HeadingFor(AnalyzeIntent(question)).1 == DefaultHeading <==> AnalyzeIntent(question) == DefaultIntent
  {
    var name := AnalyzeIntent(question);
    LabelsAreNotDefault();
    if name != DefaultIntent {
      var i :| 0 <= i < |Intents| && name == Intents[i].name;
      NamesDistinct();
      HeadingsNotDefault();
      assert HeadingFor(name) == (Intents[i].icon, Intents[i].heading);
    }
  }

  lemma NamesDistinct()
    ensures forall i, j :: 0 <= i < j < |Intents| ==> Intents[i].name != Intents[j].name
  {
    var names := Map(Intents, (x: Intent) => x.name);
    assert Heads(names) == ['점', '교', '관', '문', '사'];
    DistinctHeads(names);
  }

  lemma HeadingsNotDefault()
    ensures forall i :: 0 <= i < |Intents| ==> Intents[i].heading != DefaultHeading
  {
    var seconds := ['검', '체', '리', '제', '용'];
    forall i | 0 <= i < |Intents|
      ensures Intents[i].heading != DefaultHeading
    {
      assert Intents[i].heading[1] == seconds[i] != DefaultHeading[1];
    }
  }

  // ---------------------------------------------------------------------------
  // Search keywords

  /** `keyword_mapping` of `_extract_question_keywords`, in its order. */
  const KeywordTable: seq<(string, seq<string>)> := [
    ("점검", ["점검", "확인", "체크", "관리"]),
    ("교체", ["교체", "교환", "갈기", "바꾸기"]),
    ("방법", ["방법", "절차", "과정", "어떻게"]),
    ("주의", ["주의", "경고", "안전", "위험"]),
    ("관리", ["관리", "유지", "보관", "정비"])
  ]

  const DomainTerms: seq<string> := ["타이어", "엔진오일", "배터리", "브레이크", "에어컨", "와이퍼", "냉각수", "전구", "퓨즈"]

  function CategoryKey(entry: (string, seq<string>)): string {
    entry.0
  }

  /** Every word the extractor can return: the category keys, then the
      domain terms. */
  function KeywordCandidates(): (r: seq<string>)
    ensures |r| == |KeywordTable| + |DomainTerms|
    ensures forall i :: 0 <= i < |KeywordTable| ==> r[i] == KeywordTable[i].0
    ensures forall i :: 0 <= i < |DomainTerms| ==> r[|KeywordTable| + i] == DomainTerms[i]
  {
    Map(KeywordTable, CategoryKey) + DomainTerms
  }

  lemma KeywordCandidatesDistinct()
    ensures Distinct(KeywordCandidates())
  {
    var keys := ["점검", "교체", "방법", "주의", "관리"];
    assert Map(KeywordTable, CategoryKey) == keys;
    CandidateHeads(keys + DomainTerms);
    DistinctHeads(keys + DomainTerms);
  }

  lemma CandidateHeads(c: seq<string>)
    requires c == ["점검", "교체", "방법", "주의", "관리"] + DomainTerms
    ensures forall i :: 0 <= i < |c| ==> |c[i]| > 0
    ensures Distinct(Heads(c))
  {
    var h := ['점', '교', '방', '주', '관', '타', '엔', '배', '브', '에', '와', '냉', '전', '퓨'];
    assert Heads(c) == h;
  }

  /** `w` is a category key one of whose synonyms is a Hangul word of the
      question, or a domain term that is itself one. */
  predicate KeywordSelected(question: string, w: string) {
    || (exists i :: 0 <= i < |KeywordTable| && KeywordTable[i].0 == w && AnyHit(KeywordTable[i].1, TokenHit(question)))
    || (w in DomainTerms && w in HangulWords(question))
  }

  /** `_extract_question_keywords`. The source returns `list(set(...))`,
      whose order is Python's set iteration order; the model returns the set. */
  function QuestionKeywords(question: string): (r: set<string>)
    ensures forall w :: w in r <==> KeywordSelected(question, w)
  {
    KeywordCandidatesComplete(question);
    set w | w in KeywordCandidates() && KeywordSelected(question, w)
  }

  lemma KeywordCandidatesComplete(question: string)
    ensures forall w :: KeywordSelected(question, w) ==> w in KeywordCandidates()
  {
    forall w | KeywordSelected(question, w) ensures w in KeywordCandidates() {
      if w !in DomainTerms || w !in HangulWords(question) {
        var i :| 0 <= i < |KeywordTable| && KeywordTable[i].0 == w && AnyHit(KeywordTable[i].1, TokenHit(question));
        assert KeywordCandidates()[i] == KeywordTable[i].0;
      } else {
        var i :| 0 <= i < |DomainTerms| && DomainTerms[i] == w;
        assert KeywordCandidates()[|KeywordTable| + i] == DomainTerms[i];
      }
    }
  }

  /** One listing of `QuestionKeywords`, without repetitions: the order the
      model hands on to the sentence picker. */
  function QuestionKeywordList(question: string): (r: seq<string>)
    ensures Distinct(r)
    ensures forall w :: w in r <==> w in QuestionKeywords(question)
  {
    var r := Filter(KeywordCandidates(), (w: string) => KeywordSelected(question, w));
    KeywordCandidatesDistinct();
    FilterDistinct(KeywordCandidates(), (w: string) => KeywordSelected(question, w));
    r
  }
}
