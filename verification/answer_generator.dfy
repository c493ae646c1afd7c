/** The answer path that needs no language model: clean the best section's
    content, pick the sentences that mention the question's keywords, and
    lay them out under a heading chosen by the question's intent, followed by
    warnings, tips and the source reference. */
module AnswerGenerator {
  import opened Text
  import opened Seqs
  import opened Ranking
  import opened Manual
  import opened AnswerIntent
  import opened AnswerSentences
  import opened SourceInfo

  // ---------------------------------------------------------------------------
  // Fixed texts

  const NotFoundTitle: string := "🔍 **검색 결과**\n\n"
  const NotFoundText: string := NotFoundTitle + "관련된 내용을 찾지 못했습니다. 다른 키워드로 다시 검색해보시거나, 질문을 더 구체적으로 해주세요."
  const Banner: string := "🔍 **매뉴얼 검색 결과**\n\n"
  const SingleLead: string := "**주요 내용:**\n"
  const WarningHeader: string := "\n⚠\U{FE0F} **주의사항**\n"
  const TipHeader: string := "\n💡 **유용한 팁**\n"
  const Closing: string := "\n📞 **추가 도움**\n더 자세한 내용이 필요하시면 언제든 말씀해주세요!"

  const WarningTerms: seq<string> := ["주의", "위험", "경고", "안전", "금지"]
  const TipTerms: seq<string> := ["팁", "권장", "추천", "효과적", "좋은"]

  const MaxListed: nat := 8
  const MaxWarnings: nat := 3
  const MaxTips: nat := 2
  const CutLength: nat := 200

  // ---------------------------------------------------------------------------
  // Shortening a listed sentence

  /** A sentence longer than 200 characters is cut to 200, then back to its
      last '.' when the cut holds one, else marked with "...". */
  function Shorten(c: string): (r: string)
    ensures |c| <= CutLength ==> r == c
    ensures |c| > CutLength && '.' in c[..CutLength] ==>
              IsPrefix(r, c) && 0 < |r| <= CutLength && r[|r| - 1] == '.' && '.' !in c[|r|..CutLength]
    ensures |c| > CutLength && '.' !in c[..CutLength] ==> r == c[..CutLength] + "..."
  {
    if |c| <= CutLength then c
    else
      var cut := c[..CutLength];
      var d := LastIndex(cut, '.');
      if d >= 0 then
        assert cut[..d] + "." == c[..d + 1];
        assert forall i :: d + 1 <= i < CutLength ==> c[i] == cut[i];
        cut[..d] + "."
      else cut + "..."
  }

  // ---------------------------------------------------------------------------
  // Building blocks

  /** `"".join(pieces)`. */
  function Concat(pieces: seq<string>): string
    decreases |pieces|
  {
    if |pieces| == 0 then "" else pieces[0] + Concat(pieces[1..])
  }

  lemma {:induction false} ConcatContains(pieces: seq<string>, i: nat)
    requires i < |pieces|
    ensures Contains(Concat(pieces), pieces[i])
    decreases i
  {
    if i == 0 {
      ContainsSelf(pieces[0]);
      ContainsInLeft(pieces[0], Concat(pieces[1..]), pieces[0]);
    } else {
      ConcatContains(pieces[1..], i - 1);
      ContainsInRight(pieces[0], Concat(pieces[1..]), pieces[i]);
    }
  }

  /** One line of the numbered list. */
  function Line(n: nat, sentence: string): string {
    NatToString(n) + ". " + Shorten(Strip(sentence)) + "\n"
  }

  /** The lines `line(first, ..)`, `line(first + 1, ..)`, ... for `sentences`. */
  function Numbered(sentences: seq<string>, first: nat, line: (nat, string) -> string): string
    decreases |sentences|
  {
    if |sentences| == 0 then "" else line(first, sentences[0]) + Numbered(sentences[1..], first + 1, line)
  }

  /** Each sentence of the list has its line, with its own number. */
  lemma {:induction false} NumberedLists(sentences: seq<string>, first: nat, line: (nat, string) -> string, i: nat)
    requires i < |sentences|
    ensures Contains(Numbered(sentences, first, line), line(first + i, sentences[i]))
    decreases i
  {
    var head := line(first, sentences[0]);
    var rest := Numbered(sentences[1..], first + 1, line);
    assert Numbered(sentences, first, line) == head + rest;
    if i == 0 {
      ContainsSelf(head);
      ContainsInLeft(head, rest, head);
    } else {
      NumberedLists(sentences[1..], first + 1, line, i - 1);
      assert sentences[1..][i - 1] == sentences[i];
      ContainsInRight(head, rest, line(first + i, sentences[i]));
    }
  }

  function Bullet(sentence: string): string {
    "• " + Strip(sentence) + "\n"
  }

  predicate IsWarning(s: string) {
    ContainsAny(s, WarningTerms)
  }

  predicate IsTip(s: string) {
    ContainsAny(s, TipTerms)
  }

  /** A headed block of bullets for the first `limit` sentences passing
      `keep`, or nothing when none does. */
  function Block(header: string, sentences: seq<string>, keep: string -> bool, limit: nat): (r: string)
    requires header != ""
    ensures r == "" <==> forall i :: 0 <= i < |sentences| ==> !keep(sentences[i])
    ensures r != "" ==> IsPrefix(header, r)
  {
    var chosen := Filter(sentences, keep);
    if |chosen| == 0 then
      assert forall i :: 0 <= i < |sentences| ==> sentences[i] !in chosen;
      ""
    else
      header + Concat(Map(Take(chosen, limit), Bullet))
  }

  /** Every one of the first `limit` sentences passing `keep` has a bullet. */
  lemma BlockLists(header: string, sentences: seq<string>, keep: string -> bool, limit: nat, i: nat)
    requires header != ""
    requires i < limit && i < |Filter(sentences, keep)|
    ensures Contains(Block(header, sentences, keep, limit), Bullet(Filter(sentences, keep)[i]))
  {
    var chosen := Filter(sentences, keep);
    var bullets := Map(Take(chosen, limit), Bullet);
    assert Take(chosen, limit)[i] == chosen[i];
    ConcatContains(bullets, i);
    ContainsInRight(header, Concat(bullets), Bullet(chosen[i]));
  }

  /** The opening: banner, then the icon and heading for the intent. */
  function Opening(intent: string): string {
    var (icon, heading) := HeadingFor(intent);
    Banner + icon + " **" + heading + "**\n\n"
  }

  /** One sentence is shown as is; several are numbered from 1, at most eight. */
  function MainBlock(sentences: seq<string>): string
    requires |sentences| > 0
  {
    if |sentences| == 1 then SingleLead + sentences[0] + "\n\n"
    else Numbered(Take(sentences, MaxListed), 1, Line)
  }

  /** The answer before the source reference. */
  function AnswerBody(intent: string, sentences: seq<string>): string
    requires |sentences| > 0
  {
    Concat(BodyParts(intent, sentences))
  }

  function BodyParts(intent: string, sentences: seq<string>): seq<string>
    requires |sentences| > 0
  {
    [ Opening(intent),
      MainBlock(sentences),
      Block(WarningHeader, sentences, IsWarning, MaxWarnings),
      Block(TipHeader, sentences, IsTip, MaxTips),
      Closing ]
  }

  /** `_fallback_answer`. */
  function FallbackAnswer(intent: string, sentences: seq<string>, s: Section): (r: string)
    ensures IsSuffix(Footer, r)
  {
    if |sentences| == 0 then AddSourceInfo(NotFoundText, s)
    else AddSourceInfo(AnswerBody(intent, sentences), s)
  }

  // ---------------------------------------------------------------------------
  // What the answer holds

  /** Every one of the first eight sentences has its numbered line. */
  lemma MainBlockLists(sentences: seq<string>, i: nat)
    requires 1 < |sentences| && i < |sentences| && i < MaxListed
    ensures Contains(MainBlock(sentences), Line(1 + i, sentences[i]))
  {
    var listed := Take(sentences, MaxListed);
    MainBlockNumbered(sentences);
    assert listed[i] == sentences[i];
    ListedLine(listed, i, sentences[i]);
  }

  lemma MainBlockNumbered(sentences: seq<string>)
    requires 1 < |sentences|
    ensures MainBlock(sentences) == Numbered(Take(sentences, MaxListed), 1, Line)
  {
  }

  lemma ListedLine(listed: seq<string>, i: nat, sentence: string)
    requires i < |listed| && listed[i] == sentence
    ensures Contains(Numbered(listed, 1, Line), Line(1 + i, sentence))
  {
    NumberedLists(listed, 1, Line, i);
  }

  /** A line holds its sentence, shortened. */
  lemma LineHolds(n: nat, sentence: string)
    ensures Contains(Line(n, sentence), Shorten(Strip(sentence)))
  {
    var x := Shorten(Strip(sentence));
    ContainsSelf(x);
    ContainsInRight(NatToString(n) + ". ", x, x);
    ContainsInLeft(NatToString(n) + ". " + x, "\n", x);
  }

  /** What one part of the body holds, the body holds. */
  lemma InBody(intent: string, sentences: seq<string>, k: nat, x: string)
    requires |sentences| > 0 && k < 5
    requires Contains(BodyParts(intent, sentences)[k], x)
    ensures Contains(AnswerBody(intent, sentences), x)
  {
    ConcatContains(BodyParts(intent, sentences), k);
    ContainsTransitive(AnswerBody(intent, sentences), BodyParts(intent, sentences)[k], x);
  }

  /** The body opens with the banner and names the heading for the intent. */
  lemma BodyOpening(intent: string, sentences: seq<string>)
    requires |sentences| > 0
    ensures IsPrefix(Banner, AnswerBody(intent, sentences))
    ensures Contains(AnswerBody(intent, sentences), HeadingFor(intent).1)
  {
    var parts := BodyParts(intent, sentences);
    OpeningContents(intent);
    InBody(intent, sentences, 0, HeadingFor(intent).1);
    PrefixExtends(Banner, parts[0], Concat(parts[1..]));
  }

  /** The body holds every listed sentence: the only one as is, or the first
      eight shortened. */
  lemma BodyLists(intent: string, sentences: seq<string>)
    requires |sentences| > 0
    ensures |sentences| == 1 ==> Contains(AnswerBody(intent, sentences), sentences[0])
    ensures forall i :: 1 < |sentences| && 0 <= i < |sentences| && i < MaxListed ==>
              Contains(AnswerBody(intent, sentences), Shorten(Strip(sentences[i])))
  {
    if |sentences| == 1 {
      SingleContains(sentences[0]);
      InBody(intent, sentences, 1, sentences[0]);
    }
    forall i | 1 < |sentences| && 0 <= i < |sentences| && i < MaxListed
      ensures Contains(AnswerBody(intent, sentences), Shorten(Strip(sentences[i])))
    {
      ShortenedInBody(intent, sentences, i);
    }
  }

  /** A warning block is present when some sentence warns, and it lists
      the first three warning sentences. */
  lemma BodyWarnings(intent: string, sentences: seq<string>)
    requires |sentences| > 0
    ensures (exists i :: 0 <= i < |sentences| && IsWarning(sentences[i])) ==> Contains(AnswerBody(intent, sentences), WarningHeader)
    ensures forall i :: 0 <= i < |Filter(sentences, IsWarning)| && i < MaxWarnings ==>
              Contains(AnswerBody(intent, sentences), Bullet(Filter(sentences, IsWarning)[i]))
  {
    NotesListed(intent, sentences, 2, WarningHeader, IsWarning, MaxWarnings);
  }

  /** A tip block is present when some sentence gives a tip, and it lists
      the first two tip sentences. */
  lemma BodyTips(intent: string, sentences: seq<string>)
    requires |sentences| > 0
    ensures (exists i :: 0 <= i < |sentences| && IsTip(sentences[i])) ==> Contains(AnswerBody(intent, sentences), TipHeader)
    ensures forall i :: 0 <= i < |Filter(sentences, IsTip)| && i < MaxTips ==>
              Contains(AnswerBody(intent, sentences), Bullet(Filter(sentences, IsTip)[i]))
  {
    NotesListed(intent, sentences, 3, TipHeader, IsTip, MaxTips);
  }

  lemma NotesListed(intent: string, sentences: seq<string>, k: nat, header: string, keep: string -> bool, limit: nat)
    requires |sentences| > 0 && k < 5 && header != ""
    requires BodyParts(intent, sentences)[k] == Block(header, sentences, keep, limit)
    ensures (exists i :: 0 <= i < |sentences| && keep(sentences[i])) ==> Contains(AnswerBody(intent, sentences), header)
    ensures forall i :: 0 <= i < |Filter(sentences, keep)| && i < limit ==>
              Contains(AnswerBody(intent, sentences), Bullet(Filter(sentences, keep)[i]))
  {
    var b := Block(header, sentences, keep, limit);
    if b != "" {
      ContainsPrefix(b, header);
      InBody(intent, sentences, k, header);
    }
    forall i | 0 <= i < |Filter(sentences, keep)| && i < limit
      ensures Contains(AnswerBody(intent, sentences), Bullet(Filter(sentences, keep)[i]))
    {
      BlockLists(header, sentences, keep, limit, i);
      InBody(intent, sentences, k, Bullet(Filter(sentences, keep)[i]));
    }
  }

  lemma OpeningContents(intent: string)
    ensures IsPrefix(Banner, Opening(intent))
    ensures Contains(Opening(intent), HeadingFor(intent).1)
  {
    var (icon, heading) := HeadingFor(intent);
    var lead := Banner + icon + " **";
    ContainsSelf(heading);
    ContainsInRight(lead, heading, heading);
    ContainsInLeft(lead + heading, "**\n\n", heading);
  }

  lemma SingleContains(s: string)
    ensures Contains(SingleLead + s + "\n\n", s)
  {
    ContainsSelf(s);
    ContainsInRight(SingleLead, s, s);
    ContainsInLeft(SingleLead + s, "\n\n", s);
  }

  /** The first line tells the two kinds of reply apart: "검색 결과" when
      nothing was found, "매뉴얼 검색 결과" otherwise, whatever footers the
      body text carried. */
  lemma FallbackOpening(intent: string, sentences: seq<string>, s: Section)
    ensures sentences == [] <==> FallbackAnswer(intent, sentences, s)[..5] == NotFoundText[..5]
  {
    OpeningsDiffer();
    if sentences == [] {
      FirstLineKept(NotFoundText, s);
    } else {
      BodyOpening(intent, sentences);
      FirstLineKept(AnswerBody(intent, sentences), s);
    }
  }

  lemma OpeningsDiffer()
    ensures NotFoundText[..5] != Banner[..5]
    ensures forall i :: 0 <= i < 5 ==> NotFoundText[i] != '\n' && Banner[i] != '\n'
  {
    assert NotFoundText[4] == NotFoundTitle[4] == '검';
    assert Banner[4] == '매';
  }

  lemma FirstLineKept(answer: string, s: Section)
    requires 5 <= |answer| && forall i :: 0 <= i < 5 ==> answer[i] != '\n'
    ensures 5 <= |AddSourceInfo(answer, s)| && AddSourceInfo(answer, s)[..5] == answer[..5]
  {
    StripFooterKeepsFirstLine(answer, 5);
    var x := StripFooter(answer);
    assert AddSourceInfo(answer, s)[..5] == x[..5];
  }

  // ---------------------------------------------------------------------------
  // The whole answer

  /** A listing of the question's keyword set, each keyword once, in the
      order the set happens to be enumerated. */
  ghost predicate KeywordOrder(question: string, order: seq<string>) {
    Distinct(order) && forall w :: w in order <==> w in QuestionKeywords(question)
  }

  /** The sentences the answer is built from: the relevant sentences of the
      cleaned content. `prePass` stands for the regular-expression rewrites
      that open `_clean_content`. */
  function Picked(s: Section, prePass: string -> string, order: seq<string>): seq<string> {
    RelevantSentences(CleanContent(prePass(s.content)), order)
  }

  /** `generate_answer` without a language model. */
  function GenerateAnswer(question: string, s: Section, prePass: string -> string, order: seq<string>): (r: string)
    requires KeywordOrder(question, order)
    ensures IsSuffix(Footer, r)
    ensures Picked(s, prePass, order) == [] <==> r[..5] == NotFoundText[..5]
  {
    FallbackOpening(AnalyzeIntent(question), Picked(s, prePass, order), s);
    FallbackAnswer(AnalyzeIntent(question), Picked(s, prePass, order), s)
  }

  /** The answer does not depend on the order in which the keyword set is
      enumerated. */
  lemma GenerateOrderFree(question: string, s: Section, prePass: string -> string, a: seq<string>, b: seq<string>)
    requires KeywordOrder(question, a) && KeywordOrder(question, b)
    ensures GenerateAnswer(question, s, prePass, a) == GenerateAnswer(question, s, prePass, b)
  {
    RelevantSentencesOrderFree(CleanContent(prePass(s.content)), a, b);
  }

  /** A question that names no keyword always gets the not-found reply. */
  lemma GenerateWithoutKeywords(question: string, s: Section, prePass: string -> string, order: seq<string>)
    requires KeywordOrder(question, order)
    requires QuestionKeywords(question) == {}
    ensures GenerateAnswer(question, s, prePass, order) == AddSourceInfo(NotFoundText, s)
  {
    RelevantSentencesOrderFree(CleanContent(prePass(s.content)), order, []);
  }

  /** Otherwise the answer is the laid-out body with the source reference,
      and every picked sentence appears in the body word for word. */
  lemma GenerateShowsSentences(question: string, s: Section, prePass: string -> string, order: seq<string>)
    requires KeywordOrder(question, order)
    requires Picked(s, prePass, order) != []
    ensures GenerateAnswer(question, s, prePass, order) ==
              AddSourceInfo(AnswerBody(AnalyzeIntent(question), Picked(s, prePass, order)), s)
    ensures forall i :: 0 <= i < |Picked(s, prePass, order)| ==>
              Contains(AnswerBody(AnalyzeIntent(question), Picked(s, prePass, order)), Picked(s, prePass, order)[i])
  {
    var content := CleanContent(prePass(s.content));
    var rel := RelevantSentences(content, order);
    var intent := AnalyzeIntent(question);
    forall i | 0 <= i < |rel|
      ensures Contains(AnswerBody(intent, rel), rel[i])
    {
      ShownVerbatim(content, order, rel[i]);
      if |rel| == 1 {
        SingleListed(intent, rel);
      } else {
        ManyListed(intent, rel, i);
      }
    }
  }

  lemma SingleListed(intent: string, rel: seq<string>)
    requires |rel| == 1
    ensures Contains(AnswerBody(intent, rel), rel[0])
  {
    SingleContains(rel[0]);
    InBody(intent, rel, 1, rel[0]);
  }

  lemma ManyListed(intent: string, rel: seq<string>, i: nat)
    requires 1 < |rel| && i < |rel| && i < MaxListed
    requires IsStripped(rel[i]) && |rel[i]| <= CutLength
    ensures Contains(AnswerBody(intent, rel), rel[i])
  {
    ShortenedInBody(intent, rel, i);
    AsIs(rel[i]);
  }

  /** A numbered sentence, shortened, is in the body. */
  lemma ShortenedInBody(intent: string, sentences: seq<string>, i: nat)
    requires 1 < |sentences| && i < |sentences| && i < MaxListed
    ensures Contains(AnswerBody(intent, sentences), Shorten(Strip(sentences[i])))
  {
    var line := Line(1 + i, sentences[i]);
    MainBlockLists(sentences, i);
    LineHolds(1 + i, sentences[i]);
    ContainsTransitive(MainBlock(sentences), line, Shorten(Strip(sentences[i])));
    InBody(intent, sentences, 1, Shorten(Strip(sentences[i])));
  }

  lemma AsIs(x: string)
    requires IsStripped(x) && |x| <= CutLength
    ensures Shorten(Strip(x)) == x
  {
    StripIdentity(x);
  }

  /** A picked sentence is stripped and short, so listing leaves it as is. */
  lemma ShownVerbatim(content: string, keywords: seq<string>, x: string)
    requires x in RelevantSentences(content, keywords)
    ensures IsStripped(x) && |x| <= CutLength
  {
    assert x in SentencePieces(content);
  }
}
