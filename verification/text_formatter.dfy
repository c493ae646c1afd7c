/** The text helpers that lay a manual passage out for display: repeated
    lines dropped, a topic heading put in front, procedure steps numbered,
    warnings gathered under their own heading, a summary of the key lines,
    and the page note at the end. */
module TextFormatter {
  import opened Text
  import opened Seqs
  import opened Optional
  import opened Lookup

  /** A Markdown heading line. */
  predicate IsHeading(line: string) {
    IsPrefix("#", line)
  }

  // ---------------------------------------------------------------------------
  // remove_duplicate_sentences_gentle

  /** `line.strip().lower()`. */
  function LineKey(line: string): string {
    Lower(Strip(line))
  }

  /** The lines kept when `seen` holds the keys met so far: a heading always
      stays, any other line only when its key is new, and the key of every
      kept line becomes seen. */
  function KeepLines(lines: seq<string>, seen: set<string>, key: string -> string): (r: seq<string>)
    ensures |r| <= |lines|
    ensures forall i :: 0 <= i < |r| ==> r[i] in lines
    ensures forall i :: 0 <= i < |r| && !IsHeading(r[i]) ==> key(r[i]) !in seen
    ensures forall i :: 0 <= i < |r| && !IsHeading(r[i]) ==> FirstWithKey(lines, key, r[i])
    decreases |lines|
  {
    if |lines| == 0 then []
    else
      var line := lines[0];
      if IsHeading(line) || key(line) !in seen then
        var rest := KeepLines(lines[1..], seen + {key(line)}, key);
        FirstWithKeyCons(line, lines[1..], key, rest, NotHeading);
        FirstWithKeyHead(lines, key);
        assert lines == [line] + lines[1..];
        var r := [line] + rest;
        assert forall i :: 1 <= i < |r| ==> r[i] == rest[i - 1];
        r
      else
        var rest := KeepLines(lines[1..], seen, key);
        FirstWithKeyCons(line, lines[1..], key, rest, NotHeading);
        assert lines == [line] + lines[1..];
        rest
  }

  predicate NotHeading(line: string) {
    !IsHeading(line)
  }

  /** The kept lines are the input with some lines deleted. */
  lemma {:induction false} KeepLinesSubsequence(lines: seq<string>, seen: set<string>, key: string -> string)
    ensures IsSubsequence(KeepLines(lines, seen, key), lines)
    decreases |lines|
  {
    if |lines| > 0 {
      var line := lines[0];
      var r := KeepLines(lines, seen, key);
      if IsHeading(line) || key(line) !in seen {
        KeepLinesSubsequence(lines[1..], seen + {key(line)}, key);
        assert r[1..] == KeepLines(lines[1..], seen + {key(line)}, key);
      } else {
        KeepLinesSubsequence(lines[1..], seen, key);
      }
    }
  }

  /** Every heading line survives, in order: the headings of the output are
      the headings of the input. */
  lemma {:induction false} KeepLinesHeadings(lines: seq<string>, seen: set<string>, key: string -> string)
    ensures Filter(KeepLines(lines, seen, key), IsHeading) == Filter(lines, IsHeading)
    decreases |lines|
  {
    if |lines| > 0 {
      var line := lines[0];
      if IsHeading(line) || key(line) !in seen {
        var rest := KeepLines(lines[1..], seen + {key(line)}, key);
        KeepLinesHeadings(lines[1..], seen + {key(line)}, key);
        assert ([line] + rest)[1..] == rest;
      } else {
        KeepLinesHeadings(lines[1..], seen, key);
      }
    }
  }

  /** No kept line other than a heading repeats the key of an earlier kept line. */
  lemma {:induction false} KeepLinesFresh(lines: seq<string>, seen: set<string>, key: string -> string)
    ensures forall i, j :: 0 <= i < j < |KeepLines(lines, seen, key)| && !IsHeading(KeepLines(lines, seen, key)[j]) ==>
              key(KeepLines(lines, seen, key)[i]) != key(KeepLines(lines, seen, key)[j])
    decreases |lines|
  {
    if |lines| > 0 {
      var line := lines[0];
      var r := KeepLines(lines, seen, key);
      if IsHeading(line) || key(line) !in seen {
        var seen' := seen + {key(line)};
        var rest := KeepLines(lines[1..], seen', key);
        KeepLinesFresh(lines[1..], seen', key);
        forall i, j | 0 <= i < j < |r| && !IsHeading(r[j])
          ensures key(r[i]) != key(r[j])
        {
          assert r[j] == rest[j - 1];
          if i > 0 {
            assert r[i] == rest[i - 1];
          }
        }
      } else {
        KeepLinesFresh(lines[1..], seen, key);
      }
    }
  }

  /** A line is dropped only because its key was seen already or belongs
      to a kept line. */
  lemma {:induction false} KeepLinesComplete(lines: seq<string>, seen: set<string>, key: string -> string)
    ensures forall i :: 0 <= i < |lines| ==>
              lines[i] in KeepLines(lines, seen, key) || key(lines[i]) in seen || HasKey(KeepLines(lines, seen, key), key, key(lines[i]))
    decreases |lines|
  {
    if |lines| > 0 {
      var line := lines[0];
      var r := KeepLines(lines, seen, key);
      if IsHeading(line) || key(line) !in seen {
        var seen' := seen + {key(line)};
        var rest := KeepLines(lines[1..], seen', key);
        KeepLinesComplete(lines[1..], seen', key);
        assert r == [line] + rest;
        forall i | 0 <= i < |lines|
          ensures lines[i] in r || key(lines[i]) in seen || HasKey(r, key, key(lines[i]))
        {
          if i == 0 {
            assert lines[i] == r[0];
          } else {
            assert lines[i] == lines[1..][i - 1];
            if key(lines[i]) == key(line) {
              assert key(r[0]) == key(lines[i]);
            } else if HasKey(rest, key, key(lines[i])) {
              var j :| 0 <= j < |rest| && key(rest[j]) == key(lines[i]);
              assert r[j + 1] == rest[j];
            }
          }
        }
      } else {
        KeepLinesComplete(lines[1..], seen, key);
        forall i | 0 <= i < |lines|
          ensures lines[i] in r || key(lines[i]) in seen || HasKey(r, key, key(lines[i]))
        {
          if i > 0 {
            assert lines[i] == lines[1..][i - 1];
          }
        }
      }
    }
  }

  /** Dropping repeats twice drops nothing more. */
  lemma {:induction false} KeepLinesIdempotent(lines: seq<string>, seen: set<string>, key: string -> string)
    ensures KeepLines(KeepLines(lines, seen, key), seen, key) == KeepLines(lines, seen, key)
    decreases |lines|
  {
    if |lines| > 0 {
      var line := lines[0];
      if IsHeading(line) || key(line) !in seen {
        var seen' := seen + {key(line)};
        var rest := KeepLines(lines[1..], seen', key);
        KeepLinesIdempotent(lines[1..], seen', key);
        assert ([line] + rest)[1..] == rest;
      } else {
        KeepLinesIdempotent(lines[1..], seen, key);
      }
    }
  }

  /** The first line is always kept when nothing has been seen. */
  lemma KeepLinesFirst(lines: seq<string>, key: string -> string)
    requires |lines| > 0
    ensures |KeepLines(lines, {}, key)| > 0 && KeepLines(lines, {}, key)[0] == lines[0]
  {
  }

  /** `remove_duplicate_sentences_gentle`: the output lines are
      deduplicated from the input lines. */
  function RemoveDuplicateLines(text: string): (r: string)
    ensures DedupedFrom(Split(r, '\n'), Split(text, '\n'))
  {
    var lines := Split(text, '\n');
    var kept := KeepLines(lines, {}, LineKey);
    KeepLinesFirst(lines, LineKey);
    SplitJoin(kept, '\n');
    KeptLinesDeduped(lines);
    Join(kept, "\n")
  }

  /** The lines of the output are exactly the kept lines. */
  lemma RemoveDuplicateLinesLines(text: string)
    ensures Split(RemoveDuplicateLines(text), '\n') == KeepLines(Split(text, '\n'), {}, LineKey)
  {
    var lines := Split(text, '\n');
    var kept := KeepLines(lines, {}, LineKey);
    KeepLinesFirst(lines, LineKey);
    SplitJoin(kept, '\n');
  }

  /** What `remove_duplicate_sentences_gentle` promises of its output lines
      `kept` against the input lines: a subsequence, every heading kept, no
      two other lines sharing a stripped, lower-cased form, each kept line
      other than a heading the first input line of its form, and each
      dropped line repeating the form of a kept one. */
  ghost predicate DedupedFrom(kept: seq<string>, lines: seq<string>) {
    && IsSubsequence(kept, lines)
    && Filter(kept, IsHeading) == Filter(lines, IsHeading)
    && (forall i, j :: 0 <= i < j < |kept| && !IsHeading(kept[j]) ==> LineKey(kept[i]) != LineKey(kept[j]))
    && (forall i :: 0 <= i < |kept| && !IsHeading(kept[i]) ==> FirstWithKey(lines, LineKey, kept[i]))
    && (forall i :: 0 <= i < |lines| ==> lines[i] in kept || HasKey(kept, LineKey, LineKey(lines[i])))
  }

  lemma KeptLinesDeduped(lines: seq<string>)
    ensures DedupedFrom(KeepLines(lines, {}, LineKey), lines)
  {
    KeepLinesSubsequence(lines, {}, LineKey);
    KeepLinesHeadings(lines, {}, LineKey);
    KeepLinesFresh(lines, {}, LineKey);
    KeepLinesComplete(lines, {}, LineKey);
  }

  /** Applying it twice is applying it once. */
  lemma RemoveDuplicateLinesIdempotent(text: string)
    ensures RemoveDuplicateLines(RemoveDuplicateLines(text)) == RemoveDuplicateLines(text)
  {
    var lines := Split(text, '\n');
    RemoveDuplicateLinesLines(text);
    KeepLinesIdempotent(lines, {}, LineKey);
  }

  // ---------------------------------------------------------------------------
  // summarize_long_content

  const WarningSign: string := "⚠\U{FE0F}"
  const SummaryTerms: seq<string> := ["주의", "경고", "중요", "방법"]

  /** A line worth keeping in a summary. */
  predicate InSummary(line: string) {
    IsHeading(line) || Contains(line, WarningSign) || ContainsAny(line, SummaryTerms)
  }

  /** `summarize_long_content`: a subsequence of the lines, each a
      heading or one with a warning sign or term, and every such line. */
  function Summarize(text: string): (r: string)
    ensures r == "" || IsSubsequence(Split(r, '\n'), Split(text, '\n'))
    ensures forall l :: l in Split(r, '\n') && l != "" ==> InSummary(l) && l in Split(text, '\n')
    ensures forall l :: l in Split(text, '\n') && InSummary(l) ==> l in Split(r, '\n')
  {
    var kept := Filter(Split(text, '\n'), InSummary);
    FilterIsSubsequence(Split(text, '\n'), InSummary);
    JoinedLines(kept);
    Join(kept, "\n")
  }

  lemma JoinedLines(kept: seq<string>)
    requires forall i :: 0 <= i < |kept| ==> '\n' !in kept[i]
    ensures Split(Join(kept, "\n"), '\n') == (if kept == [] then [""] else kept)
  {
    if kept != [] {
      SplitJoin(kept, '\n');
    }
  }

  lemma EmptyNotInSummary()
    ensures !InSummary("")
  {
    ContainsLength("", WarningSign);
    forall i | 0 <= i < |SummaryTerms|
      ensures !Contains("", SummaryTerms[i])
    {
      ContainsLength("", SummaryTerms[i]);
    }
  }

  /** The lines of a summary are exactly the input lines worth keeping, in
      their order. */
  lemma SummaryLines(text: string)
    ensures Split(Summarize(text), '\n') == (if Filter(Split(text, '\n'), InSummary) == [] then [""] else Filter(Split(text, '\n'), InSummary))
  {
    var kept := Filter(Split(text, '\n'), InSummary);
    if kept != [] {
      SplitJoin(kept, '\n');
    }
  }

  /** Summarizing a summary changes nothing. */
  lemma SummarizeIdempotent(text: string)
    ensures Summarize(Summarize(text)) == Summarize(text)
  {
    var kept := Filter(Split(text, '\n'), InSummary);
    SummaryLines(text);
    if kept == [] {
      EmptyNotInSummary();
    } else {
      FilterIdempotent(Split(text, '\n'), InSummary);
    }
  }

  // ---------------------------------------------------------------------------
  // add_topic_title

  /** Topic names with their icons, in the order the table is searched. */
  const Topics: seq<(string, string)> := [
    ("엔진오일", "🔧"), ("배터리", "🔋"), ("타이어", "🚗"),
    ("브레이크", "🛑"), ("필터", "🌀"), ("냉각수", "❄\U{FE0F}"), ("에어컨", "🌬\U{FE0F}"),
    ("히터", "🔥"), ("전구", "💡"), ("퓨즈", "⚡"), ("벨트", "🔗"), ("와이퍼", "🌧\U{FE0F}"),
    ("시동", "🔑"), ("변속기", "⚙\U{FE0F}"), ("조향", "🎯"), ("서스펜션", "🏗\U{FE0F}"), ("배기", "💨")
  ]

  /** Action words with the task they name; the heading says "<task> 방법". */
  const Actions: seq<(string, string)> := [
    ("점검", "점검"), ("확인", "확인"), ("교체", "교체"),
    ("교환", "교체"), ("관리", "관리"), ("정비", "정비"),
    ("수리", "수리"), ("조정", "조정"), ("설정", "설정"),
    ("사용", "사용"), ("작동", "작동"), ("청소", "청소")
  ]

  const DefaultIcon: string := "📖"
  const DefaultTask: string := "사용"

  /** A table of (result, [trigger]) rows for a first-match lookup. */
  function Triggers<K>(table: seq<(string, K)>): (r: seq<(K, seq<string>)>)
    ensures |r| == |table|
    ensures forall i :: 0 <= i < |table| ==> r[i] == (table[i].1, [table[i].0])
  {
    seq(|table|, i requires 0 <= i < |table| => (table[i].1, [table[i].0]))
  }

  function TextHit(text: string): string -> bool {
    (w: string) => Contains(text, w)
  }

  /** The first topic (name, icon) named in the text. */
  function TopicOf(text: string): Option<(string, string)> {
    FirstEntry(Triggers(Seqs.Map(Topics, (t: (string, string)) => (t.0, t))), TextHit(text))
  }

  /** The task of the first action word in the text, "사용" when none is. */
  function TaskOf(text: string): string {
    FirstEntry(Triggers(Actions), TextHit(text)).GetOr(DefaultTask)
  }

  /** The heading line before `strip()`. */
  function TopicHeader(text: string): (r: string)
    ensures IsPrefix("# ", r) && IsSuffix(" 방법", r)
  {
    var topic := TopicOf(text);
    var icon := if topic.Some? then topic.value.1 else DefaultIcon;
    var name := if topic.Some? then topic.value.0 else "";
    "# " + icon + " " + name + " " + TaskOf(text) + " 방법"
  }

  /** `add_topic_title`. */
  function AddTopicTitle(text: string): (r: string)
    ensures IsHeading(r)
    ensures IsHeading(text) ==> r == text
    ensures !IsHeading(text) ==> r == TopicHeader(text) + "\n\n" + text
  {
    if IsHeading(text) then text
    else
      HeaderStripped(text);
      Strip(TopicHeader(text)) + "\n\n" + text
  }

  /** The heading starts with '#' and ends with '법', so `strip()` leaves it
      as it is. */
  lemma HeaderStripped(text: string)
    ensures Strip(TopicHeader(text)) == TopicHeader(text)
  {
    var h := TopicHeader(text);
    assert h[0] == '#';
    assert h[|h| - 1] == " 방법"[2];
    StripIdentity(h);
  }

  /** Putting a heading in front twice is putting it once. */
  lemma AddTopicTitleIdempotent(text: string)
    ensures AddTopicTitle(AddTopicTitle(text)) == AddTopicTitle(text)
  {
  }

  /** The topic named first in the table wins, whatever later topics the
      text names; with no topic the heading shows the book icon and no name. */
  lemma TopicChoice(text: string, i: nat)
    requires i < |Topics| && Contains(text, Topics[i].0)
    requires forall j :: 0 <= j < i ==> !Contains(text, Topics[j].0)
    ensures TopicOf(text) == Some(Topics[i])
    ensures IsPrefix("# " + Topics[i].1 + " " + Topics[i].0 + " ", TopicHeader(text))
  {
    var table := Triggers(Seqs.Map(Topics, (t: (string, string)) => (t.0, t)));
    assert AnyHit(table[i].1, TextHit(text)) by {
      assert table[i].1[0] == Topics[i].0;
    }
    forall j | 0 <= j < i
      ensures !AnyHit(table[j].1, TextHit(text))
    {
      assert table[j].1 == [Topics[j].0];
    }
    FirstEntryAt(table, TextHit(text), i);
  }

  /** With no topic in the text the heading shows the book icon and no name. */
  lemma NoTopic(text: string)
    requires forall j :: 0 <= j < |Topics| ==> !Contains(text, Topics[j].0)
    ensures TopicOf(text) == None
    ensures IsPrefix("# " + DefaultIcon + "  ", TopicHeader(text))
  {
    var table := Triggers(Seqs.Map(Topics, (t: (string, string)) => (t.0, t)));
    forall j | 0 <= j < |table|
      ensures !AnyHit(table[j].1, TextHit(text))
    {
      assert table[j].1 == [Topics[j].0];
    }
  }

  /** The first action word in the text names the task; with none the task
      is "사용 방법". */
  lemma TaskChoice(text: string)
    ensures (forall j :: 0 <= j < |Actions| ==> !Contains(text, Actions[j].0)) ==> TaskOf(text) == DefaultTask
    ensures forall i :: 0 <= i < |Actions| && Contains(text, Actions[i].0) && (forall j :: 0 <= j < i ==> !Contains(text, Actions[j].0)) ==>
              TaskOf(text) == Actions[i].1
  {
    var table := Triggers(Actions);
    forall j | 0 <= j < |table|
      ensures AnyHit(table[j].1, TextHit(text)) <==> Contains(text, Actions[j].0)
    {
      assert table[j].1 == [Actions[j].0];
      assert TextHit(text)(table[j].1[0]) == Contains(text, Actions[j].0);
    }
    forall i | 0 <= i < |Actions| && Contains(text, Actions[i].0) && (forall j :: 0 <= j < i ==> !Contains(text, Actions[j].0))
      ensures TaskOf(text) == Actions[i].1
    {
      FirstEntryAt(table, TextHit(text), i);
    }
  }

  // ---------------------------------------------------------------------------
  // extract_and_format_steps_complete, after the sentence split

  /** Line 44 as written: the period test looks at the piece before
      `strip()`, so a piece ending in ". " gets a second period. */
  function FinishAsWritten(piece: string): (r: string)
    ensures IsSuffix(".", r) && IsPrefix(Strip(piece), r) && |r| <= |Strip(piece)| + 1
    ensures !IsSuffix(".", piece) ==> |r| == |Strip(piece)| + 1
  {
    if IsSuffix(".", piece) then
      StripKeepsLast(piece);
      Strip(piece)
    else
      Strip(piece) + "."
  }

  /** `strip()` keeps a final character that is not whitespace. */
  lemma StripKeepsLast(s: string)
    requires |s| > 0 && !IsSpace(s[|s| - 1])
    ensures |Strip(s)| > 0 && Strip(s)[|Strip(s)| - 1] == s[|s| - 1]
  {
    var l := StripLeft(s);
    assert |l| > 0;
    assert l[|l| - 1] == s[|s| - 1];
  }

  /** A sentence ends with exactly the period it needs: the stripped piece,
      with a period added when it lacks one. */
  function Finish(piece: string): (r: string)
    ensures IsSuffix(".", r) && IsPrefix(Strip(piece), r) && |r| <= |Strip(piece)| + 1
  {
    var s := Strip(piece);
    s + (if IsSuffix(".", s) then "" else ".")
  }

  /** The as-written rule doubles the period of a finished sentence
      followed by a space: "가나. " becomes "가나." with a second '.'
      appended, "가나..". */
  lemma FinishAsWrittenDoubles(sentence: string)
    requires IsStripped(sentence) && IsSuffix(".", sentence)
    ensures Strip(sentence + " ") == sentence
    ensures FinishAsWritten(sentence + " ") == sentence + "."
  {
    StripTrailingSpace(sentence);
    SpaceIsNoPeriod(sentence);
    FinishAsWrittenAddsPeriod(sentence + " ");
  }

  lemma SpaceIsNoPeriod(s: string)
    ensures !IsSuffix(".", s + " ")
  {
    var p := s + " ";
    assert p[|p| - 1] == ' ';
  }

  lemma FinishAsWrittenAddsPeriod(piece: string)
    requires !IsSuffix(".", piece)
    ensures FinishAsWritten(piece) == Strip(piece) + "."
  {
  }

  lemma StripTrailingSpace(s: string)
    requires IsStripped(s) && s != ""
    ensures Strip(s + " ") == s
  {
    var p := s + " ";
    assert p[0] == s[0];
    assert StripLeft(p) == p;
    assert p[..|p| - 1] == s;
    assert StripRight(p) == StripRight(s) == s;
  }

  /** The corrected rule adds no period to a sentence that has one, so
      finishing a finished sentence changes nothing. */
  lemma FinishIdempotent(piece: string)
    ensures Finish(Finish(piece)) == Finish(piece)
  {
    var r := Finish(piece);
    FinishStripped(piece);
    StripIdentity(r);
    assert Strip(r) == r && IsSuffix(".", r);
  }

  lemma FinishStripped(piece: string)
    ensures IsStripped(Finish(piece))
  {
    var s := Strip(piece);
    StripStripped(piece);
    if !IsSuffix(".", s) {
      PeriodAdded(s);
      assert Finish(piece) == s + ".";
    } else {
      assert Finish(piece) == s;
    }
  }

  lemma PeriodAdded(s: string)
    requires IsStripped(s)
    ensures IsStripped(s + ".")
  {
    var r := s + ".";
    assert r[|r| - 1] == '.';
    if |s| > 0 {
      assert r[0] == s[0];
    }
  }

  /** The corrected rule adds no period when the stripped piece already
      ends with one, whatever whitespace followed it: on "가나. " it gives
      "가나.". */
  lemma FinishKeepsOnePeriod(piece: string)
    requires IsSuffix(".", Strip(piece))
    ensures Finish(piece) == Strip(piece)
  {
  }

  /** The sentences that go into the layout: non-blank pieces, finished
      by the corrected rule. */
  function Sentences(pieces: seq<string>): (r: seq<string>)
    ensures |r| <= |pieces|
    ensures forall i :: 0 <= i < |r| ==> IsSuffix(".", r[i])
  {
    Seqs.Map(Filter(pieces, NotBlank), Finish)
  }

  predicate NotBlank(piece: string) {
    Strip(piece) != ""
  }

  /** Each sentence is a non-blank piece, stripped, ending in one period it
      did not already have; none is blank. */
  lemma SentencesFinished(pieces: seq<string>)
    ensures |Sentences(pieces)| <= |pieces|
    ensures forall i :: 0 <= i < |Sentences(pieces)| ==>
              IsStripped(Sentences(pieces)[i]) && IsSuffix(".", Sentences(pieces)[i])
              && Finish(Sentences(pieces)[i]) == Sentences(pieces)[i]
    ensures forall p :: p in pieces && NotBlank(p) ==> Finish(p) in Sentences(pieces)
  {
    var kept := Filter(pieces, NotBlank);
    forall i | 0 <= i < |kept|
      ensures IsStripped(Finish(kept[i])) && Finish(Finish(kept[i])) == Finish(kept[i])
    {
      FinishStripped(kept[i]);
      FinishIdempotent(kept[i]);
    }
    forall p | p in pieces && NotBlank(p)
      ensures Finish(p) in Sentences(pieces)
    {
      var i :| 0 <= i < |kept| && kept[i] == p;
      assert Sentences(pieces)[i] == Finish(p);
    }
  }

  const ProcedureWords: seq<string> := ["먼저", "다음", "그 후", "마지막으로", "이후", "그다음", "이어서"]
  const ImperativeEndings: seq<string> := ["십시오", "하세요"]
  const NoteTerms: seq<string> := ["주의", "경고", "중요", "참고", "안전"]

  /** The sentence ends with an instruction ending. */
  predicate EndsAsInstruction(s: string) {
    exists k :: 0 <= k < |ImperativeEndings| && IsSuffix(ImperativeEndings[k], s)
  }

  /** Line 51 as written: the instruction endings are tested on the
      finished sentence, which always ends in '.'. */
  predicate IsStepAsWritten(sentence: string) {
    ContainsAny(sentence, ProcedureWords) || EndsAsInstruction(sentence)
  }

  /** A finished sentence ends in '.', so no instruction ending can match
      it: as written, only the sequencing words make a step, and
      "엔진을 끄십시오." is not one. */
  lemma InstructionEndingNeverMatches(sentence: string)
    requires IsSuffix(".", sentence)
    ensures !EndsAsInstruction(sentence)
    ensures IsStepAsWritten(sentence) <==> ContainsAny(sentence, ProcedureWords)
  {
    forall k | 0 <= k < |ImperativeEndings|
      ensures !IsSuffix(ImperativeEndings[k], sentence)
    {
      var e := ImperativeEndings[k];
      assert e[|e| - 1] != '.';
    }
  }

  /** The sentence without the one period that finishing added. */
  function Unfinished(sentence: string): (r: string)
    ensures IsPrefix(r, sentence) && |sentence| - 1 <= |r|
    ensures IsSuffix(".", sentence) <==> |r| < |sentence|
  {
    if IsSuffix(".", sentence) then sentence[..|sentence| - 1] else sentence
  }

  /** A procedure step, corrected: it names a sequencing word, or ends as
      an instruction before its final period. */
  predicate IsStep(sentence: string) {
    ContainsAny(sentence, ProcedureWords) || EndsAsInstruction(Unfinished(sentence))
  }

  /** The corrected test makes a step of every finished instruction: a
      stripped piece ending in "십시오" or "하세요" is a step once finished. */
  lemma InstructionIsStep(piece: string, k: nat)
    requires IsStripped(piece) && k < |ImperativeEndings| && IsSuffix(ImperativeEndings[k], piece)
    ensures IsStep(Finish(piece))
  {
    StripIdentity(piece);
    var e := ImperativeEndings[k];
    assert piece[|piece| - 1] == e[|e| - 1] != '.';
    assert Finish(piece) == piece + ".";
    assert Unfinished(piece + ".") == piece;
  }

  predicate NotStep(sentence: string) {
    !IsStep(sentence)
  }

  predicate IsNote(sentence: string) {
    ContainsAny(sentence, NoteTerms)
  }

  function Steps(sentences: seq<string>): seq<string> {
    Filter(sentences, IsStep)
  }

  function Others(sentences: seq<string>): seq<string> {
    Filter(sentences, NotStep)
  }

  /** Every sentence goes to exactly one of the steps and the others, each
      keeping the order of the text. */
  lemma Classified(sentences: seq<string>)
    ensures multiset(Steps(sentences)) + multiset(Others(sentences)) == multiset(sentences)
    ensures forall s :: s in Steps(sentences) ==> IsStep(s) && s !in Others(sentences)
    ensures IsSubsequence(Steps(sentences), sentences) && IsSubsequence(Others(sentences), sentences)
  {
    FilterPartition(sentences, IsStep, NotStep);
    FilterIsSubsequence(sentences, IsStep);
    FilterIsSubsequence(sentences, NotStep);
  }

  /** "**<n>.** " */
  function StepLabel(n: nat): string {
    "**" + NatToString(n) + ".** "
  }

  /** The label written before a step reads back as its number. */
  lemma StepLabelReads(n: nat)
    ensures StepLabel(n)[2..|StepLabel(n)| - 4] == NatToString(n)
    ensures DecimalValue(StepLabel(n)[2..|StepLabel(n)| - 4]) == n
  {
    NatToStringValue(n);
  }

  /** The steps, numbered from 1 in their order. */
  function NumberSteps(steps: seq<string>): (r: seq<string>)
    ensures |r| == |steps|
    ensures forall i :: 0 <= i < |r| ==> r[i] == StepLabel(i + 1) + steps[i]
  {
    seq(|steps|, i requires 0 <= i < |steps| => StepLabel(i + 1) + steps[i])
  }

  /** The numbers of the steps are 1, 2, ..., n: two lines never share a
      number, and line i reads back as i + 1. */
  lemma StepsNumbered(steps: seq<string>, i: nat)
    requires i < |steps|
    ensures IsPrefix(StepLabel(i + 1), NumberSteps(steps)[i]) && IsSuffix(steps[i], NumberSteps(steps)[i])
    ensures DecimalValue(StepLabel(i + 1)[2..|StepLabel(i + 1)| - 4]) == i + 1
  {
    StepLabelReads(i + 1);
  }

  const NotesHeader: string := "\n\n## ⚠\U{FE0F} 주의사항\n"
  const MoreHeader: string := "\n\n## 📋 추가 정보\n"

  function Emphasised(s: string): string {
    "• **" + s + "**"
  }

  function Plain(s: string): string {
    "• " + s
  }

  /** A headed list, or nothing for no items. */
  function ListBlock(header: string, items: seq<string>, bullet: string -> string): (r: string)
    requires header != ""
    ensures r == "" <==> items == []
    ensures items != [] ==> IsPrefix(header, r)
  {
    if items == [] then "" else header + Join(Seqs.Map(items, bullet), "\n")
  }

  /** Every item's bullet is in the block. */
  lemma ListBlockHolds(header: string, items: seq<string>, bullet: string -> string, i: nat)
    requires header != "" && i < |items|
    ensures Contains(ListBlock(header, items, bullet), bullet(items[i]))
  {
    JoinHolds(Seqs.Map(items, bullet), "\n", i);
    ContainsInRight(header, Join(Seqs.Map(items, bullet), "\n"), bullet(items[i]));
  }

  /** A joined piece is in the join. */
  lemma {:induction false} JoinHolds(pieces: seq<string>, sep: string, i: nat)
    requires i < |pieces|
    ensures Contains(Join(pieces, sep), pieces[i])
    decreases i
  {
    if |pieces| == 1 {
      ContainsSelf(pieces[0]);
    } else {
      var rest := Join(pieces[1..], sep);
      assert Join(pieces, sep) == pieces[0] + (sep + rest);
      if i == 0 {
        ContainsSelf(pieces[0]);
        ContainsInLeft(pieces[0], sep + rest, pieces[0]);
      } else {
        JoinHolds(pieces[1..], sep, i - 1);
        ContainsInRight(sep, rest, pieces[i]);
        ContainsInRight(pieces[0], sep + rest, pieces[i]);
      }
    }
  }

  /** The notes among the others, as written: the `s not in steps` condition is kept,
      although no other sentence can be a step. */
  function Notes(sentences: seq<string>): seq<string> {
    Filter(Others(sentences), (s: string) => IsNote(s) && s !in Steps(sentences))
  }

  function More(sentences: seq<string>): seq<string> {
    Filter(Others(sentences), (s: string) => !IsNote(s) && s !in Steps(sentences))
  }

  /** The `s not in steps` test never fails: the notes are the other
      sentences with a warning term, the rest are the additional ones. */
  lemma NotesSplitOthers(sentences: seq<string>)
    ensures Notes(sentences) == Filter(Others(sentences), IsNote)
    ensures More(sentences) == Filter(Others(sentences), (s: string) => !IsNote(s))
  {
    var others := Others(sentences);
    forall i | 0 <= i < |others|
      ensures others[i] !in Steps(sentences)
    {
      assert NotStep(others[i]);
    }
    FilterCongruent(others, (s: string) => IsNote(s) && s !in Steps(sentences), IsNote);
    FilterCongruent(others, (s: string) => !IsNote(s) && s !in Steps(sentences), (s: string) => !IsNote(s));
  }

  /** `extract_and_format_steps_complete` from the sentence list on: the
      layout is empty exactly when there is no sentence, since each one is
      a step, a note or an additional sentence. */
  function FormatSteps(sentences: seq<string>): (r: string)
    ensures r == "" <==> sentences == []
  {
    LayoutEmpty(sentences);
    Join(NumberSteps(Steps(sentences)), "\n\n")
    + ListBlock(NotesHeader, Notes(sentences), Emphasised)
    + ListBlock(MoreHeader, More(sentences), Plain)
  }

  lemma LayoutEmpty(sentences: seq<string>)
    ensures Join(NumberSteps(Steps(sentences)), "\n\n") == "" <==> Steps(sentences) == []
    ensures Steps(sentences) == [] && Notes(sentences) == [] && More(sentences) == [] <==> sentences == []
  {
    var numbered := NumberSteps(Steps(sentences));
    if numbered != [] {
      assert numbered[0][0] == '*';
      JoinFirstNonEmpty(numbered, "\n\n");
    }
    Classified(sentences);
    NotesSplitOthers(sentences);
    FilterPartition(Others(sentences), IsNote, (s: string) => !IsNote(s));
  }

  lemma JoinFirstNonEmpty(pieces: seq<string>, sep: string)
    requires |pieces| > 0 && pieces[0] != ""
    ensures Join(pieces, sep) != ""
  {
    if |pieces| > 1 {
      assert Join(pieces, sep) == pieces[0] + sep + Join(pieces[1..], sep);
    }
  }

  /** The warnings block is there exactly when some sentence that is not a
      step carries a warning term; the additional block exactly when some
      sentence is neither a step nor a warning. */
  lemma BlocksPresent(sentences: seq<string>)
    ensures ListBlock(NotesHeader, Notes(sentences), Emphasised) != "" <==>
              exists i :: 0 <= i < |sentences| && NotStep(sentences[i]) && IsNote(sentences[i])
    ensures ListBlock(MoreHeader, More(sentences), Plain) != "" <==>
              exists i :: 0 <= i < |sentences| && NotStep(sentences[i]) && !IsNote(sentences[i])
  {
    NotesSplitOthers(sentences);
    OthersWhere(sentences, IsNote, (s: string) => NotStep(s) && IsNote(s));
    OthersWhere(sentences, (s: string) => !IsNote(s), (s: string) => NotStep(s) && !IsNote(s));
  }

  lemma OthersWhere(sentences: seq<string>, q: string -> bool, both: string -> bool)
    requires forall s :: both(s) == (NotStep(s) && q(s))
    ensures Filter(Others(sentences), q) != [] <==> exists i :: 0 <= i < |sentences| && both(sentences[i])
  {
    FilterFilter(sentences, NotStep, q, both);
    FilterNonEmpty(sentences, both);
  }

  /** Every step appears in the layout under its number, and every note
      appears emphasised. */
  lemma FormatStepsHolds(sentences: seq<string>)
    ensures forall i :: 0 <= i < |Steps(sentences)| ==>
              Contains(FormatSteps(sentences), StepLabel(i + 1) + Steps(sentences)[i])
    ensures forall i :: 0 <= i < |Notes(sentences)| ==>
              Contains(FormatSteps(sentences), Emphasised(Notes(sentences)[i]))
  {
    var steps := Join(NumberSteps(Steps(sentences)), "\n\n");
    var notes := ListBlock(NotesHeader, Notes(sentences), Emphasised);
    var more := ListBlock(MoreHeader, More(sentences), Plain);
    forall i | 0 <= i < |Steps(sentences)|
      ensures Contains(FormatSteps(sentences), StepLabel(i + 1) + Steps(sentences)[i])
    {
      JoinHolds(NumberSteps(Steps(sentences)), "\n\n", i);
      ContainsInLeft(steps, notes, StepLabel(i + 1) + Steps(sentences)[i]);
      ContainsInLeft(steps + notes, more, StepLabel(i + 1) + Steps(sentences)[i]);
    }
    forall i | 0 <= i < |Notes(sentences)|
      ensures Contains(FormatSteps(sentences), Emphasised(Notes(sentences)[i]))
    {
      ListBlockHolds(NotesHeader, Notes(sentences), Emphasised, i);
      ContainsInRight(steps, notes, Emphasised(Notes(sentences)[i]));
      ContainsInLeft(steps + notes, more, Emphasised(Notes(sentences)[i]));
    }
  }

  // ---------------------------------------------------------------------------
  // format_manual_response, after format_response

  /** "\n\n---\n*참고: 사용자 매뉴얼 a-b페이지*" */
  function PageNote(first: int, last: int): string {
    "\n\n---\n*참고: 사용자 매뉴얼 " + IntToString(first) + "-" + IntToString(last) + "페이지*"
  }

  /** `format_manual_response` once the body is formatted: a titled
      heading when the body has none and a title is given, then the page
      note when a page range is given. */
  function ManualResponse(formatted: string, title: string, pages: Option<(int, int)>): (r: string)
    ensures pages.Some? ==> IsSuffix(PageNote(pages.value.0, pages.value.1), r)
    ensures pages.None? && (title == "" || IsHeading(formatted)) ==> r == formatted
    ensures IsHeading(formatted) || title == "" ==> IsPrefix(formatted, r)
    ensures title != "" && !IsHeading(formatted) ==> IsPrefix("# " + DefaultIcon + " " + title + "\n\n" + formatted, r)
    ensures title != "" || IsHeading(formatted) ==> IsHeading(r)
  {
    var titled := if title != "" && !IsHeading(formatted) then "# " + DefaultIcon + " " + title + "\n\n" + formatted else formatted;
    if pages.Some? then titled + PageNote(pages.value.0, pages.value.1) else titled
  }

  /** The page note names both pages, and a non-negative page reads back. */
  lemma PageNoteReads(first: nat, last: nat)
    ensures Contains(PageNote(first, last), NatToString(first) + "-" + NatToString(last) + "페이지")
    ensures DecimalValue(IntToString(first)) == first && DecimalValue(IntToString(last)) == last
  {
    var lead := "\n\n---\n*참고: 사용자 매뉴얼 ";
    var pages := NatToString(first) + "-" + NatToString(last) + "페이지";
    assert PageNote(first, last) == lead + pages + "*";
    ContainsSelf(pages);
    ContainsInRight(lead, pages, pages);
    ContainsInLeft(lead + pages, "*", pages);
    NatToStringValue(first);
    NatToStringValue(last);
  }
}
