/** `_add_source_info`: drop any earlier "more details" footer line from an
    answer, then append a reference line (manual title plus page, chapter or
    section) and one fresh footer. */
module SourceInfo {
  import opened Text
  import opened Manual

  // ---------------------------------------------------------------------------
  // Removing earlier footer lines: `re.sub(marker + r'[^\n]*', '', answer)`

  /** Start of the footer line with the blank line before it. */
  const LongMarker: string := "\n\n💡 더 자세한 내용은"

  /** Start of the footer line. */
  const ShortMarker: string := "\n💡 더 자세한 내용은"

  /** A marker that opens a line and does not span lines. */
  predicate LineMarker(m: string) {
    |m| > 0 && m[0] == '\n' && '\n' !in m[1..]
  }

  /** The length of the first line of `s`: `[^\n]*` matched greedily. */
  function LineEnd(s: string): (n: nat)
    ensures n <= |s|
    ensures forall i :: 0 <= i < n ==> s[i] != '\n'
    ensures n < |s| ==> s[n] == '\n'
    decreases |s|
  {
    if |s| == 0 || s[0] == '\n' then 0 else 1 + LineEnd(s[1..])
  }

  /** Scanning left to right, every occurrence of `m` is deleted together
      with the rest of its line; scanning resumes at the line break. */
  function RemoveMarked(s: string, m: string): (r: string)
    requires |m| > 0
    ensures |r| <= |s|
    decreases |s|
  {
    if |s| == 0 then ""
    else if IsPrefix(m, s) then RemoveMarked(s[|m| + LineEnd(s[|m|..])..], m)
    else [s[0]] + RemoveMarked(s[1..], m)
  }

  /** A text without the marker is left alone. */
  lemma {:induction false} RemoveMarkedUnmarked(s: string, m: string)
    requires |m| > 0 && !Contains(s, m)
    ensures RemoveMarked(s, m) == s
    decreases |s|
  {
    if |s| > 0 {
      RemoveMarkedUnmarked(s[1..], m);
      assert s == [s[0]] + s[1..];
    }
  }

  /** The removal characterised at the first marker: text before it is
      kept as is, the marker and the rest of its line go, and the scan goes
      on from the line break after it. */
  lemma RemoveMarkedAt(a: string, m: string, b: string)
    requires LineMarker(m) && !Contains(a, m)
    ensures RemoveMarked(a + m + b, m) == a + RemoveMarked(b[LineEnd(b)..], m)
  {
    var s := a + m + b;
    assert s[..|a|] == a;
    assert s[|a|..] == m + b;
    RemoveMarkedFrom(s, m, |a|);
    RemoveMarkedAtStart(m, b);
  }

  /** The same, with the first marker given by its position `p`. */
  lemma {:induction false} RemoveMarkedFrom(s: string, m: string, p: nat)
    requires LineMarker(m) && p <= |s| && IsPrefix(m, s[p..]) && !Contains(s[..p], m)
    ensures RemoveMarked(s, m) == s[..p] + RemoveMarked(s[p..], m)
    decreases p
  {
    if p > 0 {
      NoMarkerBefore(s, m, p);
      assert s[1..][..p - 1] == s[1..p];
      assert !Contains(s[1..p], m) by {
        assert s[..p][1..] == s[1..p];
      }
      assert s[1..][p - 1..] == s[p..];
      RemoveMarkedFrom(s[1..], m, p - 1);
      RemoveMarkedCopiesHead(s, s[..p], m, RemoveMarked(s[p..], m));
    }
  }

  /** A line marker cannot start before the first occurrence and reach
      past it: the marker's line break would have to fall on a later
      character of the marker. */
  lemma NoMarkerBefore(s: string, m: string, p: nat)
    requires LineMarker(m) && 0 < p <= |s| && IsPrefix(m, s[p..]) && !Contains(s[..p], m)
    ensures !IsPrefix(m, s)
  {
    if p >= |m| {
      assert s[..p][..|m|] == s[..|m|];
    } else {
      assert s[p] == s[p..][0] == m[0] == '\n';
      assert m[p] == m[1..][p - 1];
      assert s[..|m|][p] != m[p];
    }
  }

  lemma RemoveMarkedAtStart(m: string, b: string)
    requires |m| > 0
    ensures RemoveMarked(m + b, m) == RemoveMarked(b[LineEnd(b)..], m)
  {
    var s := m + b;
    assert s[..|m|] == m;
    RemoveMarkedSkips(s, m);
    assert s[|m|..] == b;
  }

  /** A first character that does not start the marker is copied. */
  lemma RemoveMarkedCopiesHead(s: string, a: string, m: string, tail: string)
    requires |m| > 0 && |s| > 0 && !IsPrefix(m, s) && |a| > 0 && s[0] == a[0]
    requires RemoveMarked(s[1..], m) == a[1..] + tail
    ensures RemoveMarked(s, m) == a + tail
  {
    RemoveMarkedCopies(s, m);
    HeadThenRest(a, tail);
  }

  lemma HeadThenRest(a: string, t: string)
    requires |a| > 0
    ensures [a[0]] + (a[1..] + t) == a + t
  {
    assert a == [a[0]] + a[1..];
  }

  /** At a marker the scan skips the marker and the rest of its line. */
  lemma RemoveMarkedSkips(s: string, m: string)
    requires |m| > 0 && IsPrefix(m, s)
    ensures var t := s[|m|..]; RemoveMarked(s, m) == RemoveMarked(t[LineEnd(t)..], m)
  {
    var t := s[|m|..];
    assert s[|m| + LineEnd(t)..] == t[LineEnd(t)..];
  }

  lemma RemoveMarkedCopies(s: string, m: string)
    requires |m| > 0 && |s| > 0 && !IsPrefix(m, s)
    ensures RemoveMarked(s, m) == [s[0]] + RemoveMarked(s[1..], m)
  {
  }

  /** After a removal the scan resumes at a line break or at the end, so
      whatever it outputs from there starts with a line break. */
  lemma {:induction false} ResumesAtLineBreak(u: string, m: string)
    requires |m| > 0
    requires |u| == 0 || u[0] == '\n'
    ensures |RemoveMarked(u, m)| == 0 || RemoveMarked(u, m)[0] == '\n'
    decreases |u|
  {
    if |u| > 0 && IsPrefix(m, u) {
      var rest := u[|m|..];
      var n := LineEnd(rest);
      ResumesAtLineBreak(u[|m| + n..], m);
    }
  }

  /** Up to the next line break, the output of a scan that does not start
      at a marker copies its input. */
  lemma {:induction false} CopiesFirstLine(s: string, m: string, j: nat)
    requires |m| > 0
    requires |s| > 0 && !IsPrefix(m, s)
    requires j <= |RemoveMarked(s, m)|
    requires forall k :: 1 <= k < j ==> RemoveMarked(s, m)[k] != '\n'
    ensures j <= |s| && RemoveMarked(s, m)[..j] == s[..j]
    decreases |s|
  {
    var out := RemoveMarked(s, m);
    var t := s[1..];
    var rest := RemoveMarked(t, m);
    assert out == [s[0]] + rest;
    if j >= 2 {
      assert |t| > 0;
      assert rest[0] == out[1] != '\n';
      if IsPrefix(m, t) {
        var n := LineEnd(t[|m|..]);
        ResumesAtLineBreak(t[|m| + n..], m);
        assert false;
      } else {
        forall k | 1 <= k < j - 1 ensures rest[k] != '\n' {
          assert rest[k] == out[k + 1];
        }
        CopiesFirstLine(t, m, j - 1);
        assert out[..j] == [s[0]] + rest[..j - 1];
        assert s[..j] == [s[0]] + t[..j - 1];
      }
    }
  }

  /** No occurrence of a line marker survives its removal: text spliced
      together around a removed line starts with a line break, so it cannot
      form a new marker with what precedes it. */
  lemma {:induction false} RemoveMarkedClears(s: string, m: string)
    requires LineMarker(m)
    ensures !Contains(RemoveMarked(s, m), m)
    decreases |s|
  {
    if |s| > 0 {
      if IsPrefix(m, s) {
        RemoveMarkedClears(s[|m| + LineEnd(s[|m|..])..], m);
      } else {
        RemoveMarkedClears(s[1..], m);
        KeptHeadClears(s, m);
      }
    }
  }

  /** Keeping the first character cannot create a marker: an occurrence at
      the start would be a whole line copied from the input, which does not
      start with the marker; a later one is an occurrence in the rest. */
  lemma KeptHeadClears(s: string, m: string)
    requires LineMarker(m)
    requires |s| > 0 && !IsPrefix(m, s)
    requires !Contains(RemoveMarked(s[1..], m), m)
    ensures !Contains(RemoveMarked(s, m), m)
  {
    var out := RemoveMarked(s, m);
    var rest := RemoveMarked(s[1..], m);
    assert out == [s[0]] + rest;
    ContainsIffOccurs(out, m);
    ContainsIffOccurs(rest, m);
    forall k | OccursAt(out, m, k) ensures false {
      if k == 0 {
        forall i | 1 <= i < |m| ensures out[i] != '\n' {
          assert out[i] == m[i] && m[i] in m[1..];
        }
        CopiesFirstLine(s, m, |m|);
      } else {
        OccursShifted(s[0], rest, m, k);
      }
    }
  }

  lemma OccursShifted(c: char, rest: string, m: string, k: int)
    requires k > 0 && OccursAt([c] + rest, m, k)
    ensures OccursAt(rest, m, k - 1)
  {
    assert ([c] + rest)[k..k + |m|] == rest[k - 1..k - 1 + |m|];
  }

  lemma MarkersAreLineMarkers()
    ensures LineMarker(ShortMarker) && LineMarker(LongMarker[1..])
    ensures Contains(LongMarker, ShortMarker)
  {
    assert LongMarker[1..] == ShortMarker;
    ContainsAt(LongMarker, ShortMarker, 1);
  }

  /** The two substitutions of `_add_source_info`. */
  function StripFooter(answer: string): (r: string)
    ensures !Contains(r, ShortMarker) && !Contains(r, LongMarker)
    ensures !Contains(answer, ShortMarker) ==> r == answer
  {
    MarkersAreLineMarkers();
    var once := RemoveMarked(answer, LongMarker);
    RemoveMarkedClears(once, ShortMarker);
    NoLongWithoutShort(RemoveMarked(once, ShortMarker));
    UnmarkedAnswer(answer);
    RemoveMarked(once, ShortMarker)
  }

  lemma NoLongWithoutShort(s: string)
    requires !Contains(s, ShortMarker)
    ensures !Contains(s, LongMarker)
  {
    MarkersAreLineMarkers();
    if Contains(s, LongMarker) {
      ContainsTransitive(s, LongMarker, ShortMarker);
    }
  }

  lemma UnmarkedAnswer(answer: string)
    ensures !Contains(answer, ShortMarker) ==>
              RemoveMarked(RemoveMarked(answer, LongMarker), ShortMarker) == answer
  {
    if !Contains(answer, ShortMarker) {
      NoLongWithoutShort(answer);
      RemoveMarkedUnmarked(answer, LongMarker);
      RemoveMarkedUnmarked(answer, ShortMarker);
    }
  }

  /** A first line that is not a marker line passes through unchanged. */
  lemma {:induction false} KeepsFirstLine(s: string, m: string, j: nat)
    requires |m| > 0 && m[0] == '\n'
    requires j <= |s| && forall i :: 0 <= i < j ==> s[i] != '\n'
    ensures j <= |RemoveMarked(s, m)| && RemoveMarked(s, m)[..j] == s[..j]
    decreases j
  {
    if j > 0 {
      assert s[0] != m[0];
      KeepsFirstLine(s[1..], m, j - 1);
      assert RemoveMarked(s, m) == [s[0]] + RemoveMarked(s[1..], m);
      assert s[..j] == [s[0]] + s[1..][..j - 1];
    }
  }

  /** Removing the footers keeps an answer's opening line. */
  lemma StripFooterKeepsFirstLine(answer: string, j: nat)
    requires j <= |answer| && forall i :: 0 <= i < j ==> answer[i] != '\n'
    ensures j <= |StripFooter(answer)| && StripFooter(answer)[..j] == answer[..j]
  {
    var once := RemoveMarked(answer, LongMarker);
    KeepsFirstLine(answer, LongMarker, j);
    assert once[..j] == answer[..j];
    KeepsFirstLine(once, ShortMarker, j);
  }

  // ---------------------------------------------------------------------------
  // Page text from `page_range`

  /** `str(start)` for one page or equal bounds, `f"{start}-{end}"` for a
      range, "" for no range; elements after the second are ignored. */
  function PageString(pageRange: seq<int>): (r: string)
    ensures r == "" <==> pageRange == []
  {
    if |pageRange| == 0 then ""
    else if |pageRange| > 1 && pageRange[0] != pageRange[1] then
      IntToString(pageRange[0]) + "-" + IntToString(pageRange[1])
    else IntToString(pageRange[0])
  }

  /** The page text of non-negative pages can be read back: splitting at '-'
      gives the decimal numerals of the first page and, for a real range,
      the last page. */
  lemma PageStringRoundTrip(a: nat, b: nat)
    ensures Split(PageString([a]), '-') == [NatToString(a)]
    ensures Split(PageString([a, a]), '-') == [NatToString(a)]
    ensures a != b ==> Split(PageString([a, b]), '-') == [NatToString(a), NatToString(b)]
    ensures DecimalValue(NatToString(a)) == a && DecimalValue(NatToString(b)) == b
  {
    NatToStringValue(a);
    NatToStringValue(b);
    NoDashInDigits(NatToString(a));
    NoDashInDigits(NatToString(b));
    SplitNoSeparator(NatToString(a), '-');
    if a != b {
      var pieces := [NatToString(a), NatToString(b)];
      SplitJoin(pieces, '-');
      assert Join(pieces, "-") == NatToString(a) + "-" + NatToString(b) by {
        assert pieces[1..] == [NatToString(b)];
      }
    }
  }

  lemma NoDashInDigits(s: string)
    requires AllDigits(s)
    ensures '-' !in s
  {
    forall i | 0 <= i < |s| ensures s[i] != '-' {
      assert IsDigit(s[i]);
    }
  }

  // ---------------------------------------------------------------------------
  // The reference line

  /** The section fields `_add_source_info` looks up. */
  datatype SourceFields = SourceFields(manualTitle: string, page: string, chapter: string, sectionTitle: string)

  /** `str.isdigit()` on ASCII digits. */
  predicate IsDigitText(s: string) {
    |s| > 0 && AllDigits(s)
  }

  /** The page part: digits and ranges get a "페이지" suffix, text that
      already names a page is kept as is. */
  function PageLabel(page: string): (r: string)
    ensures r == "" <==> Strip(page) == "" || Strip(page) == "None"
    ensures r != "" ==> IsPrefix(" " + Strip(page), r)
    ensures IsDigitText(Strip(page)) || '-' in Strip(page) ==> r == " " + Strip(page) + "페이지"
  {
    var p := Strip(page);
    if p == "" || p == "None" then ""
    else if IsDigitText(p) || '-' in p then " " + p + "페이지"
    else if Contains(p, "페이지") || 'p' in Lower(p) then " " + p
    else " " + p + "페이지"
  }

  /** What follows the manual title: the page when there is one, else the
      chapter, else a section title that differs from the manual title. */
  function Citation(f: SourceFields): (r: string)
    ensures f.page != "" ==> r == PageLabel(f.page)
    ensures f.page == "" && f.chapter != "" ==>
              r == (if Strip(f.chapter) in {"", "None"} then "" else " (섹션 " + Strip(f.chapter) + ")")
    ensures f.page == "" && f.chapter == "" && (f.sectionTitle == "" || f.sectionTitle == f.manualTitle) ==> r == ""
  {
    if f.page != "" then PageLabel(f.page)
    else if f.chapter != "" then
      var c := Strip(f.chapter);
      if c != "" && c != "None" then " (섹션 " + c + ")" else ""
    else if f.sectionTitle != "" && f.sectionTitle != f.manualTitle then
      var t := Strip(f.sectionTitle);
      if t != "" && t != "None" then " (" + t + ")" else ""
    else ""
  }

  /** The fields of a search result: it has `title` (serving as manual
      title and section title), `page_range` and `section_number`, and
      none of the other keys. */
  function FieldsOf(s: Section): SourceFields {
    SourceFields(s.title, PageString(s.pageRange), s.sectionNumber, s.title)
  }

  const ReferencePrefix: string := "\n\n**참고:** "

  const Footer: string := "\n\n💡 더 자세한 내용은 공식 매뉴얼에서 확인하세요."

  /** `_add_source_info(answer, section)`. */
  function AddSourceInfo(answer: string, s: Section): (r: string)
    ensures IsPrefix(StripFooter(answer), r)
    ensures IsSuffix(Footer, r)
  {
    StripFooter(answer) + ReferencePrefix + s.title + Citation(FieldsOf(s)) + Footer
  }

  /** For a search result the page is always printed with "페이지", the
      chapter only when there are no pages, and the section-title form can
      never appear, because it equals the manual title. */
  lemma SectionCitation(s: Section)
    ensures s.pageRange != [] ==> Citation(FieldsOf(s)) == " " + PageString(s.pageRange) + "페이지"
    ensures s.pageRange == [] && s.sectionNumber != "" && Strip(s.sectionNumber) !in {"", "None"} ==>
              Citation(FieldsOf(s)) == " (섹션 " + Strip(s.sectionNumber) + ")"
    ensures s.pageRange == [] && (s.sectionNumber == "" || Strip(s.sectionNumber) in {"", "None"}) ==>
              Citation(FieldsOf(s)) == ""
  {
    if s.pageRange != [] {
      PageStringShape(s.pageRange);
    }
  }

  /** Rendered pages have no surrounding whitespace and are digits or
      contain '-'. */
  lemma PageStringShape(pageRange: seq<int>)
    requires pageRange != []
    ensures Strip(PageString(pageRange)) == PageString(pageRange)
    ensures IsDigitText(PageString(pageRange)) || '-' in PageString(pageRange)
  {
    var p := PageString(pageRange);
    IntTextEnds(pageRange[0]);
    if |pageRange| > 1 && pageRange[0] != pageRange[1] {
      IntTextEnds(pageRange[1]);
      RangeTextShape(IntToString(pageRange[0]), IntToString(pageRange[1]));
    } else {
      SingleTextShape(IntToString(pageRange[0]));
    }
    StripIdentity(p);
  }

  lemma SingleTextShape(t: string)
    requires |t| > 0 && !IsSpace(t[0]) && IsDigit(t[|t| - 1])
    ensures IsStripped(t)
  {
  }

  lemma RangeTextShape(first: string, last: string)
    requires |first| > 0 && !IsSpace(first[0])
    requires |last| > 0 && IsDigit(last[|last| - 1])
    ensures IsStripped(first + "-" + last) && '-' in first + "-" + last
  {
    var p := first + "-" + last;
    assert p[|first|] == '-';
    assert p[0] == first[0] && p[|p| - 1] == last[|last| - 1];
  }

  /** `str(i)` starts with a digit or '-' and ends with a digit. */
  lemma IntTextEnds(i: int)
    ensures !IsSpace(IntToString(i)[0]) && IsDigit(IntToString(i)[|IntToString(i)| - 1])
    ensures IsDigitText(IntToString(i)) || '-' in IntToString(i)
  {
    var r := IntToString(i);
    if i < 0 {
      var n := NatToString(-i);
      assert r == "-" + n;
      assert r[|r| - 1] == n[|n| - 1];
    }
  }

  // ---------------------------------------------------------------------------
  // Exactly one footer

  /** Rendered pages consist of digits and '-'. */
  lemma PageChars(pageRange: seq<int>)
    ensures forall c :: c in PageString(pageRange) ==> IsDigit(c) || c == '-'
  {
    if |pageRange| > 0 {
      IntChars(pageRange[0]);
      if |pageRange| > 1 {
        IntChars(pageRange[1]);
      }
    }
  }

  lemma IntChars(i: int)
    ensures forall c :: c in IntToString(i) ==> IsDigit(c) || c == '-'
  {
    if i < 0 {
      assert IntToString(i) == "-" + NatToString(-i);
    }
  }

  /** A section whose number is a single line gets a single-line citation. */
  lemma CitationIsOneLine(s: Section)
    requires '\n' !in s.sectionNumber
    ensures '\n' !in Citation(FieldsOf(s))
  {
    var c := Citation(FieldsOf(s));
    if s.pageRange != [] {
      PageCitationIsOneLine(s);
    } else {
      StripKeepsOut(s.sectionNumber, '\n');
      var n := Strip(s.sectionNumber);
      assert c == "" || c == " (섹션 " + n + ")";
    }
  }

  lemma PageCitationIsOneLine(s: Section)
    requires s.pageRange != []
    ensures '\n' !in Citation(FieldsOf(s))
  {
    SectionCitation(s);
    PageChars(s.pageRange);
    var p := PageString(s.pageRange);
    assert Citation(FieldsOf(s)) == " " + p + "페이지";
  }

  /** The reference line cannot hold a footer marker: its only line breaks
      are the two that open it. */
  lemma ReferenceUnmarked(title: string, citation: string)
    requires '\n' !in title && '\n' !in citation
    ensures !Contains(ReferencePrefix + title + citation, ShortMarker)
  {
    var y := ReferencePrefix + title + citation;
    var m := ShortMarker;
    ContainsIffOccurs(y, m);
    assert m[0] == '\n' && m[1] == '💡';
    assert y[..|ReferencePrefix|] == ReferencePrefix;
    assert forall i :: 2 <= i < |ReferencePrefix| ==> ReferencePrefix[i] != '\n';
    forall p | 0 <= p && p + |m| <= |y| ensures !OccursAt(y, m, p) {
      assert y[p..p + |m|][0] == y[p] && y[p..p + |m|][1] == y[p + 1];
      if p >= |ReferencePrefix| {
        assert y[p] in title + citation;
      } else if p >= 2 {
        assert y[p] == ReferencePrefix[p];
      } else {
        assert y[p + 1] == ReferencePrefix[p + 1];
      }
    }
  }

  /** A line marker cannot straddle the join with text that starts a new
      line. */
  lemma NoMarkerAcross(x: string, y: string, m: string)
    requires LineMarker(m)
    requires !Contains(x, m) && !Contains(y, m)
    requires |y| > 0 && y[0] == '\n'
    ensures !Contains(x + y, m)
  {
    var xy := x + y;
    ContainsIffOccurs(x, m);
    ContainsIffOccurs(y, m);
    ContainsIffOccurs(xy, m);
    forall p | 0 <= p && p + |m| <= |xy| ensures !OccursAt(xy, m, p) {
      if p + |m| <= |x| {
        assert xy[p..p + |m|] == x[p..p + |m|];
        assert !OccursAt(x, m, p);
      } else if p < |x| {
        var q := |x| - p;
        assert xy[|x|] == '\n';
        assert m[q] in m[1..];
        assert m[q] != '\n';
        assert xy[p..p + |m|][q] == xy[|x|];
      } else {
        assert forall j :: |x| <= j < |xy| ==> xy[j] == y[j - |x|];
        assert xy[p..p + |m|] == y[p - |x|..p - |x| + |m|];
        assert !OccursAt(y, m, p - |x|);
      }
    }
  }

  /** Whatever footers the answer carried, the result has exactly one: the
      text before the final footer holds no footer marker. */
  lemma SingleFooter(answer: string, s: Section)
    requires '\n' !in s.title && '\n' !in s.sectionNumber
    ensures IsSuffix(Footer, AddSourceInfo(answer, s))
    ensures !Contains(AddSourceInfo(answer, s)[..|AddSourceInfo(answer, s)| - |Footer|], ShortMarker)
    ensures Contains(Footer, ShortMarker)
  {
    var y := ReferencePrefix + s.title + Citation(FieldsOf(s));
    CitationIsOneLine(s);
    ReferenceUnmarked(s.title, Citation(FieldsOf(s)));
    AddSourceInfoParts(answer, s);
    FooterAfter(StripFooter(answer), y);
    FooterMarked();
  }

  lemma AddSourceInfoParts(answer: string, s: Section)
    ensures AddSourceInfo(answer, s) == (StripFooter(answer) + (ReferencePrefix + s.title + Citation(FieldsOf(s)))) + Footer
  {
    Regroup(StripFooter(answer), ReferencePrefix, s.title, Citation(FieldsOf(s)), Footer);
  }

  lemma Regroup(a: string, b: string, c: string, d: string, e: string)
    ensures a + b + c + d + e == (a + (b + c + d)) + e
  {
  }

  lemma FooterAfter(x: string, y: string)
    requires !Contains(x, ShortMarker) && !Contains(y, ShortMarker)
    requires |y| > 0 && y[0] == '\n'
    ensures !Contains((x + y + Footer)[..|x + y + Footer| - |Footer|], ShortMarker)
  {
    MarkersAreLineMarkers();
    NoMarkerAcross(x, y, ShortMarker);
    BeforeFooter(x + y);
  }

  lemma BeforeFooter(t: string)
    ensures (t + Footer)[..|t + Footer| - |Footer|] == t
  {
  }

  lemma FooterMarked()
    ensures Contains(Footer, ShortMarker)
  {
    var tail := " 공식 매뉴얼에서 확인하세요.";
    assert Footer == "\n" + (ShortMarker + tail);
    ContainsSelf(ShortMarker);
    ContainsInLeft(ShortMarker, tail, ShortMarker);
    ContainsInRight("\n", ShortMarker + tail, ShortMarker);
  }
}
