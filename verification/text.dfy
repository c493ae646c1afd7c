/** The small part of Python's `str` behaviour that the backend relies on:
    whitespace, ASCII lower-casing, `strip`, substring tests, `split` on one
    character, `join`, whitespace collapsing and decimal rendering of integers.
    Strings are sequences of Unicode scalar values, as Python's `str` is. */
module Text {

  /** Python's `str.isspace()`, which is also what `split()`, `strip()` and
      the regular-expression class `\s` treat as whitespace. */
  predicate IsSpace(c: char) {
    || ('\t' <= c <= '\r')
    || ('\U{1C}' <= c <= '\U{1F}')
    || c == ' '
    || c == '\U{85}'
    || c == '\U{A0}'
    || c == '\U{1680}'
    || ('\U{2000}' <= c <= '\U{200A}')
    || c == '\U{2028}'
    || c == '\U{2029}'
    || c == '\U{202F}'
    || c == '\U{205F}'
    || c == '\U{3000}'
  }

  predicate IsAsciiUpper(c: char) { 'A' <= c <= 'Z' }

  predicate IsDigit(c: char) { '0' <= c <= '9' }

  /** `str.lower()` restricted to ASCII: letters outside A-Z are unchanged. */
  function LowerChar(c: char): (r: char)
    ensures !IsAsciiUpper(r)
    ensures IsAsciiUpper(c) || r == c
  {
    if IsAsciiUpper(c) then (c as int + 32) as char else c
  }

  function Lower(s: string): (r: string)
    ensures |r| == |s|
    ensures forall i :: 0 <= i < |s| ==> r[i] == LowerChar(s[i])
  {
    seq(|s|, i requires 0 <= i < |s| => LowerChar(s[i]))
  }

  predicate NoAsciiUpper(s: string) {
    forall i :: 0 <= i < |s| ==> !IsAsciiUpper(s[i])
  }

  /** Lower-casing is the identity exactly on strings without upper-case ASCII letters. */
  lemma LowerIdentity(s: string)
    ensures Lower(s) == s <==> NoAsciiUpper(s)
  {
    if NoAsciiUpper(s) {
      assert forall i :: 0 <= i < |s| ==> Lower(s)[i] == s[i];
    } else {
      var i :| 0 <= i < |s| && IsAsciiUpper(s[i]);
      assert Lower(s)[i] != s[i];
    }
  }

  lemma LowerIdempotent(s: string)
    ensures Lower(Lower(s)) == Lower(s)
  {
    LowerIdentity(Lower(s));
  }

  lemma LowerAppend(a: string, b: string)
    ensures Lower(a + b) == Lower(a) + Lower(b)
  {
    assert forall i :: 0 <= i < |a + b| ==> Lower(a + b)[i] == (Lower(a) + Lower(b))[i];
  }

  // ---------------------------------------------------------------------------
  // strip()

  function StripLeft(s: string): (r: string)
    ensures |r| <= |s|
    ensures r == s[|s| - |r|..]
    ensures |r| > 0 ==> !IsSpace(r[0])
    ensures forall i :: 0 <= i < |s| - |r| ==> IsSpace(s[i])
    decreases |s|
  {
    if |s| > 0 && IsSpace(s[0]) then StripLeft(s[1..]) else s
  }

  function StripRight(s: string): (r: string)
    ensures |r| <= |s|
    ensures r == s[..|r|]
    ensures |r| > 0 ==> !IsSpace(r[|r| - 1])
    ensures forall i :: |r| <= i < |s| ==> IsSpace(s[i])
    decreases |s|
  {
    if |s| > 0 && IsSpace(s[|s| - 1]) then StripRight(s[..|s| - 1]) else s
  }

  /** Python's `str.strip()`. */
  function Strip(s: string): string {
    StripRight(StripLeft(s))
  }

  predicate IsStripped(s: string) {
    |s| == 0 || (!IsSpace(s[0]) && !IsSpace(s[|s| - 1]))
  }

  /** The number of whitespace characters `strip()` removes from the front. */
  function LeadingSpaces(s: string): nat {
    |s| - |StripLeft(s)|
  }

  /** `strip()` cuts whitespace off both ends and nothing else: the text is
      the stripped text with only whitespace before and after it, and the
      stripped text has none at either end. On text with none there
      already it is the identity. */
  lemma StripSpec(s: string)
    ensures IsStripped(Strip(s))
    ensures IsStripped(s) ==> Strip(s) == s
    ensures LeadingSpaces(s) + |Strip(s)| <= |s|
    ensures s[LeadingSpaces(s)..LeadingSpaces(s) + |Strip(s)|] == Strip(s)
    ensures forall i :: 0 <= i < LeadingSpaces(s) ==> IsSpace(s[i])
    ensures forall i :: LeadingSpaces(s) + |Strip(s)| <= i < |s| ==> IsSpace(s[i])
  {
    StripEnds(s);
    StripFrame(s, StripLeft(s), Strip(s));
  }

  lemma StripEnds(s: string)
    ensures IsStripped(Strip(s))
    ensures IsStripped(s) ==> Strip(s) == s
  {
    var l := StripLeft(s);
    var r := StripRight(l);
    if |r| > 0 {
      assert r[0] == l[0];
    }
  }

  /** Where the stripped text sits in `s`: `l` is a suffix of `s`, `r` a
      prefix of `l` followed only by whitespace. */
  lemma StripFrame(s: string, l: string, r: string)
    requires |l| <= |s| && l == s[|s| - |l|..]
    requires |r| <= |l| && r == l[..|r|]
    requires forall i :: |r| <= i < |l| ==> IsSpace(l[i])
    ensures s[|s| - |l|..|s| - |l| + |r|] == r
    ensures forall i :: |s| - |l| + |r| <= i < |s| ==> IsSpace(s[i])
  {
    var k := |s| - |l|;
    forall i | k + |r| <= i < |s|
      ensures IsSpace(s[i])
    {
      assert s[i] == l[i - k];
    }
  }

  /** `strip()` changes nothing on text without whitespace at its ends. */
  lemma StripIdentity(s: string)
    requires IsStripped(s)
    ensures Strip(s) == s
  {
    StripEnds(s);
  }

  /** `strip()` leaves no whitespace at either end. */
  lemma StripStripped(s: string)
    ensures IsStripped(Strip(s))
  {
    StripEnds(s);
  }

  /** `strip()` only removes characters. */
  lemma StripKeepsOut(p: string, c: char)
    requires c !in p
    ensures c !in Strip(p)
  {
    var l := StripLeft(p);
    assert forall i :: 0 <= i < |l| ==> l[i] == p[|p| - |l| + i];
    var r := StripRight(l);
    assert forall i :: 0 <= i < |r| ==> r[i] == l[i];
  }

  // ---------------------------------------------------------------------------
  // Substrings: Python's `p in s`, `s.startswith(p)`, `s.endswith(p)`.

  predicate IsPrefix(p: string, s: string) {
    |p| <= |s| && s[..|p|] == p
  }

  /** A prefix of `a` is a prefix of anything `a` starts. */
  lemma PrefixExtends(p: string, a: string, b: string)
    requires IsPrefix(p, a)
    ensures IsPrefix(p, a + b)
  {
    assert (a + b)[..|p|] == a[..|p|];
  }

  predicate IsSuffix(p: string, s: string) {
    |p| <= |s| && s[|s| - |p|..] == p
  }

  /** `p in s`: some position of `s` starts with `p`. The empty string is in every string. */
  predicate Contains(s: string, p: string)
    decreases |s|
  {
    IsPrefix(p, s) || (|s| > 0 && Contains(s[1..], p))
  }

  predicate OccursAt(s: string, p: string, i: int) {
    0 <= i && i + |p| <= |s| && s[i..i + |p|] == p
  }

  /** The recursive definition agrees with the positional one. */
  lemma ContainsIffOccurs(s: string, p: string)
    ensures Contains(s, p) <==> exists i :: OccursAt(s, p, i)
    decreases |s|
  {
    if IsPrefix(p, s) {
      assert OccursAt(s, p, 0);
    } else if |s| > 0 {
      ContainsIffOccurs(s[1..], p);
      if Contains(s[1..], p) {
        var i :| OccursAt(s[1..], p, i);
        assert s[1..][i..i + |p|] == s[i + 1..i + 1 + |p|];
        assert OccursAt(s, p, i + 1);
      }
      if exists i :: OccursAt(s, p, i) {
        var i :| OccursAt(s, p, i);
        assert i != 0;
        assert s[1..][i - 1..i - 1 + |p|] == s[i..i + |p|];
        assert OccursAt(s[1..], p, i - 1);
      }
    }
  }

  lemma ContainsLength(s: string, p: string)
    ensures Contains(s, p) ==> |p| <= |s|
  {
    ContainsIffOccurs(s, p);
  }

  lemma ContainsAt(s: string, p: string, i: int)
    requires OccursAt(s, p, i)
    ensures Contains(s, p)
  {
    ContainsIffOccurs(s, p);
  }

  lemma ContainsSelf(s: string)
    ensures Contains(s, s)
  {
    assert IsPrefix(s, s);
  }

  /** Every character of a substring occurs in the whole string; this is how
      the model shows that a literal name is absent from a literal file name. */
  lemma ContainsChars(s: string, p: string)
    requires Contains(s, p)
    ensures forall c :: c in p ==> c in s
  {
    ContainsIffOccurs(s, p);
    var i :| OccursAt(s, p, i);
    forall c | c in p
      ensures c in s
    {
      var j :| 0 <= j < |p| && p[j] == c;
      assert s[i..i + |p|][j] == s[i + j];
    }
  }

  /** A string lacking one of the characters of `p` does not contain `p`. */
  lemma MissingChar(s: string, p: string, c: char)
    requires c in p && c !in s
    ensures !Contains(s, p)
  {
    ContainsIffOccurs(s, p);
    var j :| 0 <= j < |p| && p[j] == c;
    forall i | 0 <= i && i + |p| <= |s| ensures !OccursAt(s, p, i) {
      assert s[i..i + |p|][j] == s[i + j];
    }
  }

  lemma ContainsTransitive(s: string, q: string, p: string)
    requires Contains(s, q) && Contains(q, p)
    ensures Contains(s, p)
  {
    ContainsIffOccurs(s, q);
    ContainsIffOccurs(q, p);
    var i :| OccursAt(s, q, i);
    var j :| OccursAt(q, p, j);
    forall k | 0 <= k < |p|
      ensures s[i + j + k] == p[k]
    {
      assert q[j + k] == p[k];
      assert s[i + j + k] == q[j + k];
    }
    assert s[i + j..i + j + |p|] == p;
    ContainsAt(s, p, i + j);
  }

  lemma ContainsPrefix(s: string, p: string)
    requires IsPrefix(p, s)
    ensures Contains(s, p)
  {
  }

  lemma ContainsInLeft(a: string, b: string, p: string)
    requires Contains(a, p)
    ensures Contains(a + b, p)
  {
    ContainsIffOccurs(a, p);
    var i :| OccursAt(a, p, i);
    assert (a + b)[i..i + |p|] == a[i..i + |p|];
    ContainsAt(a + b, p, i);
  }

  lemma ContainsInRight(a: string, b: string, p: string)
    requires Contains(b, p)
    ensures Contains(a + b, p)
  {
    ContainsIffOccurs(b, p);
    var i :| OccursAt(b, p, i);
    assert (a + b)[|a| + i..|a| + i + |p|] == b[i..i + |p|];
    ContainsAt(a + b, p, |a| + i);
  }

  /** A substring of a string is found again after ASCII lower-casing, lower-cased. */
  lemma ContainsLower(s: string, p: string)
    requires Contains(s, p)
    ensures Contains(Lower(s), Lower(p))
  {
    ContainsIffOccurs(s, p);
    var i :| OccursAt(s, p, i);
    assert Lower(s)[i..i + |p|] == Lower(p);
    ContainsAt(Lower(s), Lower(p), i);
  }

  /** Python's `any(w in s for w in words)`. */
  predicate ContainsAny(s: string, words: seq<string>) {
    exists i :: 0 <= i < |words| && Contains(s, words[i])
  }

  /** `s.rfind(c)`: the index of the last `c`, or -1 when there is none. */
  function LastIndex(s: string, c: char): (r: int)
    ensures -1 <= r < |s|
    ensures r >= 0 ==> s[r] == c
    ensures forall i :: r < i < |s| ==> s[i] != c
    ensures r == -1 <==> c !in s
    decreases |s|
  {
    if |s| == 0 then -1
    else if s[|s| - 1] == c then |s| - 1
    else
      var r := LastIndex(s[..|s| - 1], c);
      assert forall i :: 0 <= i < |s| - 1 ==> s[..|s| - 1][i] == s[i];
      r
  }

  // ---------------------------------------------------------------------------
  // split(c) and join

  /** Python's `s.split(c)` for a one-character separator: always at least one
      piece, and no piece contains the separator. */
  function Split(s: string, c: char): (r: seq<string>)
    ensures |r| >= 1
    ensures forall i :: 0 <= i < |r| ==> c !in r[i]
    decreases |s|
  {
    if |s| == 0 then [""]
    else
      var rest := Split(s[1..], c);
      if s[0] == c then [""] + rest else [[s[0]] + rest[0]] + rest[1..]
  }

  /** Python's `sep.join(pieces)`. */
  function Join(pieces: seq<string>, sep: string): string
    decreases |pieces|
  {
    if |pieces| == 0 then ""
    else if |pieces| == 1 then pieces[0]
    else pieces[0] + sep + Join(pieces[1..], sep)
  }

  /** Joining the pieces of a split with the separator gives back the text. */
  lemma {:induction false} JoinSplit(s: string, c: char)
    ensures Join(Split(s, c), [c]) == s
    decreases |s|
  {
    if |s| > 0 {
      var rest := Split(s[1..], c);
      JoinSplit(s[1..], c);
      if s[0] == c {
        assert Split(s, c) == [""] + rest;
        if |rest| == 1 {
          assert Join(rest, [c]) == rest[0];
        }
        assert Join([""] + rest, [c]) == "" + [c] + Join(rest, [c]);
      } else {
        var first := [s[0]] + rest[0];
        assert Split(s, c) == [first] + rest[1..];
        if |rest| == 1 {
          assert Join([first] + rest[1..], [c]) == first;
          assert s == [s[0]] + s[1..];
        } else {
          assert rest == [rest[0]] + rest[1..];
          assert Join(rest, [c]) == rest[0] + [c] + Join(rest[1..], [c]);
          assert Join([first] + rest[1..], [c]) == first + [c] + Join(rest[1..], [c]);
          assert s == [s[0]] + s[1..];
        }
      }
    }
  }

  lemma {:induction false} SplitNoSeparator(a: string, c: char)
    requires c !in a
    ensures Split(a, c) == [a]
    decreases |a|
  {
    if |a| > 0 {
      SplitNoSeparator(a[1..], c);
      assert [a[0]] + a[1..] == a;
    }
  }

  lemma {:induction false} SplitAtSeparator(a: string, c: char, b: string)
    requires c !in a
    ensures Split(a + [c] + b, c) == [a] + Split(b, c)
    decreases |a|
  {
    var s := a + [c] + b;
    if |a| == 0 {
      assert s[1..] == b;
    } else {
      assert s[1..] == a[1..] + [c] + b;
      SplitAtSeparator(a[1..], c, b);
      assert [a[0]] + a[1..] == a;
    }
  }

  /** Splitting a join of separator-free pieces gives back the pieces. */
  lemma {:induction false} SplitJoin(pieces: seq<string>, c: char)
    requires |pieces| >= 1
    requires forall i :: 0 <= i < |pieces| ==> c !in pieces[i]
    ensures Split(Join(pieces, [c]), c) == pieces
    decreases |pieces|
  {
    if |pieces| == 1 {
      SplitNoSeparator(pieces[0], c);
    } else {
      SplitJoin(pieces[1..], c);
      assert Join(pieces, [c]) == pieces[0] + [c] + Join(pieces[1..], [c]);
      SplitAtSeparator(pieces[0], c, Join(pieces[1..], [c]));
      assert pieces == [pieces[0]] + pieces[1..];
    }
  }

  // ---------------------------------------------------------------------------
  // re.sub(r'\s+', ' ', s)

  /** Every maximal run of whitespace becomes one space: the result has
      the same non-whitespace characters in the same order, its only
      whitespace is ' ', no two spaces are adjacent, and a run at the
      front stays a space at the front. Text without whitespace is
      unchanged. */
  function CollapseSpaces(s: string): (r: string)
    ensures |r| <= |s|
    ensures Visible(r) == Visible(s)
    ensures forall i :: 0 <= i < |r| && IsSpace(r[i]) ==> r[i] == ' '
    ensures forall i :: 0 <= i < |r| - 1 && r[i] == ' ' ==> r[i + 1] != ' '
    ensures |s| > 0 ==> |r| > 0 && (IsSpace(s[0]) <==> r[0] == ' ')
    ensures (forall i :: 0 <= i < |s| ==> !IsSpace(s[i])) ==> r == s
    decreases |s|
  {
    if |s| == 0 then ""
    else if IsSpace(s[0]) then
      var t := StripLeft(s);
      VisibleStripLeft(s);
      VisibleSpace(CollapseSpaces(t));
      " " + CollapseSpaces(t)
    else
      VisibleChar(s[0], CollapseSpaces(s[1..]));
      VisibleChar(s[0], s[1..]);
      assert s == [s[0]] + s[1..];
      [s[0]] + CollapseSpaces(s[1..])
  }

  /** The non-whitespace characters, in order. */
  function Visible(s: string): string
    decreases |s|
  {
    if |s| == 0 then ""
    else if IsSpace(s[0]) then Visible(s[1..])
    else [s[0]] + Visible(s[1..])
  }

  lemma VisibleSpace(s: string)
    ensures Visible(" " + s) == Visible(s)
  {
    assert (" " + s)[1..] == s;
  }

  lemma VisibleChar(c: char, s: string)
    requires !IsSpace(c)
    ensures Visible([c] + s) == [c] + Visible(s)
  {
    assert ([c] + s)[1..] == s;
  }

  lemma {:induction false} VisibleStripLeft(s: string)
    ensures Visible(StripLeft(s)) == Visible(s)
    decreases |s|
  {
    if |s| > 0 && IsSpace(s[0]) {
      VisibleStripLeft(s[1..]);
    }
  }

  // ---------------------------------------------------------------------------
  // str(n) for integers

  function DigitChar(d: nat): (c: char)
    requires d < 10
    ensures IsDigit(c)
  {
    ('0' as int + d) as char
  }

  function DigitValue(c: char): nat
    requires IsDigit(c)
  {
    c as int - '0' as int
  }

  predicate AllDigits(s: string) {
    forall i :: 0 <= i < |s| ==> IsDigit(s[i])
  }

  /** The number a string of decimal digits denotes. */
  function DecimalValue(s: string): nat
    requires AllDigits(s)
    decreases |s|
  {
    if |s| == 0 then 0 else 10 * DecimalValue(s[..|s| - 1]) + DigitValue(s[|s| - 1])
  }

  /** Python's `str(n)` for a natural number. */
  function NatToString(n: nat): (r: string)
    ensures |r| >= 1
    ensures AllDigits(r)
    decreases n
  {
    if n < 10 then [DigitChar(n)] else NatToString(n / 10) + [DigitChar(n % 10)]
  }

  /** Reading the digits back gives the number: decimal rendering is injective. */
  lemma {:induction false} NatToStringValue(n: nat)
    ensures DecimalValue(NatToString(n)) == n
    decreases n
  {
    var r := NatToString(n);
    if n >= 10 {
      NatToStringValue(n / 10);
      assert r[..|r| - 1] == NatToString(n / 10);
    }
  }

  /** Python's `str(i)` for any integer. */
  function IntToString(i: int): (r: string)
    ensures |r| >= 1
    ensures i >= 0 <==> AllDigits(r)
    ensures i < 0 <==> r[0] == '-'
  {
    if i < 0 then
      var r := "-" + NatToString(-i);
      assert r[0] == '-' && !IsDigit(r[0]);
      r
    else NatToString(i)
  }
}
