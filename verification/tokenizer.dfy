/** Word extraction. Three extractors of the backend are instances of one
    idea, "the maximal runs of characters from a class":
    - the lexical ranker's tokenizer, `re.findall(r'[가-힣a-zA-Z0-9]+', text.lower())`
      followed by dropping one-character non-numeric tokens;
    - Python's `str.split()` with no argument (runs of non-whitespace);
    - the answer generator's `re.findall(r'[가-힣]{2,}', text)` (Hangul runs of length two or more). */
module Tokenizer {
  import opened Text
  import opened Seqs

  /** A precomposed Hangul syllable, U+AC00 '가' to U+D7A3 '힣'. */
  predicate IsHangulSyllable(c: char) { '가' <= c <= '힣' }

  /** The character class `[가-힣a-zA-Z0-9]`. */
  predicate IsWordChar(c: char) {
    IsHangulSyllable(c) || ('a' <= c <= 'z') || IsAsciiUpper(c) || IsDigit(c)
  }

  predicate IsNonSpace(c: char) { !IsSpace(c) }

  predicate AllIn(t: string, inClass: char -> bool) {
    forall j :: 0 <= j < |t| ==> inClass(t[j])
  }

  /** Length of the run of class characters at the front of `s`. */
  function RunLength(s: string, inClass: char -> bool): (n: nat)
    ensures n <= |s|
    ensures forall i :: 0 <= i < n ==> inClass(s[i])
    ensures n < |s| ==> !inClass(s[n])
    decreases |s|
  {
    if |s| > 0 && inClass(s[0]) then 1 + RunLength(s[1..], inClass) else 0
  }

  /** The maximal runs of class characters, left to right (what `re.findall`
      returns for a pattern `[class]+`). */
  function Runs(s: string, inClass: char -> bool): (r: seq<string>)
    ensures forall i :: 0 <= i < |r| ==> |r[i]| > 0 && AllIn(r[i], inClass)
    decreases |s|
  {
    if |s| == 0 then []
    else if !inClass(s[0]) then Runs(s[1..], inClass)
    else
      var n := RunLength(s, inClass);
      [s[..n]] + Runs(s[n..], inClass)
  }

  /** Every character of a run is a character of the text. */
  lemma {:induction false} RunsChars(s: string, inClass: char -> bool)
    ensures forall i, j :: 0 <= i < |Runs(s, inClass)| && 0 <= j < |Runs(s, inClass)[i]| ==> Runs(s, inClass)[i][j] in s
    decreases |s|
  {
    if |s| > 0 {
      if !inClass(s[0]) {
        RunsChars(s[1..], inClass);
        assert forall c :: c in s[1..] ==> c in s;
      } else {
        var n := RunLength(s, inClass);
        RunsChars(s[n..], inClass);
        assert forall c :: c in s[n..] ==> c in s;
        assert forall c :: c in s[..n] ==> c in s;
      }
    }
  }

  lemma {:induction false} RunLengthAll(t: string, inClass: char -> bool)
    requires AllIn(t, inClass)
    ensures RunLength(t, inClass) == |t|
    decreases |t|
  {
    if |t| > 0 {
      RunLengthAll(t[1..], inClass);
    }
  }

  lemma {:induction false} RunLengthBeforeSeparator(a: string, x: char, b: string, inClass: char -> bool)
    requires !inClass(x)
    ensures RunLength(a + [x] + b, inClass) == RunLength(a, inClass)
    decreases |a|
  {
    var s := a + [x] + b;
    if |a| > 0 {
      assert s[0] == a[0];
      assert s[1..] == a[1..] + [x] + b;
      RunLengthBeforeSeparator(a[1..], x, b, inClass);
    }
  }

  /** A non-class character splits the runs: nothing merges across it. */
  lemma {:induction false} RunsSeparator(a: string, x: char, b: string, inClass: char -> bool)
    requires !inClass(x)
    ensures Runs(a + [x] + b, inClass) == Runs(a, inClass) + Runs(b, inClass)
    decreases |a|
  {
    if |a| == 0 {
      var s := a + [x] + b;
      assert s[0] == x && s[1..] == b;
    } else if !inClass(a[0]) {
      RunsSeparator(a[1..], x, b, inClass);
      SeparatorAfterSkip(a, x, b, inClass);
    } else {
      var m := RunLength(a, inClass);
      RunLengthBeforeSeparator(a, x, b, inClass);
      RunsSeparator(a[m..], x, b, inClass);
      SeparatorAfterRun(a, x, b, inClass, m);
    }
  }

  lemma SeparatorAfterSkip(a: string, x: char, b: string, inClass: char -> bool)
    requires |a| > 0 && !inClass(a[0])
    requires Runs(a[1..] + [x] + b, inClass) == Runs(a[1..], inClass) + Runs(b, inClass)
    ensures Runs(a + [x] + b, inClass) == Runs(a, inClass) + Runs(b, inClass)
  {
    var s := a + [x] + b;
    assert s[0] == a[0];
    assert s[1..] == a[1..] + [x] + b;
  }

  lemma SeparatorAfterRun(a: string, x: char, b: string, inClass: char -> bool, m: nat)
    requires |a| > 0 && inClass(a[0]) && m == RunLength(a, inClass) && m <= |a|
    requires RunLength(a + [x] + b, inClass) == m
    requires Runs(a[m..] + [x] + b, inClass) == Runs(a[m..], inClass) + Runs(b, inClass)
    ensures Runs(a + [x] + b, inClass) == Runs(a, inClass) + Runs(b, inClass)
  {
    var s := a + [x] + b;
    assert s[0] == a[0];
    RunsStep(s, inClass);
    RunsStep(a, inClass);
    assert s[..m] == a[..m];
    assert s[m..] == a[m..] + [x] + b;
    Assoc([a[..m]], Runs(a[m..], inClass), Runs(b, inClass));
  }

  /** A text that starts with a class character starts with a run. */
  lemma RunsStep(t: string, inClass: char -> bool)
    requires |t| > 0 && inClass(t[0])
    ensures Runs(t, inClass) == [t[..RunLength(t, inClass)]] + Runs(t[RunLength(t, inClass)..], inClass)
  {
  }

  /** A non-empty string made only of class characters is a single run. */
  lemma RunsWhole(t: string, inClass: char -> bool)
    requires |t| > 0 && AllIn(t, inClass)
    ensures Runs(t, inClass) == [t]
  {
    RunLengthAll(t, inClass);
    assert t[..|t|] == t;
    assert t[|t|..] == [];
  }

  /** Runs joined with a separator from outside the class are found again. */
  lemma {:induction false} RunsOfJoin(ts: seq<string>, sep: char, inClass: char -> bool)
    requires !inClass(sep)
    requires forall i :: 0 <= i < |ts| ==> |ts[i]| > 0 && AllIn(ts[i], inClass)
    ensures Runs(Join(ts, [sep]), inClass) == ts
    decreases |ts|
  {
    if |ts| == 1 {
      RunsWhole(ts[0], inClass);
    } else if |ts| > 1 {
      RunsOfJoin(ts[1..], sep, inClass);
      RunsWhole(ts[0], inClass);
      RunsSeparator(ts[0], sep, Join(ts[1..], [sep]), inClass);
      assert ts == [ts[0]] + ts[1..];
    }
  }

  // ---------------------------------------------------------------------------
  // The lexical ranker's tokenizer

  /** The rule `len(token) > 1 or token.isdigit()`. A run of `[가-힣a-z0-9]`
      is `isdigit()` exactly when all its characters are ASCII digits. */
  predicate KeepToken(t: string) {
    |t| > 1 || (|t| > 0 && AllDigits(t))
  }

  /** What every token is: non-empty, made of Hangul syllables, lower-case
      ASCII letters and digits only, and at least two long unless numeric. */
  predicate IsToken(t: string) {
    && |t| > 0
    && (forall j :: 0 <= j < |t| ==> IsHangulSyllable(t[j]) || ('a' <= t[j] <= 'z') || IsDigit(t[j]))
    && (|t| >= 2 || AllDigits(t))
  }

  /** `_tokenize`: a list, so a repeated word yields repeated tokens. */
  function Tokenize(text: string): (r: seq<string>)
    ensures text == "" ==> r == []
    ensures forall i :: 0 <= i < |r| ==> IsToken(r[i])
  {
    if text == "" then []
    else
      var lowered := Lower(text);
      var runs := Runs(lowered, IsWordChar);
      RunsChars(lowered, IsWordChar);
      assert forall c :: c in lowered ==> !IsAsciiUpper(c);
      Filter(runs, KeepToken)
  }

  /** A character outside the token class separates tokens: tokenizing the
      two sides independently gives the same list. */
  lemma TokenizeSeparated(a: string, x: char, b: string)
    requires !IsWordChar(x)
    ensures Tokenize(a + [x] + b) == Tokenize(a) + Tokenize(b)
  {
    assert LowerChar(x) == x;
    LowerAppend(a + [x], b);
    LowerAppend(a, [x]);
    assert Lower([x]) == [x];
    RunsSeparator(Lower(a), x, Lower(b), IsWordChar);
    FilterAppend(Runs(Lower(a), IsWordChar), Runs(Lower(b), IsWordChar), KeepToken);
  }

  /** A single run of word characters is one lower-cased token, or nothing
      when it is a lone letter or syllable. Together with `TokenizeSeparated`
      this pins `Tokenize` down on every input. */
  lemma TokenizeWord(w: string)
    requires |w| > 0 && AllIn(w, IsWordChar)
    ensures Tokenize(w) == if KeepToken(Lower(w)) then [Lower(w)] else []
  {
    var lw := Lower(w);
    assert AllIn(lw, IsWordChar) by {
      forall j | 0 <= j < |lw| ensures IsWordChar(lw[j]) {
        assert IsWordChar(w[j]);
      }
    }
    RunsWhole(lw, IsWordChar);
  }

  /** Tokenizing the space-joined tokens of a text gives the same tokens. */
  lemma TokenizeIdempotent(text: string)
    ensures Tokenize(Join(Tokenize(text), " ")) == Tokenize(text)
  {
    var ts := Tokenize(text);
    var joined := Join(ts, [' ']);
    assert " " == [' '];
    if joined == "" {
      if |ts| > 0 {
        JoinEmpty(ts);
      }
    } else {
      forall i | 0 <= i < |ts| ensures |ts[i]| > 0 && AllIn(ts[i], IsWordChar) && NoAsciiUpper(ts[i]) {
        assert IsToken(ts[i]);
      }
      JoinNoUpper(ts);
      LowerIdentity(joined);
      RunsOfJoin(ts, ' ', IsWordChar);
      forall i | 0 <= i < |ts| ensures KeepToken(ts[i]) {
        assert IsToken(ts[i]);
      }
      FilterAll(ts, KeepToken);
    }
  }

  lemma {:induction false} JoinEmpty(ts: seq<string>)
    requires |ts| > 0 && |ts[0]| > 0
    ensures Join(ts, " ") != ""
  {
    if |ts| > 1 {
      assert |Join(ts, " ")| >= |ts[0]|;
    }
  }

  lemma {:induction false} JoinNoUpper(ts: seq<string>)
    requires forall i :: 0 <= i < |ts| ==> NoAsciiUpper(ts[i])
    ensures NoAsciiUpper(Join(ts, " "))
    decreases |ts|
  {
    if |ts| > 1 {
      JoinNoUpper(ts[1..]);
      var rest := Join(ts[1..], " ");
      var whole := ts[0] + " " + rest;
      assert Join(ts, " ") == whole;
      forall j | 0 <= j < |whole| ensures !IsAsciiUpper(whole[j]) {
        if j < |ts[0]| {
          assert whole[j] == ts[0][j];
        } else if j > |ts[0]| {
          assert whole[j] == rest[j - |ts[0]| - 1];
        }
      }
    }
  }

  // ---------------------------------------------------------------------------
  // str.split() with no argument

  /** Python's `s.split()`: the maximal runs of non-whitespace. */
  function SplitWhitespace(s: string): (r: seq<string>)
    ensures forall i :: 0 <= i < |r| ==> |r[i]| > 0 && forall j :: 0 <= j < |r[i]| ==> !IsSpace(r[i][j])
  {
    Runs(s, IsNonSpace)
  }

  /** Re-splitting words joined by single spaces gives the words back. */
  lemma SplitWhitespaceOfJoin(words: seq<string>)
    requires forall i :: 0 <= i < |words| ==> |words[i]| > 0 && AllIn(words[i], IsNonSpace)
    ensures SplitWhitespace(Join(words, " ")) == words
  {
    assert " " == [' '];
    RunsOfJoin(words, ' ', IsNonSpace);
  }

  // ---------------------------------------------------------------------------
  // re.findall(r'[가-힣]{2,}', s)

  predicate AtLeastTwo(t: string) { |t| >= 2 }

  /** The Hangul words of a text: maximal Hangul runs of length two or more. */
  function HangulWords(s: string): (r: seq<string>)
    ensures forall i :: 0 <= i < |r| ==> |r[i]| >= 2 && AllIn(r[i], IsHangulSyllable)
  {
    Filter(Runs(s, IsHangulSyllable), AtLeastTwo)
  }

  /** Each Hangul word occurs in the text it was taken from. */
  lemma {:induction false} RunsOccur(s: string, inClass: char -> bool)
    ensures forall i :: 0 <= i < |Runs(s, inClass)| ==> Contains(s, Runs(s, inClass)[i])
    decreases |s|
  {
    if |s| > 0 {
      if !inClass(s[0]) {
        RunsOccur(s[1..], inClass);
        forall i | 0 <= i < |Runs(s, inClass)| ensures Contains(s, Runs(s, inClass)[i]) {
          assert s == [s[0]] + s[1..];
          ContainsInRight([s[0]], s[1..], Runs(s, inClass)[i]);
        }
      } else {
        var n := RunLength(s, inClass);
        RunsOccur(s[n..], inClass);
        assert s == s[..n] + s[n..];
        forall i | 0 <= i < |Runs(s, inClass)| ensures Contains(s, Runs(s, inClass)[i]) {
          if i == 0 {
            assert IsPrefix(s[..n], s);
          } else {
            assert Runs(s, inClass)[i] == Runs(s[n..], inClass)[i - 1];
            ContainsInRight(s[..n], s[n..], Runs(s, inClass)[i]);
          }
        }
      }
    }
  }

  lemma HangulWordsOccur(s: string)
    ensures forall i :: 0 <= i < |HangulWords(s)| ==> Contains(s, HangulWords(s)[i])
  {
    RunsOccur(s, IsHangulSyllable);
  }
}
