/** The two numeric-token extractors: the browser's `extractNumbers` (app.js) and the
    backend's `extract_numbers` (backend.py). Both are stated through `Runs`, the maximal
    runs of one character class, which is what a global search for `[class]+` returns. */
module Tokens {
  import opened Text
  import Decimal

  /** Python's `\d` matches every Unicode decimal digit (category Nd). Listed here are the
      blocks a kiosk reading Latin and Arabic cards meets: ASCII, Arabic-Indic and
      Extended Arabic-Indic. */
  predicate IsDecimalDigit(c: char) {
    Decimal.IsDigit(c) || ('\U{660}' <= c <= '\U{669}') || ('\U{6F0}' <= c <= '\U{6F9}')
  }

  /** The character classes whose runs matter: `[0-9]`, Python's `\d`, JavaScript's `\s`
      and its complement. */
  datatype CharClass = AsciiDigit | DecimalDigit | JsSpace | NotJsSpace

  predicate In(cls: CharClass, c: char) {
    match cls
    case AsciiDigit => Decimal.IsDigit(c)
    case DecimalDigit => IsDecimalDigit(c)
    case JsSpace => IsJsSpace(c)
    case NotJsSpace => !IsJsSpace(c)
  }

  predicate AllIn(cls: CharClass, s: string) {
    forall k :: 0 <= k < |s| ==> In(cls, s[k])
  }

  predicate NoneIn(cls: CharClass, s: string) {
    forall k :: 0 <= k < |s| ==> !In(cls, s[k])
  }

  /** Length of the longest prefix of `s` made of characters of `cls`. */
  function RunLength(cls: CharClass, s: string): (n: nat)
    ensures n <= |s| && AllIn(cls, s[..n])
    ensures n < |s| ==> !In(cls, s[n])
  {
    if s == [] || !In(cls, s[0]) then 0
    else
      var m := RunLength(cls, s[1..]);
      assert s[..m + 1] == [s[0]] + s[1..][..m];
      m + 1
  }

  /** The maximal runs of `cls` characters in `s`, left to right. Every run is a nonempty
      string of `cls` characters. */
  function Runs(cls: CharClass, s: string): seq<string>
    decreases |s|
  {
    if s == [] then []
    else if !In(cls, s[0]) then Runs(cls, s[1..])
    else
      var n := RunLength(cls, s);
      [s[..n]] + Runs(cls, s[n..])
  }

  /** Every run is a nonempty string of `cls` characters. */
  lemma {:induction false} RunsAreRuns(cls: CharClass, s: string)
    ensures forall t :: t in Runs(cls, s) ==> t != [] && AllIn(cls, t)
    decreases |s|
  {
    if s != [] {
      if !In(cls, s[0]) {
        RunsAreRuns(cls, s[1..]);
      } else {
        var n := RunLength(cls, s);
        RunsAreRuns(cls, s[n..]);
      }
    }
  }

  /** The tokens longer than three characters, in their original order
      (`filter(p => p.length > 3)` and `[n for n in numbers if len(n) > 3]`). */
  function LongTokens(ts: seq<string>): (r: seq<string>)
    ensures |r| <= |ts|
    ensures forall t :: t in r <==> t in ts && |t| > 3
  {
    if ts == [] then []
    else if |ts[0]| > 3 then [ts[0]] + LongTokens(ts[1..])
    else LongTokens(ts[1..])
  }

  /** `text.replace(/[^0-9]/g, ' ')`. */
  function BlankNonDigits(text: string): string {
    seq(|text|, k requires 0 <= k < |text| => if Decimal.IsDigit(text[k]) then text[k] else ' ')
  }

  /** `s.split(/\s+/)`: the pieces between maximal whitespace runs, including an empty
      first or last piece when `s` starts or ends with whitespace, and `[""]` for `""`. */
  function SplitOnWhitespace(s: string): seq<string>
    decreases |s|
  {
    var n := RunLength(NotJsSpace, s);
    if n == |s| then [s]
    else
      var rest := s[n..];
      var m := RunLength(JsSpace, rest);
      assert m >= 1;
      [s[..n]] + SplitOnWhitespace(rest[m..])
  }

  /** app.js `extractNumbers`: blank the non-digits, trim, split on whitespace, keep the
      pieces longer than three characters. */
  function ExtractNumbers(text: string): seq<string> {
    LongTokens(SplitOnWhitespace(Trim(Js, BlankNonDigits(text))))
  }

  /** backend.py `extract_numbers`: `re.findall(r'\d+', text)`, keeping the matches longer
      than three characters. */
  function ExtractNumbersPy(text: string): seq<string> {
    LongTokens(Runs(DecimalDigit, text))
  }

  /** Joins tokens with single spaces, as `tokens.join(' ')` and `' '.join(tokens)` do. */
  function JoinWithSpaces(ts: seq<string>): string {
    if ts == [] then []
    else if |ts| == 1 then ts[0]
    else ts[0] + " " + JoinWithSpaces(ts[1..])
  }

  /** Is there a stretch of four consecutive `cls` characters in `s`? */
  ghost predicate HasRunOfFour(cls: CharClass, s: string) {
    exists k :: RunOfFourAt(cls, s, k)
  }

  predicate RunOfFourAt(cls: CharClass, s: string, k: int) {
    0 <= k <= |s| - 4 && AllIn(cls, s[k..k + 4])
  }

  /** Does `t` occur in `s` starting at index `i`? */
  predicate OccursAt(t: string, s: string, i: int) {
    0 <= i <= |s| - |t| && s[i..i + |t|] == t
  }

  // ---------------------------------------------------------------------------
  // What `Runs` is: the three lemmas below determine it completely.

  lemma RunsOfEmpty(cls: CharClass)
    ensures Runs(cls, []) == []
  {
  }

  /** A nonempty string of `cls` characters is a single run. */
  lemma {:induction false} RunsOfRun(cls: CharClass, s: string)
    requires s != [] && AllIn(cls, s)
    ensures Runs(cls, s) == [s]
  {
    assert In(cls, s[0]);
    RunLengthOfRun(cls, s);
    assert s[..|s|] == s;
    assert s[|s|..] == [];
  }

  /** A character outside `cls` separates the runs on its left from those on its right. */
  lemma {:induction false} RunsSplitAt(cls: CharClass, a: string, c: char, b: string)
    requires !In(cls, c)
    ensures Runs(cls, a + [c] + b) == Runs(cls, a) + Runs(cls, b)
    decreases |a|
  {
    if a == [] {
      assert a + [c] + b == [c] + b;
      RunsDropNone(cls, [c], b);
    } else if !In(cls, a[0]) {
      calc {
        Runs(cls, a + [c] + b);
        { RunsSkipFirst(cls, a, c, b); }
        Runs(cls, a[1..] + [c] + b);
        { RunsSplitAt(cls, a[1..], c, b); }
        Runs(cls, a[1..]) + Runs(cls, b);
        { RunsSkipFirst(cls, a, c, b); }
        Runs(cls, a) + Runs(cls, b);
      }
    } else {
      var n := RunLength(cls, a);
      calc {
        Runs(cls, a + [c] + b);
        { RunsTakeFirst(cls, a, c, b, n); }
        [a[..n]] + Runs(cls, a[n..] + [c] + b);
        { RunsTakeFirst(cls, a, c, b, n); RunsSplitAt(cls, a[n..], c, b); }
        [a[..n]] + (Runs(cls, a[n..]) + Runs(cls, b));
        { RunsTakeFirst(cls, a, c, b, n); }
        Runs(cls, a) + Runs(cls, b);
      }
    }
  }

  /** A leading character outside `cls` is skipped on both sides. */
  lemma RunsSkipFirst(cls: CharClass, a: string, c: char, b: string)
    requires a != [] && !In(cls, a[0])
    ensures Runs(cls, a + [c] + b) == Runs(cls, a[1..] + [c] + b)
    ensures Runs(cls, a) == Runs(cls, a[1..])
  {
    assert (a + [c] + b)[1..] == a[1..] + [c] + b;
  }

  /** A leading run of `a` stays a leading run when a character outside `cls` follows. */
  lemma RunsTakeFirst(cls: CharClass, a: string, c: char, b: string, n: nat)
    requires a != [] && In(cls, a[0]) && !In(cls, c) && n == RunLength(cls, a)
    ensures 0 < n <= |a|
    ensures Runs(cls, a + [c] + b) == [a[..n]] + Runs(cls, a[n..] + [c] + b)
    ensures Runs(cls, a) == [a[..n]] + Runs(cls, a[n..])
  {
    var s, rest := a + [c] + b, [c] + b;
    assert s == a + rest;
    assert RunLength(cls, s) == n by {
      RunLengthStopsAt(cls, a, rest);
    }
    assert s[..n] == a[..n] && s[n..] == a[n..] + [c] + b by {
      SlicesOfAppend(a, rest, n);
      assert a[n..] + rest == a[n..] + [c] + b;
    }
    assert s[0] == a[0];
  }

  /** `s` is what comes before an occurrence of `r`, then `r`, then what follows it. */
  lemma Around(s: string, r: string, i: nat)
    requires OccursAt(r, s, i)
    ensures s == s[..i] + (r + s[i + |r|..])
  {
    assert s[i..] == s[i..i + |r|] + s[i + |r|..];
    assert s == s[..i] + s[i..];
  }

  lemma SubSlice(s: string, n: nat, a: nat, b: nat)
    requires a <= b && n + b <= |s|
    ensures s[n..][a..b] == s[n + a..n + b]
  {
  }

  lemma SlicesOfAppend(a: string, z: string, n: nat)
    requires n <= |a|
    ensures (a + z)[..n] == a[..n] && (a + z)[n..] == a[n..] + z
  {
  }

  lemma {:induction false} RunLengthOfRun(cls: CharClass, s: string)
    requires AllIn(cls, s)
    ensures RunLength(cls, s) == |s|
  {
    if s != [] {
      RunLengthOfRun(cls, s[1..]);
    }
  }

  /** A run of `a` that reaches the end of `a` stops there when `z` starts outside `cls`. */
  lemma {:induction false} RunLengthStopsAt(cls: CharClass, a: string, z: string)
    requires z == [] || !In(cls, z[0])
    ensures RunLength(cls, a + z) == RunLength(cls, a)
  {
    if a == [] {
      assert a + z == z;
    } else if In(cls, a[0]) {
      assert (a + z)[1..] == a[1..] + z;
      RunLengthStopsAt(cls, a[1..], z);
    }
  }

  lemma {:induction false} RunsOfNone(cls: CharClass, s: string)
    requires NoneIn(cls, s)
    ensures Runs(cls, s) == []
  {
    if s != [] {
      RunsOfNone(cls, s[1..]);
    }
  }

  /** Characters outside `cls` at the front do not change the runs. */
  lemma {:induction false} RunsDropNone(cls: CharClass, p: string, q: string)
    requires NoneIn(cls, p)
    ensures Runs(cls, p + q) == Runs(cls, q)
  {
    if p != [] {
      assert (p + q)[0] == p[0] && !In(cls, p[0]);
      assert (p + q)[1..] == p[1..] + q;
      RunsDropNone(cls, p[1..], q);
    } else {
      assert p + q == q;
    }
  }

  /** Characters outside `cls` at the back do not change the runs. */
  lemma RunsAppendNone(cls: CharClass, p: string, q: string)
    requires NoneIn(cls, q)
    ensures Runs(cls, p + q) == Runs(cls, p)
  {
    if q != [] {
      assert p + q == p + [q[0]] + q[1..];
      RunsSplitAt(cls, p, q[0], q[1..]);
      RunsOfNone(cls, q[1..]);
    } else {
      assert p + q == p;
    }
  }

  /** `a` under `c1` and `b` under `c2` look the same to a run search: equal lengths,
      the same positions inside the class, and equal characters at those positions. */
  predicate Alike(c1: CharClass, a: string, c2: CharClass, b: string) {
    |a| == |b| &&
    (forall k :: 0 <= k < |a| ==> (In(c1, a[k]) <==> In(c2, b[k]))) &&
    (forall k :: 0 <= k < |a| && In(c1, a[k]) ==> a[k] == b[k])
  }

  lemma AlikeSuffix(c1: CharClass, a: string, c2: CharClass, b: string, n: nat)
    requires Alike(c1, a, c2, b) && n <= |a|
    ensures Alike(c1, a[n..], c2, b[n..])
  {
    forall k | 0 <= k < |a[n..]|
      ensures (In(c1, a[n..][k]) <==> In(c2, b[n..][k]))
      ensures In(c1, a[n..][k]) ==> a[n..][k] == b[n..][k]
    {
      assert a[n..][k] == a[n + k] && b[n..][k] == b[n + k];
    }
  }

  /** Two strings that look the same to a run search have the same runs. */
  lemma {:induction false} RunsAgree(c1: CharClass, a: string, c2: CharClass, b: string)
    requires Alike(c1, a, c2, b)
    ensures Runs(c1, a) == Runs(c2, b)
    decreases |a|
  {
    if a != [] {
      if !In(c1, a[0]) {
        AlikeSuffix(c1, a, c2, b, 1);
        RunsAgree(c1, a[1..], c2, b[1..]);
      } else {
        RunLengthAgrees(c1, a, c2, b);
        var n := RunLength(c1, a);
        assert a[..n] == b[..n] by {
          forall k | 0 <= k < n ensures a[..n][k] == b[..n][k] {
            assert a[..n][k] == a[k] && In(c1, a[k]);
          }
        }
        AlikeSuffix(c1, a, c2, b, n);
        RunsAgree(c1, a[n..], c2, b[n..]);
      }
    }
  }

  lemma {:induction false} RunLengthAgrees(c1: CharClass, a: string, c2: CharClass, b: string)
    requires Alike(c1, a, c2, b)
    ensures RunLength(c1, a) == RunLength(c2, b)
  {
    if a != [] && In(c1, a[0]) {
      AlikeSuffix(c1, a, c2, b, 1);
      RunLengthAgrees(c1, a[1..], c2, b[1..]);
    }
  }

  /** Every run occurs in `s`. */
  lemma {:induction false} RunsOccurIn(cls: CharClass, s: string, t: string)
    requires t in Runs(cls, s)
    ensures exists i :: OccursAt(t, s, i)
    decreases |s|
  {
    if !In(cls, s[0]) {
      assert t in Runs(cls, s[1..]);
      RunsOccurIn(cls, s[1..], t);
      var i :| OccursAt(t, s[1..], i);
      SubSlice(s, 1, i, i + |t|);
      assert OccursAt(t, s, i + 1);
    } else {
      var n := RunLength(cls, s);
      assert Runs(cls, s) == [s[..n]] + Runs(cls, s[n..]);
      if t != s[..n] {
        assert t in Runs(cls, s[n..]);
        RunsOccurIn(cls, s[n..], t);
        var i :| OccursAt(t, s[n..], i);
        SubSlice(s, n, i, i + |t|);
        assert OccursAt(t, s, i + n);
      } else {
        assert OccursAt(t, s, 0);
      }
    }
  }

  /** Four consecutive `cls` characters lie inside a run of length at least four. */
  lemma {:induction false} RunOfFourIsInARun(cls: CharClass, s: string, k: nat)
    requires k + 4 <= |s| && AllIn(cls, s[k..k + 4])
    ensures exists t :: t in Runs(cls, s) && |t| >= 4
    decreases |s|
  {
    assert In(cls, s[k..k + 4][0]);
    if !In(cls, s[0]) {
      assert k >= 1;
      SubSlice(s, 1, k - 1, k - 1 + 4);
      RunOfFourIsInARun(cls, s[1..], k - 1);
      var t :| t in Runs(cls, s[1..]) && |t| >= 4;
      assert Runs(cls, s) == Runs(cls, s[1..]);
      assert t in Runs(cls, s);
    } else {
      var n := RunLength(cls, s);
      assert Runs(cls, s) == [s[..n]] + Runs(cls, s[n..]);
      if k < n {
        forall j | k <= j < k + 4 ensures In(cls, s[j]) {
          assert s[j] == s[k..k + 4][j - k];
        }
        assert s[..n] in Runs(cls, s);
      } else {
        SubSlice(s, n, k - n, k - n + 4);
        RunOfFourIsInARun(cls, s[n..], k - n);
        var t :| t in Runs(cls, s[n..]) && |t| >= 4;
        assert t in Runs(cls, s);
      }
    }
  }

  // ---------------------------------------------------------------------------
  // The browser's extractor is the long ASCII-digit runs of the text.

  lemma {:induction false} LongTokensAppend(xs: seq<string>, ys: seq<string>)
    ensures LongTokens(xs + ys) == LongTokens(xs) + LongTokens(ys)
  {
    if xs != [] {
      assert (xs + ys)[1..] == xs[1..] + ys;
      LongTokensAppend(xs[1..], ys);
    } else {
      assert xs + ys == ys;
    }
  }

  /** Splitting on whitespace and dropping short pieces keeps the long non-whitespace runs. */
  lemma {:induction false} SplitIsRuns(s: string)
    ensures LongTokens(SplitOnWhitespace(s)) == LongTokens(Runs(NotJsSpace, s))
    decreases |s|
  {
    var n := RunLength(NotJsSpace, s);
    if n == |s| {
      if s != [] {
        RunsOfRun(NotJsSpace, s);
      }
    } else {
      var rest := s[n..];
      var m := RunLength(JsSpace, rest);
      var tail := rest[m..];
      assert SplitOnWhitespace(s) == [s[..n]] + SplitOnWhitespace(tail);
      SplitIsRuns(tail);
      LongTokensAppend([s[..n]], SplitOnWhitespace(tail));
      RunsAfterFirstPiece(s, n, m);
    }
  }

  /** The long runs of non-space characters of `s`, split after its first piece `s[..n]`
      and the `m` spaces that follow it. */
  lemma RunsAfterFirstPiece(s: string, n: nat, m: nat)
    requires n == RunLength(NotJsSpace, s) && n < |s| && m == RunLength(JsSpace, s[n..])
    ensures LongTokens(Runs(NotJsSpace, s)) == LongTokens([s[..n]]) + LongTokens(Runs(NotJsSpace, s[n..][m..]))
  {
    var piece, rest := s[..n], s[n..];
    var gap, tail := rest[..m], rest[m..];
    ThreeParts(s, n, m);
    assert gap != [] && NoneIn(NotJsSpace, gap) by {
      assert In(JsSpace, rest[0]);
      forall k | 0 <= k < m ensures !In(NotJsSpace, gap[k]) {
        assert In(JsSpace, gap[k]);
      }
    }
    var head := Runs(NotJsSpace, piece);
    var after := Runs(NotJsSpace, tail);
    assert Runs(NotJsSpace, s) == head + after by {
      RunsAcrossGap(NotJsSpace, piece, gap, tail);
    }
    assert LongTokens(head) == LongTokens([piece]) by {
      if n > 0 {
        RunsOfRun(NotJsSpace, piece);
      } else {
        assert piece == [];
        RunsOfEmpty(NotJsSpace);
      }
    }
    calc {
      LongTokens(Runs(NotJsSpace, s));
      LongTokens(head + after);
      { LongTokensAppend(head, after); }
      LongTokens(head) + LongTokens(after);
      LongTokens([piece]) + LongTokens(after);
    }
  }

  lemma ThreeParts(s: string, n: nat, m: nat)
    requires n + m <= |s|
    ensures s == s[..n] + s[n..][..m] + s[n..][m..]
  {
    assert s[n..] == s[n..][..m] + s[n..][m..];
    assert s == s[..n] + s[n..];
  }

  /** A nonempty stretch of characters outside `cls` separates the runs around it. */
  lemma RunsAcrossGap(cls: CharClass, a: string, gap: string, b: string)
    requires gap != [] && NoneIn(cls, gap)
    ensures Runs(cls, a + gap + b) == Runs(cls, a) + Runs(cls, b)
  {
    assert a + gap + b == a + [gap[0]] + (gap[1..] + b);
    RunsSplitAt(cls, a, gap[0], gap[1..] + b);
    RunsDropNone(cls, gap[1..], b);
  }

  lemma SpacesAreNotInRuns(s: string)
    requires AllSpace(Js, s)
    ensures NoneIn(NotJsSpace, s)
  {
    forall k | 0 <= k < |s| ensures !In(NotJsSpace, s[k]) {
      assert IsSpace(Js, s[k]);
    }
  }

  /** Trimming whitespace does not change the non-whitespace runs. */
  lemma TrimKeepsRuns(s: string)
    ensures Runs(NotJsSpace, Trim(Js, s)) == Runs(NotJsSpace, s)
  {
    var r := Trim(Js, s);
    var i :| TrimmedAt(Js, s, r, i);
    var front, back := s[..i], s[i + |r|..];
    calc {
      Runs(NotJsSpace, s);
      { Around(s, r, i); }
      Runs(NotJsSpace, front + (r + back));
      { SpacesAreNotInRuns(front); RunsDropNone(NotJsSpace, front, r + back); }
      Runs(NotJsSpace, r + back);
      { SpacesAreNotInRuns(back); RunsAppendNone(NotJsSpace, r, back); }
      Runs(NotJsSpace, r);
    }
  }

  /** app.js `extractNumbers` returns exactly the ASCII-digit runs longer than three
      characters, in text order. */
  lemma ExtractNumbersIsLongDigitRuns(text: string)
    ensures ExtractNumbers(text) == LongTokens(Runs(AsciiDigit, text))
  {
    var blanked := BlankNonDigits(text);
    SplitIsRuns(Trim(Js, blanked));
    TrimKeepsRuns(blanked);
    RunsAgree(NotJsSpace, blanked, AsciiDigit, text);
  }

  /** Two long digit strings with a non-digit between them are extracted as exactly those
      two tokens. */
  lemma ExtractNumbersOfPair(a: string, c: char, b: string)
    requires |a| >= 4 && |b| >= 4 && AllIn(AsciiDigit, a) && AllIn(AsciiDigit, b)
    requires !Decimal.IsDigit(c)
    ensures ExtractNumbers(a + [c] + b) == [a, b]
  {
    ExtractNumbersIsLongDigitRuns(a + [c] + b);
    RunsSplitAt(AsciiDigit, a, c, b);
    RunsOfRun(AsciiDigit, a);
    RunsOfRun(AsciiDigit, b);
    LongTokensKeepsLong([a, b]);
  }

  /** Every token of app.js `extractNumbers` is a string of at least four ASCII digits. */
  lemma ExtractNumbersTokens(text: string)
    ensures forall t :: t in ExtractNumbers(text) ==> |t| >= 4 && AllIn(AsciiDigit, t)
  {
    ExtractNumbersIsLongDigitRuns(text);
    RunsAreRuns(AsciiDigit, text);
  }

  /** app.js `extractNumbers` finds nothing exactly when no four ASCII digits stand together
      (in particular when the text has no digit at all). */
  lemma ExtractNumbersEmptyIff(text: string)
    ensures ExtractNumbers(text) == [] <==> !HasRunOfFour(AsciiDigit, text)
  {
    ExtractNumbersIsLongDigitRuns(text);
    LongRunsEmptyIff(AsciiDigit, text);
  }

  /** No run of length four or more exactly when no four consecutive characters are in
      the class. */
  lemma LongRunsEmptyIff(cls: CharClass, text: string)
    ensures LongTokens(Runs(cls, text)) == [] <==> !HasRunOfFour(cls, text)
  {
    var runs := Runs(cls, text);
    var long := LongTokens(runs);
    if long != [] {
      var t := long[0];
      assert t in long;
      assert t in runs && |t| >= 4;
      RunsOccurIn(cls, text, t);
      var i :| OccursAt(t, text, i);
      RunsAreRuns(cls, text);
      assert text[i..i + 4] == t[..4];
      assert RunOfFourAt(cls, text, i);
    }
    if HasRunOfFour(cls, text) {
      var k :| RunOfFourAt(cls, text, k);
      RunOfFourIsInARun(cls, text, k);
      var t :| t in runs && |t| >= 4;
      assert t in long;
    }
  }


  /** Joining `ts` with spaces and searching for runs gives back `ts`, when every token is
      a nonempty run of a class that excludes the space. */
  lemma {:induction false} RunsOfJoined(cls: CharClass, ts: seq<string>)
    requires !In(cls, ' ')
    requires forall t :: t in ts ==> t != [] && AllIn(cls, t)
    ensures Runs(cls, JoinWithSpaces(ts)) == ts
  {
    if ts == [] {
    } else if |ts| == 1 {
      assert ts[0] in ts;
      RunsOfRun(cls, ts[0]);
    } else {
      assert ts[0] in ts;
      assert forall t :: t in ts[1..] ==> t in ts;
      RunsSplitAt(cls, ts[0], ' ', JoinWithSpaces(ts[1..]));
      RunsOfRun(cls, ts[0]);
      RunsOfJoined(cls, ts[1..]);
    }
  }

  lemma {:induction false} LongTokensKeepsLong(ts: seq<string>)
    requires forall t :: t in ts ==> |t| > 3
    ensures LongTokens(ts) == ts
  {
    if ts != [] {
      LongTokensKeepsLong(ts[1..]);
    }
  }

  /** Re-extracting from the browser extractor's own output, joined with spaces, gives the
      same tokens. */
  lemma ExtractNumbersIdempotent(text: string)
    ensures ExtractNumbers(JoinWithSpaces(ExtractNumbers(text))) == ExtractNumbers(text)
  {
    var ts := ExtractNumbers(text);
    ExtractNumbersTokens(text);
    ExtractNumbersIsLongDigitRuns(JoinWithSpaces(ts));
    RunsOfJoined(AsciiDigit, ts);
    LongTokensKeepsLong(ts);
  }

  /** The same holds of the backend extractor. */
  lemma ExtractNumbersPyIdempotent(text: string)
    ensures ExtractNumbersPy(JoinWithSpaces(ExtractNumbersPy(text))) == ExtractNumbersPy(text)
  {
    var ts := ExtractNumbersPy(text);
    RunsAreRuns(DecimalDigit, text);
    RunsOfJoined(DecimalDigit, ts);
    LongTokensKeepsLong(ts);
  }

  /** backend.py `extract_numbers` returns the decimal-digit runs longer than three
      characters: each token is such a run of the text, and every such run is returned. */
  lemma ExtractNumbersPyTokens(text: string)
    ensures forall t :: t in ExtractNumbersPy(text) <==> t in Runs(DecimalDigit, text) && |t| > 3
    ensures forall t :: t in ExtractNumbersPy(text) ==> AllIn(DecimalDigit, t)
  {
  }

  // ---------------------------------------------------------------------------
  // The two extractors compared.

  /** On ASCII text the browser and the backend extract the same tokens. */
  lemma ExtractorsAgreeOnAscii(text: string)
    requires forall k :: 0 <= k < |text| ==> text[k] < '\U{80}'
    ensures ExtractNumbers(text) == ExtractNumbersPy(text)
  {
    ExtractNumbersIsLongDigitRuns(text);
    RunsAgree(AsciiDigit, text, DecimalDigit, text);
  }

  /** Arabic-Indic digits are tokens for the backend and noise for the browser. */
  lemma ExtractorsDisagreeOnArabicIndic()
    ensures ExtractNumbersPy("\U{661}\U{662}\U{663}\U{664}") == ["\U{661}\U{662}\U{663}\U{664}"]
    ensures ExtractNumbers("\U{661}\U{662}\U{663}\U{664}") == []
  {
    var s := "\U{661}\U{662}\U{663}\U{664}";
    assert AllIn(DecimalDigit, s) && NoneIn(AsciiDigit, s) by {
      assert forall k :: 0 <= k < |s| ==> '\U{660}' <= s[k] <= '\U{669}';
    }
    RunsOfRun(DecimalDigit, s);
    RunsOfNone(AsciiDigit, s);
    ExtractNumbersIsLongDigitRuns(s);
  }

}
