/** Whitespace trimming as the two runtimes do it: JavaScript's `String.prototype.trim`
    (and the `\s` of its regular expressions) and Python's `str.strip()` without arguments. */
module Text {

  /** Which runtime's notion of whitespace is meant. */
  datatype Flavour = Js | Py

  /** JavaScript WhiteSpace and LineTerminator code points. */
  predicate IsJsSpace(c: char) {
    ('\t' <= c <= '\r') || c == ' ' || c == '\U{A0}' || c == '\U{1680}' ||
    ('\U{2000}' <= c <= '\U{200A}') || c == '\U{2028}' || c == '\U{2029}' ||
    c == '\U{202F}' || c == '\U{205F}' || c == '\U{3000}' || c == '\U{FEFF}'
  }

  /** Characters for which Python's `str.isspace()` holds. */
  predicate IsPySpace(c: char) {
    ('\t' <= c <= '\r') || ('\U{1C}' <= c <= '\U{1F}') || c == ' ' || c == '\U{85}' ||
    c == '\U{A0}' || c == '\U{1680}' || ('\U{2000}' <= c <= '\U{200A}') ||
    c == '\U{2028}' || c == '\U{2029}' || c == '\U{202F}' || c == '\U{205F}' || c == '\U{3000}'
  }

  predicate IsSpace(f: Flavour, c: char) {
    match f
    case Js => IsJsSpace(c)
    case Py => IsPySpace(c)
  }

  predicate AllSpace(f: Flavour, s: string) {
    forall k :: 0 <= k < |s| ==> IsSpace(f, s[k])
  }

  /** Number of leading whitespace characters of `s`. */
  function LeadingSpace(f: Flavour, s: string): (n: nat)
    ensures n <= |s| && AllSpace(f, s[..n])
    ensures n < |s| ==> !IsSpace(f, s[n])
  {
    if s == [] || !IsSpace(f, s[0]) then 0
    else
      var m := LeadingSpace(f, s[1..]);
      assert s[..m + 1] == [s[0]] + s[1..][..m];
      m + 1
  }

  /** Number of trailing whitespace characters of `s`. */
  function TrailingSpace(f: Flavour, s: string): (n: nat)
    ensures n <= |s| && AllSpace(f, s[|s| - n..])
    ensures n < |s| ==> !IsSpace(f, s[|s| - 1 - n])
  {
    if s == [] || !IsSpace(f, s[|s| - 1]) then 0
    else
      var init := s[..|s| - 1];
      var m := TrailingSpace(f, init);
      var suffix := s[|s| - (m + 1)..];
      assert AllSpace(f, suffix) by {
        forall k | 0 <= k < |suffix| ensures IsSpace(f, suffix[k]) {
          if k < m {
            assert suffix[k] == init[|init| - m..][k];
          }
        }
      }
      assert m + 1 < |s| ==> s[|s| - 1 - (m + 1)] == init[|init| - 1 - m];
      m + 1
  }

  /** `s` with its leading and trailing whitespace removed: the result is the part of `s`
      that remains once a whitespace-only prefix and a whitespace-only suffix are cut off,
      and it neither starts nor ends with whitespace. */
  function Trim(f: Flavour, s: string): (r: string)
    ensures r == [] || (!IsSpace(f, r[0]) && !IsSpace(f, r[|r| - 1]))
    ensures exists i :: TrimmedAt(f, s, r, i)
  {
    var i := LeadingSpace(f, s);
    var t := s[i..];
    var j := |t| - TrailingSpace(f, t);
    TrimmedBetween(f, s, i, j);
    t[..j]
  }

  /** Cutting the leading whitespace and then the trailing whitespace leaves a middle part
      with no whitespace at either end. */
  lemma TrimmedBetween(f: Flavour, s: string, i: nat, j: nat)
    requires i == LeadingSpace(f, s) && j == |s[i..]| - TrailingSpace(f, s[i..])
    ensures var r := s[i..][..j];
      (r == [] || (!IsSpace(f, r[0]) && !IsSpace(f, r[|r| - 1]))) && TrimmedAt(f, s, r, i)
  {
    var t := s[i..];
    var n := TrailingSpace(f, t);
    var r := t[..j];
    assert r == [] || (!IsSpace(f, r[0]) && !IsSpace(f, r[|r| - 1])) by {
      assert j > 0 ==> r[0] == s[i] && r[j - 1] == t[|t| - 1 - n];
    }
    assert TrimmedAt(f, s, r, i) by {
      SliceOfSuffix(s, i, j);
      assert AllSpace(f, t[|t| - n..]);
    }
  }

  lemma SliceOfSuffix(s: string, i: nat, j: nat)
    requires i + j <= |s|
    ensures s[i..][..j] == s[i..i + j] && s[i..][j..] == s[i + j..]
  {
  }

  /** `r` is `s` with a whitespace-only prefix of length `i` and a whitespace-only suffix
      removed. */
  predicate TrimmedAt(f: Flavour, s: string, r: string, i: int) {
    0 <= i <= |s| - |r| && s[i..i + |r|] == r && AllSpace(f, s[..i]) && AllSpace(f, s[i + |r|..])
  }

  /** A string with no whitespace at either end is its own trim. */
  lemma TrimOfUnpadded(f: Flavour, s: string)
    requires s != [] && !IsSpace(f, s[0]) && !IsSpace(f, s[|s| - 1])
    ensures Trim(f, s) == s
  {
    TrimOfPadded(f, [], s, []);
    assert [] + s + [] == s;
  }

  /** Trimming removes whitespace padding around a string that has no whitespace at
      either end. */
  lemma TrimOfPadded(f: Flavour, front: string, s: string, back: string)
    requires s != [] && !IsSpace(f, s[0]) && !IsSpace(f, s[|s| - 1])
    requires AllSpace(f, front) && AllSpace(f, back)
    ensures Trim(f, front + s + back) == s
  {
    assert front + s + back == front + (s + back);
    LeadingSpaceOfPadded(f, front, s + back);
    assert (front + s + back)[|front|..] == s + back;
    TrailingSpaceOfPadded(f, s, back);
    assert (s + back)[..|s|] == s;
  }

  lemma {:induction false} LeadingSpaceOfPadded(f: Flavour, front: string, rest: string)
    requires AllSpace(f, front) && rest != [] && !IsSpace(f, rest[0])
    ensures LeadingSpace(f, front + rest) == |front|
  {
    if front == [] {
      assert front + rest == rest;
    } else {
      assert (front + rest)[1..] == front[1..] + rest;
      LeadingSpaceOfPadded(f, front[1..], rest);
    }
  }

  lemma {:induction false} TrailingSpaceOfPadded(f: Flavour, rest: string, back: string)
    requires AllSpace(f, back) && rest != [] && !IsSpace(f, rest[|rest| - 1])
    ensures TrailingSpace(f, rest + back) == |back|
  {
    if back == [] {
      assert rest + back == rest;
    } else {
      var x := rest + back;
      assert x[..|x| - 1] == rest + back[..|back| - 1];
      TrailingSpaceOfPadded(f, rest, back[..|back| - 1]);
    }
  }

  /** Where the two whitespace sets agree on every character of `s`, trimming agrees. */
  lemma TrimAgrees(s: string)
    requires forall k :: 0 <= k < |s| ==> (IsJsSpace(s[k]) <==> IsPySpace(s[k]))
    ensures Trim(Js, s) == Trim(Py, s)
  {
    LeadingSpaceAgrees(s);
    var i := LeadingSpace(Js, s);
    TrailingSpaceAgrees(s[i..]);
  }

  lemma {:induction false} LeadingSpaceAgrees(s: string)
    requires forall k :: 0 <= k < |s| ==> (IsJsSpace(s[k]) <==> IsPySpace(s[k]))
    ensures LeadingSpace(Js, s) == LeadingSpace(Py, s)
  {
    if s != [] && IsJsSpace(s[0]) {
      LeadingSpaceAgrees(s[1..]);
    }
  }

  lemma {:induction false} TrailingSpaceAgrees(s: string)
    requires forall k :: 0 <= k < |s| ==> (IsJsSpace(s[k]) <==> IsPySpace(s[k]))
    ensures TrailingSpace(Js, s) == TrailingSpace(Py, s)
  {
    if s != [] && IsJsSpace(s[|s| - 1]) {
      TrailingSpaceAgrees(s[..|s| - 1]);
    }
  }
}
