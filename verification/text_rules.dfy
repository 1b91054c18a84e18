/** Character classes and string tests the form validators rely on:
    JavaScript's `\s` class, ASCII digits, the UTF-16 `length` of a string,
    the digit-only projection `s.replace(/[^0-9]/g, '')`, and the unanchored
    email test `/\S+@\S+\.\S+/.test(s)`. */
module TextRules {

  /** JavaScript's `\s`: the WhiteSpace and LineTerminator code points of
      the ECMAScript language specification (section 12.2 and 12.3). Within
      ASCII these are only the space and the five controls from tab to
      carriage return; the email pattern's `@` and `.` and the digits are
      never among them. */
  predicate IsWhitespace(c: char)
    ensures c as int < 0x80 ==> (IsWhitespace(c) <==> c == ' ' || '\t' <= c <= '\r')
    ensures IsWhitespace(c) ==> c != '@' && c != '.' && !IsDigit(c)
  {
    || c == '\t' || c == '\n' || c == '\U{000B}' || c == '\U{000C}' || c == '\r'
    || c == ' ' || c == '\U{00A0}' || c == '\U{1680}'
    || ('\U{2000}' <= c <= '\U{200A}')
    || c == '\U{2028}' || c == '\U{2029}' || c == '\U{202F}' || c == '\U{205F}'
    || c == '\U{3000}' || c == '\U{FEFF}'
  }

  /** The character class `[0-9]` */
  predicate IsDigit(c: char) {
    '0' <= c <= '9'
  }

  /** Number of UTF-16 code units of `s`, which is what JavaScript's
      `String.prototype.length` counts: a code point above U+FFFF takes two. */
  function Utf16Length(s: string): (n: nat)
    ensures |s| <= n <= 2 * |s|
    ensures (forall k :: 0 <= k < |s| ==> s[k] as int <= 0xFFFF) ==> n == |s|
    ensures (forall k :: 0 <= k < |s| ==> s[k] as int > 0xFFFF) ==> n == 2 * |s|
  {
    if s == [] then 0
    else (if s[0] as int > 0xFFFF then 2 else 1) + Utf16Length(s[1..])
  }

  /** The UTF-16 length of a concatenation is the sum of the parts' lengths,
      so each code point contributes its own one or two units. */
  lemma {:induction false} Utf16LengthAppend(a: string, b: string)
    ensures Utf16Length(a + b) == Utf16Length(a) + Utf16Length(b)
  {
    if a == [] {
      assert a + b == b;
    } else {
      assert (a + b)[0] == a[0];
      assert (a + b)[1..] == a[1..] + b;
      Utf16LengthAppend(a[1..], b);
    }
  }

  /** `s.replace(/[^0-9]/g, '')`: the digits of `s`, in order. */
  function DigitsOnly(s: string): (r: string)
    ensures |r| <= |s|
    ensures forall k :: 0 <= k < |r| ==> IsDigit(r[k])
    ensures (forall k :: 0 <= k < |s| ==> IsDigit(s[k])) ==> r == s
    ensures (forall k :: 0 <= k < |s| ==> !IsDigit(s[k])) ==> r == []
  {
    if s == [] then []
    else (if IsDigit(s[0]) then [s[0]] else []) + DigitsOnly(s[1..])
  }

  /** The digit projection distributes over concatenation. */
  lemma {:induction false} DigitsOnlyAppend(a: string, b: string)
    ensures DigitsOnly(a + b) == DigitsOnly(a) + DigitsOnly(b)
  {
    if a == [] {
      assert a + b == b;
    } else {
      assert (a + b)[0] == a[0];
      assert (a + b)[1..] == a[1..] + b;
      DigitsOnlyAppend(a[1..], b);
    }
  }

  /** Inserting a non-digit anywhere leaves the digit projection unchanged. */
  lemma NonDigitInvisible(a: string, c: char, b: string)
    requires !IsDigit(c)
    ensures DigitsOnly(a + [c] + b) == DigitsOnly(a + b)
  {
    DigitsOnlyAppend(a + [c], b);
    DigitsOnlyAppend(a, [c]);
    DigitsOnlyAppend(a, b);
    assert DigitsOnly([c]) == [];
  }

  /** No character in s[lo..hi] is whitespace (the run matched by `\S+`). */
  ghost predicate NonWhitespaceRun(s: string, lo: int, hi: int)
    requires 0 <= lo <= hi <= |s|
  {
    forall k :: lo <= k < hi ==> !IsWhitespace(s[k])
  }

  /** `t` as a whole matches `\S+@\S+\.\S+`, with the `@` at `p` and the `.` at `q`. */
  ghost predicate WholeMatchAt(t: string, p: int, q: int) {
    && 0 < p && p + 1 < q && q + 1 < |t|
    && t[p] == '@' && t[q] == '.'
    && NonWhitespaceRun(t, 0, p)
    && NonWhitespaceRun(t, p + 1, q)
    && NonWhitespaceRun(t, q + 1, |t|)
  }

  ghost predicate WholeMatch(t: string) {
    exists p, q :: WholeMatchAt(t, p, q)
  }

  /** `/\S+@\S+\.\S+/.test(s)`: the pattern carries no anchors, so it succeeds
      when some substring of `s` matches it as a whole. */
  ghost predicate RegexTest(s: string) {
    exists a, b :: 0 <= a <= b <= |s| && WholeMatch(s[a..b])
  }

  /** A `.` at `j` closes a match whose `@` sits at `at`: at least one
      non-whitespace character between them, and one after the dot. */
  ghost predicate ClosesAt(s: string, at: nat, j: int) {
    && at + 1 < j && j + 1 < |s|
    && s[j] == '.'
    && NonWhitespaceRun(s, at + 1, j)
    && !IsWhitespace(s[j + 1])
  }

  /** The two anchors of a match: an `@` at `i` preceded by a non-whitespace
      character, and a `.` at `j` that closes it. */
  ghost predicate EmailAnchors(s: string, i: int, j: int) {
    && 0 < i < |s|
    && s[i] == '@'
    && !IsWhitespace(s[i - 1])
    && ClosesAt(s, i, j)
  }

  ghost predicate HasEmailAnchors(s: string) {
    exists i, j :: EmailAnchors(s, i, j)
  }

  /** The unanchored regex test holds exactly when the two anchors exist. */
  lemma RegexTestIsAnchors(s: string)
    ensures RegexTest(s) <==> HasEmailAnchors(s)
  {
    if RegexTest(s) {
      var a, b :| 0 <= a <= b <= |s| && WholeMatch(s[a..b]);
      var t := s[a..b];
      var p, q :| WholeMatchAt(t, p, q);
      var i, j := a + p, a + q;
      assert s[i - 1] == t[p - 1];
      assert s[j + 1] == t[q + 1];
      forall k | i + 1 <= k < j
        ensures !IsWhitespace(s[k])
      {
        assert s[k] == t[k - a];
      }
      assert EmailAnchors(s, i, j);
    }
    if HasEmailAnchors(s) {
      var i, j :| EmailAnchors(s, i, j);
      var t := s[i - 1..j + 2];
      var p, q := 1, j - i + 1;
      assert t[0] == s[i - 1];
      forall k | p + 1 <= k < q
        ensures !IsWhitespace(t[k])
      {
        assert t[k] == s[k + i - 1];
      }
      assert t[q + 1] == s[j + 1];
      assert WholeMatchAt(t, p, q);
      assert WholeMatch(s[i - 1..j + 2]);
    }
  }

  /** Whitespace at `k` ends the `\S+` run after the `@`: no dot at or past
      `k` can close the match. */
  lemma WhitespaceStopsRun(s: string, at: nat, k: nat)
    requires at + 1 <= k < |s|
    requires IsWhitespace(s[k])
    ensures forall j :: k <= j ==> !ClosesAt(s, at, j)
  {
  }

  /** Scans s[k..] for a dot closing the match whose `@` is at `at`, given
      that s[at+1..k] holds no whitespace. */
  function DotFrom(s: string, at: nat, k: nat): (r: bool)
    requires at + 1 <= k <= |s|
    requires NonWhitespaceRun(s, at + 1, k)
    ensures r <==> exists j :: k <= j && ClosesAt(s, at, j)
    decreases |s| - k
  {
    if k == |s| then false
    else if IsWhitespace(s[k]) then
      WhitespaceStopsRun(s, at, k);
      false
    else
      var here := s[k] == '.' && at + 1 < k && k + 1 < |s| && !IsWhitespace(s[k + 1]);
      assert here <==> ClosesAt(s, at, k);
      assert (exists j :: k <= j && ClosesAt(s, at, j))
         <==> ClosesAt(s, at, k) || (exists j :: k + 1 <= j && ClosesAt(s, at, j));
      here || DotFrom(s, at, k + 1)
  }

  /** Scans s[i..] for an `@` that starts a match. */
  function AtFrom(s: string, i: nat): (r: bool)
    requires i <= |s|
    ensures r <==> exists a, j :: i <= a && EmailAnchors(s, a, j)
    decreases |s| - i
  {
    if i == |s| then false
    else
      var here := 0 < i && s[i] == '@' && !IsWhitespace(s[i - 1]) && DotFrom(s, i, i + 1);
      assert here <==> exists j :: EmailAnchors(s, i, j) by {
        if 0 < i && s[i] == '@' && !IsWhitespace(s[i - 1]) {
          if DotFrom(s, i, i + 1) {
            var j :| i + 1 <= j && ClosesAt(s, i, j);
            assert EmailAnchors(s, i, j);
          }
          if exists j :: EmailAnchors(s, i, j) {
            var j :| EmailAnchors(s, i, j);
            assert i + 1 <= j && ClosesAt(s, i, j);
          }
        }
      }
      assert (exists a, j :: i <= a && EmailAnchors(s, a, j))
         <==> (exists j :: EmailAnchors(s, i, j)) || (exists a, j :: i + 1 <= a && EmailAnchors(s, a, j));
      here || AtFrom(s, i + 1)
  }

  /** Executable form of `/\S+@\S+\.\S+/.test(s)`. */
  function MatchesEmail(s: string): (r: bool)
    ensures r <==> RegexTest(s)
  {
    RegexTestIsAnchors(s);
    AtFrom(s, 0)
  }

  /** The test is unanchored and `\S` admits `@` and `.` themselves, while
      whitespace inside either run breaks the match. */
  lemma EmailExamples()
    ensures RegexTest("a@b.c")
    ensures RegexTest("write to a@b.c today")
    ensures RegexTest("a@@b..c")
    ensures !RegexTest("a@b")
    ensures !RegexTest("a @b.c")
    ensures !RegexTest("a@b c.d")
    ensures !RegexTest("@b.c")
  {
    assert MatchesEmail("a@b.c");
    var sentence := "write to a@b.c today";
    assert EmailAnchors(sentence, 10, 12);
    RegexTestIsAnchors(sentence);
    assert MatchesEmail("a@@b..c");
    assert !MatchesEmail("a@b");
    assert !MatchesEmail("a @b.c");
    assert !MatchesEmail("a@b c.d");
    assert !MatchesEmail("@b.c");
  }
}
