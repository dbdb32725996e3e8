/**
 * The few Python string operations the installer relies on: `str.strip()`
 * with no argument, `str.lower()` and `str.startswith`, written over Dafny
 * strings (sequences of Unicode scalar values).
 */
module Strings {

  /** Python's `str.isspace` for one character: the characters `str.strip()` removes. */
  predicate IsSpace(c: char) {
    ('\t' <= c <= '\r')
    || ('\U{1C}' <= c <= ' ')
    || c == '\U{85}' || c == '\U{A0}' || c == '\U{1680}'
    || ('\U{2000}' <= c <= '\U{200A}')
    || c == '\U{2028}' || c == '\U{2029}' || c == '\U{202F}' || c == '\U{205F}'
    || c == '\U{3000}'
  }

  predicate AllSpace(s: string) {
    forall i | 0 <= i < |s| :: IsSpace(s[i])
  }

  /** Drops leading whitespace. */
  function LStrip(s: string): string {
    if s != [] && IsSpace(s[0]) then LStrip(s[1..]) else s
  }

  /** Drops trailing whitespace. */
  function RStrip(s: string): string {
    if s != [] && IsSpace(s[|s| - 1]) then RStrip(s[..|s| - 1]) else s
  }

  /** Python `s.strip()`: never longer than `s`, and neither starting nor ending with whitespace. */
  function Strip(s: string): (r: string)
    ensures |r| <= |s|
    ensures r != [] ==> !IsSpace(r[0]) && !IsSpace(r[|r| - 1])
  {
    LStripShape(s);
    RStripShape(LStrip(s));
    RStrip(LStrip(s))
  }

  /**
   * `s[a..b]` is what stripping `s` leaves: everything before `a` and from `b`
   * on is whitespace, and the kept part neither starts nor ends with it.
   */
  ghost predicate TrimmedAt(s: string, a: int, b: int) {
    && 0 <= a <= b <= |s|
    && AllSpace(s[..a]) && AllSpace(s[b..])
    && (a < b ==> !IsSpace(s[a]) && !IsSpace(s[b - 1]))
  }

  lemma {:induction false} LStripShape(s: string)
    ensures |LStrip(s)| <= |s|
    ensures LStrip(s) == s[|s| - |LStrip(s)|..]
    ensures AllSpace(s[..|s| - |LStrip(s)|])
    ensures LStrip(s) != [] ==> !IsSpace(LStrip(s)[0])
  {
    if s != [] && IsSpace(s[0]) {
      LStripShape(s[1..]);
      var k := |s| - |LStrip(s)|;
      assert s[..k] == [s[0]] + s[1..][..k - 1];
    }
  }

  lemma {:induction false} RStripShape(s: string)
    ensures |RStrip(s)| <= |s|
    ensures RStrip(s) == s[..|RStrip(s)|]
    ensures AllSpace(s[|RStrip(s)|..])
    ensures RStrip(s) != [] ==> !IsSpace(RStrip(s)[|RStrip(s)| - 1])
    ensures s != [] && !IsSpace(s[0]) && RStrip(s) != [] ==> !IsSpace(RStrip(s)[0])
    ensures s != [] && !IsSpace(s[0]) ==> RStrip(s) != []
  {
    if s != [] && IsSpace(s[|s| - 1]) {
      var t := s[..|s| - 1];
      RStripShape(t);
      var k := |RStrip(s)|;
      assert s[k..] == t[k..] + [s[|s| - 1]];
    }
  }

  /** Stripping keeps exactly one contiguous, whitespace-trimmed slice of the input. */
  lemma StripIsTrim(s: string)
    ensures TrimmedAt(s, |s| - |LStrip(s)|, |s| - |LStrip(s)| + |Strip(s)|)
    ensures Strip(s) == s[|s| - |LStrip(s)|..|s| - |LStrip(s)| + |Strip(s)|]
  {
    var l := LStrip(s);
    var t := Strip(s);
    LStripShape(s);
    RStripShape(l);
    var a := |s| - |l|;
    var b := a + |t|;
    assert l == s[a..];
    assert t == l[..|t|];
    assert s[b..] == l[|t|..];
    assert AllSpace(s[b..]);
    assert s[a..b] == t;
    if a < b {
      assert s[a] == t[0];
      assert s[b - 1] == t[|t| - 1];
    }
  }

  /** A string that is already stripped is left alone by stripping. */
  lemma {:induction false} StripIdempotent(s: string)
    ensures Strip(Strip(s)) == Strip(s)
  {
    StripIsTrim(s);
    var t := Strip(s);
    if t != [] {
      assert !IsSpace(t[0]) && !IsSpace(t[|t| - 1]);
      assert LStrip(t) == t;
      assert RStrip(t) == t;
    }
  }

  /** Leading whitespace in front of a non-space character is all that `LStrip` removes. */
  lemma {:induction false} LStripPadding(p: string, s: string)
    requires AllSpace(p) && s != [] && !IsSpace(s[0])
    ensures LStrip(p + s) == s
    decreases |p|
  {
    if p == [] {
      assert p + s == s;
    } else {
      assert (p + s)[1..] == p[1..] + s;
      LStripPadding(p[1..], s);
    }
  }

  /** Trailing whitespace behind a non-space character is all that `RStrip` removes. */
  lemma {:induction false} RStripPadding(s: string, q: string)
    requires AllSpace(q) && s != [] && !IsSpace(s[|s| - 1])
    ensures RStrip(s + q) == s
    decreases |q|
  {
    if q == [] {
      assert s + q == s;
    } else {
      assert (s + q)[..|s + q| - 1] == s + q[..|q| - 1];
      RStripPadding(s, q[..|q| - 1]);
    }
  }

  /** Stripping a padded string gives back exactly the text inside the padding. */
  lemma StripPadded(p: string, t: string, q: string)
    requires AllSpace(p) && AllSpace(q)
    requires t != [] && !IsSpace(t[0]) && !IsSpace(t[|t| - 1])
    ensures Strip(p + t + q) == t
  {
    assert p + t + q == p + (t + q);
    LStripPadding(p, t + q);
    RStripPadding(t, q);
  }

  /** Python `c.lower()` restricted to the ASCII letters. */
  function LowerChar(c: char): char {
    if 'A' <= c <= 'Z' then (c as int + 32) as char else c
  }

  /** Python `s.lower()` over ASCII: every letter A-Z becomes a-z, nothing else changes. */
  function Lower(s: string): (r: string)
    ensures |r| == |s|
    ensures forall i | 0 <= i < |s| :: r[i] == LowerChar(s[i])
    ensures forall i | 0 <= i < |r| :: !('A' <= r[i] <= 'Z')
  {
    seq(|s|, i requires 0 <= i < |s| => LowerChar(s[i]))
  }

  /** Lower-casing twice is lower-casing once. */
  lemma LowerIdempotent(s: string)
    ensures Lower(Lower(s)) == Lower(s)
  {
    var r := Lower(s);
    assert forall i | 0 <= i < |r| :: LowerChar(r[i]) == r[i];
  }

  /** `c` lower-cases to `d`, for a `d` that is not a capital: `c` is `d` itself or its capital. */
  predicate SameLetter(c: char, d: char) {
    c == d || ('a' <= d <= 'z' && c as int == d as int - 32)
  }

  lemma LowerCharIff(c: char, d: char)
    requires !('A' <= d <= 'Z')
    ensures LowerChar(c) == d <==> SameLetter(c, d)
  {
  }

  /**
   * The lower-cased `s` starts with a prefix without capitals exactly when
   * each of the first characters of `s` is the prefix's character or its
   * capital.
   */
  lemma StartsWithLowerIff(s: string, p: string)
    requires forall i | 0 <= i < |p| :: !('A' <= p[i] <= 'Z')
    ensures StartsWith(Lower(s), p) <==> |p| <= |s| && forall i | 0 <= i < |p| :: SameLetter(s[i], p[i])
  {
    if |p| <= |s| {
      var l := Lower(s);
      forall i | 0 <= i < |p| ensures l[i] == p[i] <==> SameLetter(s[i], p[i]) {
        LowerCharIff(s[i], p[i]);
      }
      if forall i | 0 <= i < |p| :: SameLetter(s[i], p[i]) {
        assert l[..|p|] == p;
      }
      if StartsWith(l, p) {
        forall i | 0 <= i < |p| ensures SameLetter(s[i], p[i]) {
          assert l[i] == l[..|p|][i];
        }
      }
    }
  }

  /** Python `s.startswith(p)`: `s` is `p` followed by something. */
  predicate StartsWith(s: string, p: string)
    ensures StartsWith(s, p) <==> exists t :: s == p + t
  {
    assert forall t | s == p + t :: |p| <= |s| && s[..|p|] == p;
    if |p| <= |s| && s[..|p|] == p then
      assert s == p + s[|p|..];
      true
    else
      false
  }
}
