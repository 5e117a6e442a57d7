/**
 * Whitespace trimming as the todo application uses it: every description,
 * menu choice and id entry goes through `str.strip()` before it is looked at.
 * Only the ASCII characters among Python's whitespace are modelled.
 */
module Text {

  /**
   * The ASCII characters `str.strip()` removes: space, \t, \n, \v, \f, \r and
   * the four separators \x1c to \x1f, which `str.isspace()` also counts.
   */
  predicate IsSpace(c: char) {
    c == ' ' || '\t' <= c <= '\r' || '\U{1C}' <= c <= '\U{1F}'
  }

  /** A text made of whitespace only (the empty text included). */
  predicate IsBlank(s: string) {
    forall k :: 0 <= k < |s| ==> IsSpace(s[k])
  }

  /** A text that neither starts nor ends with whitespace. */
  predicate IsTrimmed(s: string) {
    s == [] || (!IsSpace(s[0]) && !IsSpace(s[|s| - 1]))
  }

  /** `r` is the piece `s[i..j]` of `s` and only whitespace surrounds it. */
  ghost predicate StrippedFrom(r: string, s: string) {
    exists i, j :: 0 <= i <= j <= |s| && r == s[i..j] && IsBlank(s[..i]) && IsBlank(s[j..])
  }

  /** Removes the leading whitespace (`str.lstrip()`). */
  function TrimStart(s: string): (r: string)
    ensures |r| <= |s|
    ensures r != [] ==> !IsSpace(r[0])
  {
    if s != [] && IsSpace(s[0]) then TrimStart(s[1..]) else s
  }

  /** What `TrimStart` drops is a whitespace prefix, and what it keeps is the rest of the text. */
  lemma {:induction false} TrimStartSplits(s: string)
    ensures TrimStart(s) == s[|s| - |TrimStart(s)|..]
    ensures IsBlank(s[..|s| - |TrimStart(s)|])
  {
    if s != [] && IsSpace(s[0]) {
      TrimStartSplits(s[1..]);
      var n := |s| - |TrimStart(s)|;
      assert s[1..][..n - 1] == s[1..n];
    }
  }

  /** Removes the trailing whitespace (`str.rstrip()`). */
  function TrimEnd(s: string): (r: string)
    ensures |r| <= |s|
    ensures r != [] ==> r[0] == s[0] && !IsSpace(r[|r| - 1])
  {
    if s != [] && IsSpace(s[|s| - 1]) then TrimEnd(s[..|s| - 1]) else s
  }

  /** What `TrimEnd` keeps is a prefix of the text, and what it drops is whitespace. */
  lemma {:induction false} TrimEndSplits(s: string)
    ensures TrimEnd(s) == s[..|TrimEnd(s)|]
    ensures IsBlank(s[|TrimEnd(s)|..])
  {
    if s != [] && IsSpace(s[|s| - 1]) {
      TrimEndSplits(s[..|s| - 1]);
      var n := |TrimEnd(s)|;
      assert s[..|s| - 1][n..] == s[n..|s| - 1];
    }
  }

  /** `str.strip()`: the text without its surrounding whitespace. */
  function Strip(s: string): (r: string)
    ensures IsTrimmed(r) && |r| <= |s|
  {
    TrimEnd(TrimStart(s))
  }

  /** Stripping leaves nothing exactly when the text is all whitespace. */
  lemma StripIsEmptyIffBlank(s: string)
    ensures Strip(s) == [] <==> IsBlank(s)
  {
    var t := TrimStart(s);
    TrimStartSplits(s);
    if t != [] {
      assert s[|s| - |t|] == t[0];
      TrimEndSplits(t);
    }
  }

  /** Stripping removes whitespace around the text and nothing else. */
  lemma StripRemovesOnlySurroundingSpace(s: string)
    ensures StrippedFrom(Strip(s), s)
  {
    var t := TrimStart(s);
    var r := TrimEnd(t);
    TrimStartSplits(s);
    TrimEndSplits(t);
    var i := |s| - |t|;
    assert s[i..i + |r|] == r && s[..i] == s[..|s| - |t|];
    assert s[i + |r|..] == t[|r|..];
  }

  /** Stripping twice is stripping once. */
  lemma StripIdempotent(s: string)
    ensures Strip(Strip(s)) == Strip(s)
  {
    var r := Strip(s);
    assert TrimStart(r) == r;
  }

  /** Leading whitespace in front of a text that does not start with whitespace is dropped. */
  lemma {:induction false} TrimStartOfPadded(w: string, t: string)
    requires IsBlank(w)
    requires t == [] || !IsSpace(t[0])
    ensures TrimStart(w + t) == t
  {
    if w != [] {
      assert (w + t)[1..] == w[1..] + t;
      TrimStartOfPadded(w[1..], t);
    }
  }

  /** Trailing whitespace behind a text that does not end with whitespace is dropped. */
  lemma {:induction false} TrimEndOfPadded(t: string, w: string)
    requires IsBlank(w)
    requires t == [] || !IsSpace(t[|t| - 1])
    ensures TrimEnd(t + w) == t
  {
    if w != [] {
      assert (t + w)[..|t + w| - 1] == t + w[..|w| - 1];
      TrimEndOfPadded(t, w[..|w| - 1]);
    } else {
      assert t + w == t;
    }
  }

  /** Stripping recovers a trimmed text from any whitespace padding around it: `"  x  "` gives `"x"`. */
  lemma StripPadded(w1: string, t: string, w2: string)
    requires IsBlank(w1) && IsBlank(w2) && IsTrimmed(t)
    ensures Strip(w1 + t + w2) == t
  {
    if t == [] {
      assert IsBlank(w1 + t + w2) by {
        forall k | 0 <= k < |w1 + t + w2| ensures IsSpace((w1 + t + w2)[k]) {
          if k >= |w1| { assert (w1 + t + w2)[k] == w2[k - |w1|]; }
        }
      }
      StripIsEmptyIffBlank(w1 + t + w2);
    } else {
      assert w1 + t + w2 == w1 + (t + w2);
      TrimStartOfPadded(w1, t + w2);
      TrimEndOfPadded(t, w2);
    }
  }

  /** A text without surrounding whitespace is left as it is. */
  lemma StripOfTrimmed(t: string)
    requires IsTrimmed(t)
    ensures Strip(t) == t
  {
    assert [] + t + [] == t;
    StripPadded([], t, []);
  }
}
