/**
 * The string operations the core relies on: case folding (Python `str.lower`,
 * JavaScript `toLowerCase`), Python `str.strip()` with no argument, and the
 * prefix and substring tests (`startsWith`, `includes`).
 */
module TextOps {

  /** An upper-case letter in ASCII or in the Latin-1 supplement (not the sign U+00D7). */
  predicate IsUpper(c: char) {
    ('A' <= c <= 'Z') || ('\U{C0}' <= c <= '\U{DE}' && c != '\U{D7}')
  }

  /** Lower-cases one character; every other character is left alone. */
  function LowerChar(c: char): (d: char)
    ensures !IsUpper(d)
    ensures !IsUpper(c) ==> d == c
  {
    if IsUpper(c) then (c as int + 32) as char else c
  }

  /** Lower-cases a string character by character. */
  function Lower(s: string): (r: string)
    ensures |r| == |s|
    ensures forall i :: 0 <= i < |s| ==> r[i] == LowerChar(s[i])
  {
    seq(|s|, i requires 0 <= i < |s| => LowerChar(s[i]))
  }

  /** A string with no upper-case character is its own lower-case form. */
  lemma LowerOfLowerCase(s: string)
    requires forall i :: 0 <= i < |s| ==> !IsUpper(s[i])
    ensures Lower(s) == s
  {
  }

  /** Lower-casing twice is lower-casing once. */
  lemma LowerIdempotent(s: string)
    ensures Lower(Lower(s)) == Lower(s)
  {
  }

  /** Lower-casing distributes over concatenation. */
  lemma LowerAppend(a: string, b: string)
    ensures Lower(a + b) == Lower(a) + Lower(b)
  {
  }

  /** Whitespace in the sense of Python's `str.isspace`. */
  predicate IsSpace(c: char) {
    || ('\t' <= c <= '\r')
    || ('\U{1C}' <= c <= ' ')
    || c == '\U{85}' || c == '\U{A0}' || c == '\U{1680}'
    || ('\U{2000}' <= c <= '\U{200A}')
    || c == '\U{2028}' || c == '\U{2029}' || c == '\U{202F}' || c == '\U{205F}' || c == '\U{3000}'
  }

  /** Lower-casing never turns whitespace into non-whitespace, nor the reverse. */
  lemma LowerCharKeepsSpace(c: char)
    ensures IsSpace(LowerChar(c)) == IsSpace(c)
  {
  }

  predicate AllSpace(s: string) {
    forall i :: 0 <= i < |s| ==> IsSpace(s[i])
  }

  /** Drops the leading whitespace of `s`. */
  function StripStart(s: string): (r: string)
    ensures |r| <= |s| && r == s[|s| - |r|..]
    ensures r == [] || !IsSpace(r[0])
  {
    if s != [] && IsSpace(s[0]) then StripStart(s[1..]) else s
  }

  /** What `StripStart` drops is whitespace. */
  lemma {:induction false} StripStartDropsSpace(s: string)
    ensures AllSpace(s[..|s| - |StripStart(s)|])
  {
    if s != [] && IsSpace(s[0]) {
      StripStartDropsSpace(s[1..]);
      var n := |s| - |StripStart(s)|;
      forall k | 0 <= k < n ensures IsSpace(s[k]) {
        if k > 0 {
          assert s[k] == s[1..][..n - 1][k - 1];
        }
      }
    }
  }

  /** Drops the trailing whitespace of `s`. */
  function StripEnd(s: string): (r: string)
    ensures |r| <= |s| && r == s[..|r|]
    ensures r == [] || !IsSpace(r[|r| - 1])
  {
    if s != [] && IsSpace(s[|s| - 1]) then StripEnd(s[..|s| - 1]) else s
  }

  /** What `StripEnd` drops is whitespace. */
  lemma {:induction false} StripEndDropsSpace(s: string)
    ensures AllSpace(s[|StripEnd(s)|..])
  {
    if s != [] && IsSpace(s[|s| - 1]) {
      var s' := s[..|s| - 1];
      StripEndDropsSpace(s');
      var m := |StripEnd(s)|;
      forall k | m <= k < |s| ensures IsSpace(s[k]) {
        if k < |s| - 1 {
          assert s[k] == s'[m..][k - m];
        }
      }
    }
  }

  /** Python `str.strip()`: drops whitespace at both ends. */
  function Strip(s: string): (r: string)
    ensures r == [] || (!IsSpace(r[0]) && !IsSpace(r[|r| - 1]))
  {
    StripEnd(StripStart(s))
  }

  /** `Strip` keeps a slice of `s` and drops only whitespace on either side of it. */
  lemma StripIsTrimmedSlice(s: string)
    ensures exists i, j :: 0 <= i <= j <= |s| && Strip(s) == s[i..j] && AllSpace(s[..i]) && AllSpace(s[j..])
  {
    var t := StripStart(s);
    var r := StripEnd(t);
    var i := |s| - |t|;
    var j := i + |r|;
    StripStartDropsSpace(s);
    StripEndDropsSpace(t);
    assert r == s[i..j];
    assert s[j..] == t[|r|..];
  }

  /** A string that does not begin or end with whitespace is left unchanged by `Strip`. */
  lemma StripTrimmed(s: string)
    requires s == [] || (!IsSpace(s[0]) && !IsSpace(s[|s| - 1]))
    ensures Strip(s) == s
  {
  }

  /** Stripping is idempotent. */
  lemma StripIdempotent(s: string)
    ensures Strip(Strip(s)) == Strip(s)
  {
    StripTrimmed(Strip(s));
  }

  /** Surrounding whitespace is invisible to `Strip`. */
  lemma StripPadded(p: string, s: string, q: string)
    requires AllSpace(p) && AllSpace(q)
    ensures Strip(p + s + q) == Strip(s)
  {
    calc {
      Strip(p + s + q);
      StripEnd(StripStart(p + s + q));
      { assert p + s + q == p + (s + q); StripStartPadded(p, s + q); }
      StripEnd(StripStart(s + q));
      { StripStartAppendSpace(s, q); }
      StripEnd(StripStart(s));
      Strip(s);
    }
  }

  /** Lower-casing then stripping ignores white space around a word. */
  lemma NormalisePadded(p: string, word: string, q: string)
    requires AllSpace(p) && AllSpace(q)
    ensures Strip(Lower(p + word + q)) == Strip(Lower(word))
  {
    LowerAppend(p + word, q);
    LowerAppend(p, word);
    LowerOfLowerCase(p);
    LowerOfLowerCase(q);
    StripPadded(p, Lower(word), q);
  }

  lemma {:induction false} StripStartPadded(p: string, s: string)
    requires AllSpace(p)
    ensures StripStart(p + s) == StripStart(s)
  {
    if p == [] {
      assert p + s == s;
    } else {
      assert (p + s)[0] == p[0];
      assert (p + s)[1..] == p[1..] + s;
      assert AllSpace(p[1..]) by {
        forall k | 0 <= k < |p[1..]| ensures IsSpace(p[1..][k]) {
          assert p[1..][k] == p[k + 1];
        }
      }
      StripStartPadded(p[1..], s);
    }
  }

  lemma {:induction false} StripEndPadded(s: string, q: string)
    requires AllSpace(q)
    ensures StripEnd(s + q) == StripEnd(s)
  {
    if q == [] {
      assert s + q == s;
    } else {
      assert (s + q)[|s + q| - 1] == q[|q| - 1];
      var q' := q[..|q| - 1];
      assert (s + q)[..|s + q| - 1] == s + q';
      assert AllSpace(q') by {
        forall k | 0 <= k < |q'| ensures IsSpace(q'[k]) {
          assert q'[k] == q[k];
        }
      }
      StripEndPadded(s, q');
    }
  }

  /** Trailing whitespace survives `StripStart` unless the whole string is whitespace. */
  lemma {:induction false} StripStartAppendSpace(s: string, q: string)
    requires AllSpace(q)
    ensures StripEnd(StripStart(s + q)) == StripEnd(StripStart(s))
  {
    if s == [] {
      assert s + q == q;
      AllSpaceStripsToEmpty(q);
    } else if IsSpace(s[0]) {
      assert (s + q)[0] == s[0];
      assert (s + q)[1..] == s[1..] + q;
      StripStartAppendSpace(s[1..], q);
    } else {
      assert (s + q)[0] == s[0];
      StripEndPadded(s, q);
    }
  }

  lemma {:induction false} AllSpaceStripsToEmpty(q: string)
    requires AllSpace(q)
    ensures StripStart(q) == []
  {
    if q != [] {
      assert AllSpace(q[1..]) by {
        forall k | 0 <= k < |q[1..]| ensures IsSpace(q[1..][k]) {
          assert q[1..][k] == q[k + 1];
        }
      }
      AllSpaceStripsToEmpty(q[1..]);
    }
  }

  lemma {:induction false} StripStartLower(s: string)
    ensures StripStart(Lower(s)) == Lower(StripStart(s))
  {
    if s != [] {
      LowerCharKeepsSpace(s[0]);
      if IsSpace(s[0]) {
        assert Lower(s)[1..] == Lower(s[1..]);
        StripStartLower(s[1..]);
      }
    }
  }

  lemma {:induction false} StripEndLower(s: string)
    ensures StripEnd(Lower(s)) == Lower(StripEnd(s))
  {
    if s != [] {
      LowerCharKeepsSpace(s[|s| - 1]);
      if IsSpace(s[|s| - 1]) {
        assert Lower(s)[..|s| - 1] == Lower(s[..|s| - 1]);
        StripEndLower(s[..|s| - 1]);
      }
    }
  }

  /** Lower-casing and stripping commute. */
  lemma StripLowerCommute(s: string)
    ensures Strip(Lower(s)) == Lower(Strip(s))
  {
    StripStartLower(s);
    StripEndLower(StripStart(s));
  }

  /** JavaScript `startsWith`. */
  predicate StartsWith(s: string, prefix: string) {
    |prefix| <= |s| && s[..|prefix|] == prefix
  }

  /** JavaScript `includes` on strings: `sub` occurs at some position of `s`. */
  function Contains(s: string, sub: string): (b: bool)
    ensures b <==> exists i :: 0 <= i <= |s| && StartsWith(s[i..], sub)
  {
    if StartsWith(s, sub) then
      assert StartsWith(s[0..], sub);
      true
    else if s == [] then
      false
    else
      var b := Contains(s[1..], sub);
      assert forall i :: 1 <= i <= |s| ==> s[i..] == s[1..][i - 1..];
      b
  }

  /** A string lacking some character of `sub` does not contain `sub`. */
  lemma MissingCharExcludes(s: string, sub: string, j: nat)
    requires j < |sub| && sub[j] !in s
    ensures !Contains(s, sub)
  {
    forall i | 0 <= i <= |s| ensures !StartsWith(s[i..], sub) {
      if i + j < |s| {
        assert s[i..][j] == s[i + j];
      }
    }
  }

  /** `a` immediately followed by `b` somewhere in `s`. */
  predicate HasPair(s: string, a: char, b: char) {
    exists k :: 0 <= k < |s| - 1 && s[k] == a && s[k + 1] == b
  }

  /** A string lacking some pair of neighbouring characters of `sub` does not contain `sub`. */
  lemma MissingPairExcludes(s: string, sub: string, j: nat)
    requires j + 1 < |sub| && !HasPair(s, sub[j], sub[j + 1])
    ensures !Contains(s, sub)
  {
    forall i | 0 <= i <= |s| ensures !StartsWith(s[i..], sub) {
      if i + j + 1 < |s| {
        assert s[i..][j] == s[i + j] && s[i..][j + 1] == s[i + j + 1];
      }
    }
  }
}
