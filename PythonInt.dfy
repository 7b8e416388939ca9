/**
 * Python's `int(s)` on a string, base 10, as the views apply it to query
 * parameters: surrounding white space is ignored, one optional sign, then
 * ASCII decimal digits in which single underscores may separate digits.
 * Anything else raises `ValueError`, modelled as `None`. The white space
 * `int` skips is not quite `str.strip`'s: see `IsIntSpace`.
 */
module PythonInt {
  import opened Wrappers
  import opened TextOps

  predicate IsDigit(c: char) {
    '0' <= c <= '9'
  }

  predicate AllDigits(ds: string) {
    forall i :: 0 <= i < |ds| ==> IsDigit(ds[i])
  }

  /** Digits, where an underscore may stand only between two digits. */
  predicate DigitGroups(b: string) {
    b != [] && IsDigit(b[0]) && IsDigit(b[|b| - 1]) && forall i :: 0 <= i < |b| ==> GroupChar(b, i)
  }

  /** Position `i` holds a digit, or an underscore with a digit on each side. */
  predicate GroupChar(b: string, i: nat)
    requires i < |b|
  {
    IsDigit(b[i]) || (b[i] == '_' && 0 < i < |b| - 1 && IsDigit(b[i - 1]) && IsDigit(b[i + 1]))
  }

  /** Every character is a digit or an underscore. */
  predicate DigitsOrUnderscores(b: string) {
    forall i :: 0 <= i < |b| ==> IsDigit(b[i]) || b[i] == '_'
  }

  /** The digits of a digit-group string, underscores removed. */
  function DropUnderscores(b: string): (ds: string)
    ensures DigitsOrUnderscores(b) ==> AllDigits(ds)
    ensures AllDigits(b) ==> ds == b
    ensures b != [] && IsDigit(b[0]) ==> ds != []
  {
    if b == [] then []
    else if b[0] == '_' then DropUnderscores(b[1..])
    else [b[0]] + DropUnderscores(b[1..])
  }

  /** The value of a string of decimal digits, most significant first. */
  function DecimalValue(ds: string): nat
    requires AllDigits(ds)
  {
    if ds == [] then 0 else 10 * DecimalValue(ds[..|ds| - 1]) + (ds[|ds| - 1] as int - '0' as int)
  }

  /** The information separators U+001C to U+001F, white space to `str.isspace` only. */
  predicate IsSeparator(c: char) {
    '\U{1C}' <= c <= '\U{1F}'
  }

  /**
   * The white space `int` skips around a number: ASCII tab to carriage return
   * and space, and every non-ASCII `str.isspace` character. The information
   * separators are not skipped, so they make `int` raise.
   */
  predicate IsIntSpace(c: char) {
    IsSpace(c) && !IsSeparator(c)
  }

  predicate AllIntSpace(s: string) {
    forall i :: 0 <= i < |s| ==> IsIntSpace(s[i])
  }

  predicate NoSeparator(s: string) {
    forall i :: 0 <= i < |s| ==> !IsSeparator(s[i])
  }

  /** Drops the leading white space `int` skips. */
  function TrimIntStart(s: string): (r: string)
    ensures |r| <= |s| && r == s[|s| - |r|..]
    ensures r == [] || !IsIntSpace(r[0])
  {
    if s != [] && IsIntSpace(s[0]) then TrimIntStart(s[1..]) else s
  }

  /** Drops the trailing white space `int` skips. */
  function TrimIntEnd(s: string): (r: string)
    ensures |r| <= |s| && r == s[..|r|]
    ensures r == [] || !IsIntSpace(r[|r| - 1])
  {
    if s != [] && IsIntSpace(s[|s| - 1]) then TrimIntEnd(s[..|s| - 1]) else s
  }

  /** Both ends trimmed. */
  function TrimInt(s: string): string {
    TrimIntEnd(TrimIntStart(s))
  }

  /** `int(s)`: `None` where Python raises `ValueError`. */
  function ParseInt(s: string): Option<int> {
    ParseSigned(TrimInt(s))
  }

  /** An optional sign, then digit groups. */
  function ParseSigned(t: string): Option<int> {
    if t != [] && t[0] == '-' then
      match ParseDigitGroups(t[1..])
      case None => None
      case Some(v) => Some(-v)
    else if t != [] && t[0] == '+' then ParseDigitGroups(t[1..])
    else ParseDigitGroups(t)
  }

  /** Digits with single underscores between them, read as a decimal number. */
  function ParseDigitGroups(b: string): (r: Option<int>)
    ensures r.Some? <==> DigitGroups(b)
    ensures r.Some? ==> r.value >= 0
  {
    if DigitGroups(b) then
      GroupsAreDigitsOrUnderscores(b);
      Some(DecimalValue(DropUnderscores(b)))
    else None
  }

  lemma GroupsAreDigitsOrUnderscores(b: string)
    requires DigitGroups(b)
    ensures DigitsOrUnderscores(b)
  {
    forall i | 0 <= i < |b| ensures IsDigit(b[i]) || b[i] == '_' {
      assert GroupChar(b, i);
    }
  }

  /** The decimal digits of `n` without leading zeros, as `str` writes them. */
  function NatDigits(n: nat): (ds: string)
    ensures ds != [] && AllDigits(ds)
    ensures DecimalValue(ds) == n
  {
    if n < 10 then [('0' as int + n) as char]
    else
      var ds := NatDigits(n / 10) + [('0' as int + n % 10) as char];
      assert ds[..|ds| - 1] == NatDigits(n / 10);
      ds
  }

  /** `str(n)` for an integer. */
  function IntToString(n: int): (s: string)
    ensures s != [] && !IsSpace(s[0]) && !IsSpace(s[|s| - 1])
  {
    if n < 0 then "-" + NatDigits(-n) else NatDigits(n)
  }

  /** A digit string is its own digit-group string. */
  lemma DigitsAreGroups(ds: string)
    requires ds != [] && AllDigits(ds)
    ensures DigitGroups(ds) && DropUnderscores(ds) == ds
  {
  }

  /** What `str` writes, `int` reads back. */
  lemma ParseIntOfString(n: int)
    ensures ParseInt(IntToString(n)) == Some(n)
  {
    var s := IntToString(n);
    assert TrimIntStart(s) == s;
    assert TrimInt(s) == s;
    ParseSignedOfString(n);
  }

  lemma ParseSignedOfString(n: int)
    ensures ParseSigned(IntToString(n)) == Some(n)
  {
    var s := IntToString(n);
    var ds := NatDigits(if n < 0 then -n else n);
    DigitsAreGroups(ds);
    if n < 0 {
      assert s[1..] == ds;
    } else {
      assert s == ds && ds[0] != '-' && ds[0] != '+';
    }
  }

  /** Away from the information separators, `int` trims exactly what `str.strip` does. */
  lemma {:induction false} TrimIntStartIsStripStart(s: string)
    requires NoSeparator(s)
    ensures TrimIntStart(s) == StripStart(s)
  {
    if s != [] && IsSpace(s[0]) {
      assert NoSeparator(s[1..]) by {
        forall i | 0 <= i < |s[1..]| ensures !IsSeparator(s[1..][i]) {
          assert s[1..][i] == s[i + 1];
        }
      }
      TrimIntStartIsStripStart(s[1..]);
    }
  }

  lemma {:induction false} TrimIntEndIsStripEnd(s: string)
    requires NoSeparator(s)
    ensures TrimIntEnd(s) == StripEnd(s)
  {
    if s != [] && IsSpace(s[|s| - 1]) {
      var init := s[..|s| - 1];
      assert NoSeparator(init) by {
        forall i | 0 <= i < |init| ensures !IsSeparator(init[i]) {
          assert init[i] == s[i];
        }
      }
      TrimIntEndIsStripEnd(init);
    }
  }

  lemma TrimIntIsStrip(s: string)
    requires NoSeparator(s)
    ensures TrimInt(s) == Strip(s)
  {
    TrimIntStartIsStripStart(s);
    var t := StripStart(s);
    assert NoSeparator(t) by {
      forall i | 0 <= i < |t| ensures !IsSeparator(t[i]) {
        assert t[i] == s[|s| - |t| + i];
      }
    }
    TrimIntEndIsStripEnd(t);
  }

  /** Trimming stops at an information separator: it is never dropped from the front. */
  lemma {:induction false} TrimIntStartKeepsSeparator(s: string, k: nat)
    requires k < |s| && IsSeparator(s[k])
    ensures |s| - |TrimIntStart(s)| <= k
  {
    if s != [] && IsIntSpace(s[0]) {
      TrimIntStartKeepsSeparator(s[1..], k - 1);
    }
  }

  /** Trimming stops at an information separator: it is never dropped from the back. */
  lemma {:induction false} TrimIntEndKeepsSeparator(s: string, k: nat)
    requires k < |s| && IsSeparator(s[k])
    ensures k < |TrimIntEnd(s)|
  {
    if s != [] && IsIntSpace(s[|s| - 1]) {
      TrimIntEndKeepsSeparator(s[..|s| - 1], k);
    }
  }

  /** An information separator anywhere in the text makes `int` raise. */
  lemma SeparatorRefused(s: string, k: nat)
    requires k < |s| && IsSeparator(s[k])
    ensures ParseInt(s) == None
  {
    TrimIntStartKeepsSeparator(s, k);
    var t := TrimIntStart(s);
    var m := k - (|s| - |t|);
    assert t[m] == s[k];
    TrimIntEndKeepsSeparator(t, m);
    var u := TrimIntEnd(t);
    assert u[m] == s[k];
    SignedRefusesSeparator(u, m);
  }

  lemma SignedRefusesSeparator(t: string, m: nat)
    requires m < |t| && IsSeparator(t[m])
    ensures ParseSigned(t) == None
  {
    if t[0] == '-' || t[0] == '+' {
      assert !GroupChar(t[1..], m - 1);
    } else {
      assert !GroupChar(t, m);
    }
  }

  /** White space that `int` skips around the number is ignored. */
  lemma ParseIntPadded(p: string, s: string, q: string)
    requires AllIntSpace(p) && AllIntSpace(q)
    ensures ParseInt(p + s + q) == ParseInt(s)
  {
    var padded := p + s + q;
    if k :| 0 <= k < |s| && IsSeparator(s[k]) {
      assert padded[|p| + k] == s[k];
      SeparatorRefused(padded, |p| + k);
      SeparatorRefused(s, k);
    } else {
      assert NoSeparator(padded) by {
        forall i | 0 <= i < |padded| ensures !IsSeparator(padded[i]) {
          if i < |p| {
            assert padded[i] == p[i];
          } else if i < |p| + |s| {
            assert padded[i] == s[i - |p|];
          } else {
            assert padded[i] == q[i - |p| - |s|];
          }
        }
      }
      TrimIntIsStrip(padded);
      TrimIntIsStrip(s);
      StripPadded(p, s, q);
    }
  }

  /** A string that is empty or only white space is refused. */
  lemma ParseIntBlank(s: string)
    requires AllSpace(s)
    ensures ParseInt(s) == None
  {
    if k :| 0 <= k < |s| && IsSeparator(s[k]) {
      SeparatorRefused(s, k);
    } else {
      TrimIntIsStrip(s);
      AllSpaceStripsToEmpty(s);
      assert Strip(s) == StripEnd(StripStart(s));
    }
  }

  /** A sign not followed by a digit is refused: `"-"`, `"+ 5"`, `"-x"`. */
  lemma ParseIntNeedsDigitAfterSign(sign: char, rest: string)
    requires sign == '-' || sign == '+'
    requires rest == [] || !IsDigit(rest[0])
    ensures ParseInt([sign] + rest) == None
  {
    var s := [sign] + rest;
    TrimIntAfterHead(s);
    var t := TrimInt(s);
    assert t[1..] == [] || t[1..][0] == rest[0];
    NoLeadingDigitRefused(t[1..]);
  }

  /** A text that does not start with white space keeps its head, and trimming leaves a prefix. */
  lemma TrimIntAfterHead(s: string)
    requires s != [] && !IsIntSpace(s[0])
    ensures var t := TrimInt(s); t != [] && t[0] == s[0] && t == s[..|t|]
  {
    assert TrimIntStart(s) == s;
    TrimIntEndPrefix(s);
  }

  /** Trimming the end keeps a first character that is not white space. */
  lemma {:induction false} TrimIntEndPrefix(s: string)
    requires s != [] && !IsIntSpace(s[0])
    ensures TrimIntEnd(s) != []
  {
    if IsIntSpace(s[|s| - 1]) {
      TrimIntEndPrefix(s[..|s| - 1]);
    }
  }

  lemma NoLeadingDigitRefused(b: string)
    requires b == [] || !IsDigit(b[0])
    ensures ParseDigitGroups(b) == None
  {
  }
}
