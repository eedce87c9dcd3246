/** src/number.ts: the digit test, plus the `lerp`/`inverseLerp` helpers that
    src/rail/path.ts imports from the same module (their text is not part of
    this model; the standard definitions are used). */
module Numbers {

  const DECIMAL_DIGITS: string := "0123456789"

  /** `isDigit` compares the char code of the first character with those of
      '0' and '9'; on the empty string the char code is NaN and both
      comparisons are false. */
  function IsDigit(s: string): (r: bool)
    ensures r <==> |s| > 0 && s[0] in DECIMAL_DIGITS
  {
    DigitCharIsListed(if |s| > 0 then s[0] else '0');
    |s| > 0 && '0' <= s[0] <= '9'
  }

  /** A character lies between '0' and '9' exactly when it is one of the ten digits. */
  lemma DigitCharIsListed(c: char)
    ensures '0' <= c <= '9' <==> c in DECIMAL_DIGITS
  {
    if '0' <= c <= '9' {
      var k := c as int - '0' as int;
      assert 0 <= k < 10;
      assert DECIMAL_DIGITS[k] == c;
    }
  }

  /** Only the first character is examined. */
  lemma IsDigitLooksAtFirstOnly(s: string, rest: string)
    requires |s| > 0
    ensures IsDigit(s + rest) == IsDigit(s)
    ensures IsDigit(s) == IsDigit([s[0]])
  {
    assert (s + rest)[0] == s[0];
  }

  function Lerp(a: real, b: real, t: real): (r: real)
    ensures t == 0.0 ==> r == a
    ensures t == 1.0 ==> r == b
  {
    a + (b - a) * t
  }

  function InverseLerp(a: real, b: real, v: real): (r: real)
    requires a != b
    ensures v == a ==> r == 0.0
    ensures v == b ==> r == 1.0
    ensures r * (b - a) == v - a
  {
    DivSelf(b - a);
    (v - a) / (b - a)
  }

  /** Scaling the fraction by a span scales the distance from `a` alike:
      a fraction `t` with `t * span == covered` lands `(b - a) * covered / span` past `a`. */
  lemma LerpScaled(a: real, b: real, t: real, span: real, covered: real)
    requires t * span == covered
    ensures (Lerp(a, b, t) - a) * span == (b - a) * covered
  {
    calc {
      (Lerp(a, b, t) - a) * span;
      == (b - a) * t * span;
      == (b - a) * (t * span);
    }
  }

  lemma DivSelf(x: real)
    requires x != 0.0
    ensures x / x == 1.0
  {
  }
}
