/** Reading an integer out of attribute text, as `int(value.strip())` does:
    surrounding whitespace is removed, then an optional sign and a run of
    decimal digits must make up the whole string. `FormatInt` is the
    independent reference it is checked against (its inverse). */
module IntegerText {
  import opened Wrappers

  /** The characters `str.strip()` removes: space, and tab, line feed,
      vertical tab, form feed and carriage return (codes 9 to 13). */
  predicate IsWhitespace(c: char) {
    c == ' ' || '\t' <= c <= '\r'
  }

  predicate AllWhitespace(s: string) {
    forall i :: 0 <= i < |s| ==> IsWhitespace(s[i])
  }

  /** `s` with its leading whitespace removed: a suffix of `s`, only whitespace
      was dropped, and it does not start with whitespace. */
  function StripLeading(s: string): (r: string)
    ensures |r| <= |s| && r == s[|s| - |r|..]
    ensures forall i :: 0 <= i < |s| - |r| ==> IsWhitespace(s[i])
    ensures r == [] || !IsWhitespace(r[0])
  {
    if s != [] && IsWhitespace(s[0]) then StripLeading(s[1..]) else s
  }

  /** `s` with its trailing whitespace removed: a prefix of `s`, only whitespace
      was dropped, and it does not end with whitespace. */
  function StripTrailing(s: string): (r: string)
    ensures |r| <= |s| && r == s[..|r|]
    ensures forall i :: |r| <= i < |s| ==> IsWhitespace(s[i])
    ensures r == [] || !IsWhitespace(r[|r| - 1])
  {
    if s != [] && IsWhitespace(s[|s| - 1]) then StripTrailing(s[..|s| - 1]) else s
  }

  /** `str.strip()`: the text neither starts nor ends with whitespace, and it
      is empty exactly when `s` is all whitespace. `StripPadded` shows that
      the whitespace around the text is all that is removed. */
  function Strip(s: string): (r: string)
    ensures r == [] || (!IsWhitespace(r[0]) && !IsWhitespace(r[|r| - 1]))
    ensures r == [] <==> AllWhitespace(s)
  {
    var t := StripLeading(s);
    var r := StripTrailing(t);
    assert t != [] ==> t[0] == s[|s| - |t|];
    r
  }

  predicate IsDigit(c: char) {
    '0' <= c <= '9'
  }

  predicate AllDigits(s: string) {
    forall i :: 0 <= i < |s| ==> IsDigit(s[i])
  }

  function DigitValue(c: char): (d: nat)
    requires IsDigit(c)
    ensures d < 10
  {
    c as int - '0' as int
  }

  /** The number a run of decimal digits denotes (leading zeros allowed). */
  function DigitsValue(s: string): nat
    requires AllDigits(s)
  {
    if s == [] then 0 else DigitsValue(s[..|s| - 1]) * 10 + DigitValue(s[|s| - 1])
  }

  predicate IsSign(c: char) {
    c == '+' || c == '-'
  }

  /** The text after an optional leading sign. */
  function Unsigned(s: string): (u: string)
    ensures u == s || (s != [] && IsSign(s[0]) && u == s[1..])
  {
    if s != [] && IsSign(s[0]) then s[1..] else s
  }

  /** `int(s)` on already stripped text: `None` where Python raises
      `ValueError`. It succeeds exactly when, after at most one sign, the
      text is a non-empty run of decimal digits; a result below zero comes
      only from a leading minus. */
  function ParseInt(s: string): (r: Option<int>)
    ensures r.Some? <==> (Unsigned(s) != [] && AllDigits(Unsigned(s)))
    ensures r.Some? ==> (r.value < 0 ==> s[0] == '-') && (s[0] == '+' ==> r.value >= 0)
  {
    var u := Unsigned(s);
    if u == [] || !AllDigits(u) then None
    else
      var magnitude: int := DigitsValue(u);
      Some(if s[0] == '-' then -magnitude else magnitude)
  }

  function DigitChar(d: nat): (c: char)
    requires d < 10
    ensures IsDigit(c) && DigitValue(c) == d
  {
    ('0' as int + d) as char
  }

  /** Decimal digits of `n`, most significant first, without leading zeros. */
  function FormatNat(n: nat): (s: string)
    ensures s != [] && AllDigits(s)
    decreases n
  {
    if n < 10 then [DigitChar(n)] else FormatNat(n / 10) + [DigitChar(n % 10)]
  }

  /** The decimal text Python's `str(n)` gives for an integer. */
  function FormatInt(n: int): (s: string)
    ensures s != []
  {
    if n < 0 then "-" + FormatNat(-n) else FormatNat(n)
  }

  lemma {:induction false} FormatNatValue(n: nat)
    ensures DigitsValue(FormatNat(n)) == n
    decreases n
  {
    if n >= 10 {
      var s := FormatNat(n);
      assert s[..|s| - 1] == FormatNat(n / 10);
      FormatNatValue(n / 10);
    }
  }

  /** Parsing undoes formatting: every integer survives the round trip. */
  lemma {:induction false} ParseFormatRoundTrip(n: int)
    ensures ParseInt(FormatInt(n)) == Some(n)
  {
    if n < 0 {
      var s := FormatInt(n);
      assert Unsigned(s) == FormatNat(-n);
      FormatNatValue(-n);
    } else {
      var s := FormatNat(n);
      assert !IsSign(s[0]);
      FormatNatValue(n);
    }
  }

  predicate AllZeros(s: string) {
    forall i :: 0 <= i < |s| ==> s[i] == '0'
  }

  /** Leading zeros do not change the number a run of digits denotes. */
  lemma {:induction false} LeadingZerosValue(zeros: string, digits: string)
    requires AllZeros(zeros) && AllDigits(digits)
    ensures AllDigits(zeros + digits) && DigitsValue(zeros + digits) == DigitsValue(digits)
    decreases |digits|, |zeros|
  {
    var whole := zeros + digits;
    if digits == [] {
      assert whole == zeros;
      if zeros != [] {
        assert zeros[..|zeros| - 1] + [] == zeros[..|zeros| - 1];
        LeadingZerosValue(zeros[..|zeros| - 1], []);
      }
    } else {
      assert whole[..|whole| - 1] == zeros + digits[..|digits| - 1];
      assert whole[|whole| - 1] == digits[|digits| - 1];
      LeadingZerosValue(zeros, digits[..|digits| - 1]);
    }
  }

  /** A run of digits after at most one sign reads as the number the digits
      denote, negated after a minus. */
  lemma ParseSignedDigits(sign: string, digits: string, v: nat)
    requires sign == "" || sign == "+" || sign == "-"
    requires digits != [] && AllDigits(digits) && DigitsValue(digits) == v
    ensures ParseInt(sign + digits) == Some(if sign == "-" then -(v as int) else v as int)
  {
    var s := sign + digits;
    if sign == "" {
      assert s == digits;
      assert !IsSign(s[0]) by { assert IsDigit(digits[0]); }
    } else {
      assert s[0] == sign[0] && s[1..] == digits;
    }
    assert Unsigned(s) == digits;
  }

  /** Zeros in front of the decimal digits of `n` still denote `n`. */
  lemma ZeroPaddedValue(zeros: string, n: nat)
    requires AllZeros(zeros)
    ensures zeros + FormatNat(n) != [] && AllDigits(zeros + FormatNat(n))
    ensures DigitsValue(zeros + FormatNat(n)) == n
  {
    LeadingZerosValue(zeros, FormatNat(n));
    FormatNatValue(n);
  }

  /** `int()` also reads numerals with an explicit plus sign or with leading
      zeros (such as "+3", "02" or "-0"): the value is the one the digits
      denote, negated after a minus. */
  lemma ParseIntNonCanonical(sign: string, zeros: string, n: nat)
    requires sign == "" || sign == "+" || sign == "-"
    requires AllZeros(zeros)
    ensures ParseInt(sign + (zeros + FormatNat(n))) == Some(if sign == "-" then -(n as int) else n as int)
  {
    ZeroPaddedValue(zeros, n);
    ParseSignedDigits(sign, zeros + FormatNat(n), n);
  }

  lemma {:induction false} StripLeadingPadded(before: string, rest: string)
    requires AllWhitespace(before)
    requires rest == [] || !IsWhitespace(rest[0])
    ensures StripLeading(before + rest) == rest
  {
    if before != [] {
      assert (before + rest)[1..] == before[1..] + rest;
      StripLeadingPadded(before[1..], rest);
    }
  }

  lemma {:induction false} StripTrailingPadded(rest: string, after: string)
    requires AllWhitespace(after)
    requires rest == [] || !IsWhitespace(rest[|rest| - 1])
    ensures StripTrailing(rest + after) == rest
  {
    if after != [] {
      assert (rest + after)[..|rest + after| - 1] == rest + after[..|after| - 1];
      StripTrailingPadded(rest, after[..|after| - 1]);
    }
  }

  /** Whitespace around a text that neither starts nor ends with whitespace
      is removed, and nothing else. */
  lemma StripPadded(before: string, s: string, after: string)
    requires AllWhitespace(before) && AllWhitespace(after)
    requires s == [] || (!IsWhitespace(s[0]) && !IsWhitespace(s[|s| - 1]))
    ensures Strip(before + s + after) == s
  {
    if s == [] {
      assert before + s + after == before + after;
      assert AllWhitespace(before + after);
      assert StripLeading(before + after) == [] by {
        StripLeadingPadded(before + after, []);
        assert before + after + [] == before + after;
      }
    } else {
      assert before + s + after == before + (s + after);
      StripLeadingPadded(before, s + after);
      StripTrailingPadded(s, after);
    }
  }

  /** An attribute written as a decimal integer with whitespace around it
      reads back as that integer. */
  lemma PaddedIntegerParses(before: string, n: int, after: string)
    requires AllWhitespace(before) && AllWhitespace(after)
    ensures ParseInt(Strip(before + FormatInt(n) + after)) == Some(n)
  {
    var s := FormatInt(n);
    assert !IsWhitespace(s[0]) by {
      assert s[0] == '-' || IsDigit(s[0]);
    }
    assert !IsWhitespace(s[|s| - 1]) by {
      if n < 0 { assert s[|s| - 1] == FormatNat(-n)[|FormatNat(-n)| - 1]; }
      assert IsDigit(s[|s| - 1]);
    }
    StripPadded(before, s, after);
    ParseFormatRoundTrip(n);
  }

  /** Any character that is neither a digit nor a leading sign makes `int()`
      fail. */
  lemma ParseIntRejects(s: string, i: nat)
    requires i < |s| && !IsDigit(s[i]) && !(i == 0 && IsSign(s[i]))
    ensures ParseInt(s) == None
  {
    var u := Unsigned(s);
    if u == s {
      assert !IsDigit(u[i]);
    } else {
      assert !IsDigit(u[i - 1]);
    }
  }
}
