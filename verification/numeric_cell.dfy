/** The chart's number input: the typed text is trimmed, read with
    `parseInt(raw, 10)`, and passed on only when it is blank (as null) or a
    number within the cell's range. */
module NumericCell {
  import opened Wrappers
  import opened Strings

  /** The longest run of decimal digits at the front of `s`. */
  function DigitPrefix(s: string): (r: string)
    ensures r <= s
    ensures forall i :: 0 <= i < |r| ==> IsDigit(r[i])
    ensures |r| < |s| ==> !IsDigit(s[|r|])
  {
    if |s| > 0 && IsDigit(s[0]) then [s[0]] + DigitPrefix(s[1..]) else ""
  }

  /** `parseInt(s, 10)` as section 19.2.5 of ECMA-262 defines it: leading
      white space is skipped, one '+' or '-' is read, then the longest run
      of decimal digits; no digit at all gives NaN (`None`). Negative zero
      is the integer 0 here. */
  function ParseInt(s: string): Option<int> {
    var t := TrimStart(s);
    var digits := DigitPrefix(SignlessPart(t));
    if digits == "" then None else Some(Signed(t, DigitsValue(digits)))
  }

  /** Whether the text starts with a minus sign. */
  predicate Negative(t: string) {
    |t| > 0 && t[0] == '-'
  }

  /** The value read, negated after a leading '-'. */
  function Signed(t: string, v: nat): int {
    if Negative(t) then -(v as int) else v
  }

  /** The text after one leading sign character, if there is one. */
  function SignlessPart(t: string): (r: string)
    ensures r == t || (|t| > 0 && (t[0] == '+' || t[0] == '-') && r == t[1..])
  {
    if |t| > 0 && (t[0] == '+' || t[0] == '-') then t[1..] else t
  }

  lemma {:induction false} DigitPrefixOfDigits(d: string, rest: string)
    requires forall i :: 0 <= i < |d| ==> IsDigit(d[i])
    requires |rest| == 0 || !IsDigit(rest[0])
    ensures DigitPrefix(d + rest) == d
  {
    if |d| > 0 {
      assert (d + rest)[1..] == d[1..] + rest;
      DigitPrefixOfDigits(d[1..], rest);
    } else {
      assert d + rest == rest;
    }
  }

  /** Text that does not start with white space is read from its first
      character. */
  lemma ParseIntDense(t: string)
    requires |t| > 0 && !IsJsSpace(t[0])
    ensures ParseInt(t) == (var d := DigitPrefix(SignlessPart(t));
                            if d == "" then None else Some(Signed(t, DigitsValue(d))))
  {
    assert TrimStart(t) == t;
  }

  /** A run of digits before text that does not start with a digit reads
      as its value. */
  lemma ParseDigits(digits: string, rest: string)
    requires digits != "" && forall i :: 0 <= i < |digits| ==> IsDigit(digits[i])
    requires |rest| == 0 || !IsDigit(rest[0])
    ensures ParseInt(digits + rest) == Some(DigitsValue(digits))
  {
    DigitRun(digits, rest);
    ParseUnsigned(digits + rest, digits);
  }

  lemma DigitRun(digits: string, rest: string)
    requires digits != "" && forall i :: 0 <= i < |digits| ==> IsDigit(digits[i])
    requires |rest| == 0 || !IsDigit(rest[0])
    ensures var t := digits + rest;
            && |t| > 0 && IsDigit(t[0]) && !IsJsSpace(t[0])
            && SignlessPart(t) == t && !Negative(t) && DigitPrefix(t) == digits
  {
    var t := digits + rest;
    assert IsDigit(t[0]) by { assert t[0] == digits[0]; }
    assert DigitPrefix(t) == digits by { DigitPrefixOfDigits(digits, rest); }
  }

  lemma ParseUnsigned(t: string, digits: string)
    requires digits != "" && forall i :: 0 <= i < |digits| ==> IsDigit(digits[i])
    requires |t| > 0 && !IsJsSpace(t[0])
    requires SignlessPart(t) == t && !Negative(t) && DigitPrefix(t) == digits
    ensures ParseInt(t) == Some(DigitsValue(digits))
  {
    ParseIntDense(t);
  }

  /** The same run after a minus sign reads as the negated value. */
  lemma ParseNegatedDigits(digits: string, rest: string)
    requires digits != "" && forall i :: 0 <= i < |digits| ==> IsDigit(digits[i])
    requires |rest| == 0 || !IsDigit(rest[0])
    ensures ParseInt("-" + (digits + rest)) == Some(-(DigitsValue(digits) as int))
  {
    DigitRun(digits, rest);
    MinusSign(digits + rest);
    ParseNegative("-" + (digits + rest), digits);
  }

  lemma MinusSign(u: string)
    ensures var t := "-" + u; Negative(t) && SignlessPart(t) == u
  {
    assert ("-" + u)[1..] == u;
  }

  lemma ParseNegative(t: string, digits: string)
    requires digits != "" && forall i :: 0 <= i < |digits| ==> IsDigit(digits[i])
    requires Negative(t) && DigitPrefix(SignlessPart(t)) == digits
    ensures ParseInt(t) == Some(-(DigitsValue(digits) as int))
  {
    ParseIntDense(t);
  }

  /** Reading back what `String(n)` prints gives `n`, also when anything
      that does not start with a digit follows. */
  lemma {:induction false} ParseIntRoundTrip(n: int, rest: string)
    requires |rest| == 0 || !IsDigit(rest[0])
    ensures ParseInt(IntToString(n) + rest) == Some(n)
  {
    if n < 0 {
      NegativeRoundTrip(n, rest);
    } else {
      NatToStringValue(n);
      ParseDigits(NatToString(n), rest);
    }
  }

  lemma NegativeRoundTrip(n: int, rest: string)
    requires n < 0
    requires |rest| == 0 || !IsDigit(rest[0])
    ensures ParseInt(IntToString(n) + rest) == Some(n)
  {
    var digits := NatToString(-n);
    NegativeText(n, rest);
    NegatedValue(n);
    ParseNegatedDigits(digits, rest);
  }

  lemma NegativeText(n: int, rest: string)
    requires n < 0
    ensures IntToString(n) + rest == "-" + (NatToString(-n) + rest)
  {
  }

  lemma NegatedValue(n: int)
    requires n < 0
    ensures -(DigitsValue(NatToString(-n)) as int) == n
  {
    var m: nat := -n;
    NatToStringValue(m);
    var v := DigitsValue(NatToString(m));
    assert v == m;
  }

  /** The input's `onChange` handler. `None`: the chart is not told
      anything. `Some(None)`: the value is cleared. `Some(Some(n))`: `n` is
      stored. */
  function OnNumericInput(text: string, min: int, max: int): (r: Option<Option<int>>)
    ensures r == Some(None) <==> Trim(text) == ""
    ensures r.Some? && r.value.Some? <==>
              Trim(text) != "" && ParseInt(Trim(text)).Some? && min <= ParseInt(Trim(text)).value <= max
    ensures r.Some? && r.value.Some? ==> r.value.value == ParseInt(Trim(text)).value
    ensures r.Some? && r.value.Some? ==> min <= r.value.value <= max
  {
    var raw := Trim(text);
    if raw == "" then Some(None)
    else
      var n := ParseInt(raw);
      if n.Some? && min <= n.value && n.value <= max then Some(n) else None
  }

  /** A string that neither starts nor ends with white space trims to
      itself. */
  lemma TrimOfDenseString(s: string)
    requires |s| > 0 && !IsJsSpace(s[0]) && !IsJsSpace(s[|s| - 1])
    ensures Trim(s) == s
  {
    assert TrimStart(s) == s;
    assert TrimEnd(s) == s;
  }

  /** A value outside the range is dropped: the cell keeps its old value. */
  lemma OutOfRangeDropped(n: int, min: int, max: int)
    requires n < min || n > max
    ensures OnNumericInput(IntToString(n), min, max).None?
  {
    var s := IntToString(n);
    assert !IsJsSpace(s[0]) by { assert s[0] == '-' || IsDigit(s[0]); }
    assert !IsJsSpace(s[|s| - 1]) by {
      if n < 0 { assert s[|s| - 1] == NatToString(-n)[|NatToString(-n)| - 1]; }
    }
    TrimOfDenseString(s);
    ParseIntRoundTrip(n, "");
    assert s + "" == s;
  }

  /** Text after the digits is ignored, as `parseInt` does: "5mm" stores 5. */
  lemma TrailingTextIgnored(n: int, rest: string, min: int, max: int)
    requires min <= n <= max
    requires |rest| > 0 ==> !IsDigit(rest[0]) && !IsJsSpace(rest[|rest| - 1])
    ensures OnNumericInput(IntToString(n) + rest, min, max) == Some(Some(n))
  {
    var s := IntToString(n);
    var t := s + rest;
    assert !IsJsSpace(t[0]) by {
      assert t[0] == s[0];
      assert s[0] == '-' || IsDigit(s[0]);
    }
    assert !IsJsSpace(t[|t| - 1]) by {
      if |rest| == 0 {
        assert t[|t| - 1] == s[|s| - 1];
        if n < 0 { assert s[|s| - 1] == NatToString(-n)[|NatToString(-n)| - 1]; }
      } else {
        assert t[|t| - 1] == rest[|rest| - 1];
      }
    }
    TrimOfDenseString(t);
    ParseIntRoundTrip(n, rest);
  }

  /** Text that, once trimmed, starts with neither a digit nor a sign is
      dropped. */
  lemma NonNumberDropped(text: string, min: int, max: int)
    requires var u := Trim(text); u != "" && !IsDigit(u[0]) && u[0] != '+' && u[0] != '-'
    ensures OnNumericInput(text, min, max).None?
  {
    var u := Trim(text);
    ParseIntDense(u);
  }
}
