/**
 Decimal text for unsigned integers: the digit-string value (the reference
 meaning of a token), `fmt`'s canonical rendering, and `strconv.ParseUint(s, 10, 32)`
 as Go's left-to-right scan, including the order in which it reports a syntax
 error or a range error.
 */
module Decimal {
  import opened Common

  predicate IsDigit(c: char) {
    '0' <= c <= '9'
  }

  predicate AllDigits(s: string) {
    forall i :: 0 <= i < |s| ==> IsDigit(s[i])
  }

  function DigitValue(c: char): nat
    requires IsDigit(c)
  {
    c as int - '0' as int
  }

  function DigitChar(d: nat): char
    requires d < 10
  {
    (d + '0' as int) as char
  }

  /** The number a string of decimal digits denotes, most significant digit first. */
  function Value(s: string): nat
    requires AllDigits(s)
    decreases |s|
  {
    if s == [] then 0 else Value(s[..|s| - 1]) * 10 + DigitValue(s[|s| - 1])
  }

  /** A canonical decimal: non-empty, digits only, no leading zero except "0" itself. */
  predicate Canonical(s: string) {
    |s| > 0 && AllDigits(s) && (|s| == 1 || s[0] != '0')
  }

  /** `fmt`'s `%d` rendering of a non-negative integer: its canonical decimal. */
  function Format(n: nat): (s: string)
    ensures Canonical(s)
    ensures Value(s) == n
    decreases n
  {
    if n < 10 then
      [DigitChar(n)]
    else
      var s := Format(n / 10) + [DigitChar(n % 10)];
      assert s[..|s| - 1] == Format(n / 10);
      s
  }

  /** `fmt`'s `%d` rendering of a signed integer. */
  function FormatInt(i: int): (s: string)
    ensures i >= 0 ==> s == Format(i)
    ensures i < 0 ==> s == "-" + Format(-i)
  {
    if i < 0 then "-" + Format(-i) else Format(i)
  }

  /** A digit string whose first digit is not '0' denotes a positive number. */
  lemma {:induction false} ValuePositive(s: string)
    requires |s| > 0 && AllDigits(s) && s[0] != '0'
    ensures Value(s) > 0
    decreases |s|
  {
    if |s| > 1 {
      ValuePositive(s[..|s| - 1]);
    }
  }

  /** Format is the inverse of Value on canonical decimals. */
  lemma {:induction false} FormatValue(s: string)
    requires Canonical(s)
    ensures Format(Value(s)) == s
    decreases |s|
  {
    var last := s[|s| - 1];
    if |s| > 1 {
      var init := s[..|s| - 1];
      assert Canonical(init);
      ValuePositive(init);
      FormatValue(init);
      var n := Value(s);
      assert n == Value(init) * 10 + DigitValue(last);
      assert n / 10 == Value(init) && n % 10 == DigitValue(last);
      assert DigitChar(n % 10) == last;
      assert s == init + [last];
    } else {
      assert s == [last];
    }
  }

  /** A prefix of a digit string never denotes more than the whole string. */
  lemma {:induction false} ValuePrefix(s: string, k: nat)
    requires AllDigits(s) && k <= |s|
    ensures AllDigits(s[..k]) && Value(s[..k]) <= Value(s)
    decreases |s|
  {
    if k < |s| {
      var init := s[..|s| - 1];
      ValuePrefix(init, k);
      assert init[..k] == s[..k];
    } else {
      assert s[..k] == s;
    }
  }

  /** The failure kinds of `strconv.ParseUint`, and its successful result. */
  datatype Parsed = Ok(value: uint32) | SyntaxError | RangeError

  /**
   The body of `strconv.ParseUint(s, 10, 32)` from index `i` on, having
   accumulated `acc` from `s[..i]`: a non-digit stops the scan with a syntax
   error; an accumulated value above 2^32-1 stops it with a range error at once,
   before later characters are looked at.
   */
  function Scan(s: string, i: nat, acc: uint32): Parsed
    requires i <= |s|
    decreases |s| - i
  {
    if i == |s| then Ok(acc)
    else if !IsDigit(s[i]) then SyntaxError
    else
      var n := acc * 10 + DigitValue(s[i]);
      if n > UINT32_MAX then RangeError else Scan(s, i + 1, n)
  }

  /** What the scan from `i` reports, in terms of the value of the digits it reads. */
  lemma {:induction false} ScanMeaning(s: string, i: nat, acc: uint32)
    requires i <= |s| && AllDigits(s[..i]) && acc == Value(s[..i])
    ensures AllDigits(s) && Value(s) <= UINT32_MAX ==> Scan(s, i, acc) == Ok(Value(s))
    ensures AllDigits(s) && Value(s) > UINT32_MAX ==> Scan(s, i, acc) == RangeError
    ensures forall j :: i <= j < |s| && !IsDigit(s[j]) && AllDigits(s[..j]) ==>
      Scan(s, i, acc) == (if Value(s[..j]) <= UINT32_MAX then SyntaxError else RangeError)
    decreases |s| - i
  {
    if i == |s| {
      assert s[..i] == s;
    } else if !IsDigit(s[i]) {
      NoDigitsPast(s, i);
    } else {
      var next := s[..i + 1];
      assert next[..i] == s[..i];
      assert AllDigits(next);
      var n := acc * 10 + DigitValue(s[i]);
      assert Value(next) == n;
      if n > UINT32_MAX {
        OverflowPast(s, i + 1);
      } else {
        ScanMeaning(s, i + 1, n);
      }
    }
  }

  /** No prefix reaching past a non-digit is all digits. */
  lemma NoDigitsPast(s: string, i: nat)
    requires i < |s| && !IsDigit(s[i])
    ensures forall j :: i < j <= |s| ==> !AllDigits(s[..j])
  {
    forall j | i < j <= |s|
      ensures !AllDigits(s[..j])
    {
      assert s[..j][i] == s[i];
    }
  }

  /** Once the digits up to `k` exceed 2^32-1, so does every longer digit prefix. */
  lemma OverflowPast(s: string, k: nat)
    requires 0 < k <= |s| && AllDigits(s[..k]) && Value(s[..k]) > UINT32_MAX
    ensures AllDigits(s) ==> Value(s) > UINT32_MAX
    ensures forall j :: k <= j <= |s| && AllDigits(s[..j]) ==> Value(s[..j]) > UINT32_MAX
  {
    forall j | k <= j <= |s| && AllDigits(s[..j])
      ensures Value(s[..j]) > UINT32_MAX
    {
      ValuePrefix(s[..j], k);
      assert s[..j][..k] == s[..k];
    }
    assert s[..|s|] == s;
  }

  /**
   `strconv.ParseUint(s, 10, 32)`. An empty string is a syntax error; a string
   of digits is its value, or a range error above 2^32-1; otherwise the first
   non-digit gives a syntax error unless the digits before it already exceed
   2^32-1, in which case the range error is reported.
   */
  function ParseUint32(s: string): (r: Parsed)
    ensures s == [] ==> r == SyntaxError
    ensures s != [] && AllDigits(s) && Value(s) <= UINT32_MAX ==> r == Ok(Value(s))
    ensures AllDigits(s) && Value(s) > UINT32_MAX ==> r == RangeError
    ensures forall j :: 0 <= j < |s| && !IsDigit(s[j]) && AllDigits(s[..j]) ==>
      r == (if Value(s[..j]) <= UINT32_MAX then SyntaxError else RangeError)
  {
    if s == [] then SyntaxError
    else
      assert s[..0] == [];
      ScanMeaning(s, 0, 0);
      Scan(s, 0, 0)
  }
}
