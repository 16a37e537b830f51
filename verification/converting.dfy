/**
 The lenient conversions of bgp/converting_utils.go: decimal tokens to `uint32`
 with every parse error swallowed, and `uint32` lists back to delimited text.
 The exported and unexported spellings (`ToUint32`/`toUint32`,
 `StringsToNumbers`/`stringsToNumbers`) have identical bodies in the source and
 are one function each here.
 */
module Converting {
  import opened Common
  import opened Strings
  import opened Decimal

  /**
   `toUint32`: `strconv.ParseUint(s, 10, 32)` with its error ignored. A syntax
   error leaves the number 0; a range error leaves ParseUint's saturated result
   4294967295. The final `uint32(...)` conversion never truncates, because
   ParseUint never returns more than 2^32-1 for bit size 32.
   */
  function ToUint32(s: string): (r: uint32)
    ensures s == [] ==> r == 0
    ensures s != [] && AllDigits(s) && Value(s) <= UINT32_MAX ==> r == Value(s)
    ensures AllDigits(s) && Value(s) > UINT32_MAX ==> r == UINT32_MAX
    ensures forall j :: 0 <= j < |s| && !IsDigit(s[j]) && AllDigits(s[..j]) ==>
      r == (if Value(s[..j]) <= UINT32_MAX then 0 else UINT32_MAX)
  {
    match ParseUint32(s)
    case Ok(n) => n
    case SyntaxError => 0
    case RangeError => UINT32_MAX
  }

  /** The canonical decimal of every number up to 2^32-1 converts back to it. */
  lemma ToUint32Format(n: uint32)
    ensures ToUint32(Format(n)) == n
  {
  }

  /**
   A token holding a character other than an ASCII digit, with at most nine
   digits before the first such character, converts to 0.
   */
  lemma ToUint32NonDigit(s: string, j: nat)
    requires j < |s| && j <= 9 && !IsDigit(s[j]) && AllDigits(s[..j])
    ensures ToUint32(s) == 0
  {
    ValueBelowPower(s[..j]);
    PowerAtMostBillion(j);
  }

  function Pow10(k: nat): nat
  {
    if k == 0 then 1 else 10 * Pow10(k - 1)
  }

  /** A string of k digits denotes less than 10^k. */
  lemma {:induction false} ValueBelowPower(s: string)
    requires AllDigits(s)
    ensures Value(s) < Pow10(|s|)
    decreases |s|
  {
    if s != [] {
      var init := s[..|s| - 1];
      ValueBelowPower(init);
      assert Value(init) + 1 <= Pow10(|init|);
      assert Value(s) == Value(init) * 10 + DigitValue(s[|s| - 1]);
      assert Value(s) < (Value(init) + 1) * 10;
      assert (Value(init) + 1) * 10 <= Pow10(|init|) * 10;
    }
  }

  lemma {:induction false} PowerAtMostBillion(k: nat)
    requires k <= 9
    ensures Pow10(k) <= 1_000_000_000
    decreases 9 - k
  {
    if k < 9 {
      PowerAtMostBillion(k + 1);
    }
  }

  /** `stringsToNumbers`: each token converted on its own, order and count preserved. */
  function StringsToNumbers(tokens: seq<string>): (numbers: seq<uint32>)
    ensures |numbers| == |tokens|
    ensures forall i :: 0 <= i < |tokens| ==> numbers[i] == ToUint32(tokens[i])
    decreases |tokens|
  {
    if tokens == [] then []
    else StringsToNumbers(tokens[..|tokens| - 1]) + [ToUint32(tokens[|tokens| - 1])]
  }

  /** The canonical decimal of each number. */
  function Decimals(numbers: seq<uint32>): (ds: seq<string>)
    ensures |ds| == |numbers|
    ensures forall i :: 0 <= i < |ds| ==> Canonical(ds[i]) && Value(ds[i]) == numbers[i]
  {
    seq(|numbers|, i requires 0 <= i < |numbers| => Format(numbers[i]))
  }

  /** `fmt.Sprint` of a `[]uint32`: the decimals between brackets, space separated. */
  function Sprint(numbers: seq<uint32>): string
  {
    "[" + Join(Decimals(numbers), " ") + "]"
  }

  /**
   `NumbersToString`: `fmt.Sprint`, every space replaced by the delimiter, then
   brackets trimmed from both ends. Whatever the delimiter is (even one holding
   brackets), this is the canonical decimals joined by it: the ends of the
   replaced text are digits, so trimming stops at the outer brackets.
   */
  function NumbersToString(numbers: seq<uint32>, delimiter: string): (r: string)
    ensures r == Join(Decimals(numbers), delimiter)
  {
    SprintReplaceTrim(numbers, delimiter);
    Trim(ReplaceAll(Sprint(numbers), ' ', delimiter), {'[', ']'})
  }

  lemma SprintReplaceTrim(numbers: seq<uint32>, delimiter: string)
    ensures Trim(ReplaceAll(Sprint(numbers), ' ', delimiter), {'[', ']'}) == Join(Decimals(numbers), delimiter)
  {
    var ds := Decimals(numbers);
    var joined := Join(ds, delimiter);
    SprintReplace(numbers, delimiter);
    if ds != [] {
      assert AllDigits(ds[0]) && AllDigits(ds[|ds| - 1]);
      JoinFirst(ds, delimiter);
      JoinLast(ds, delimiter);
    }
    TrimWrapped('[', joined, ']', {'[', ']'});
  }

  /** Replacing the spaces of `fmt.Sprint`'s text swaps its separator for the delimiter. */
  lemma SprintReplace(numbers: seq<uint32>, delimiter: string)
    ensures ReplaceAll(Sprint(numbers), ' ', delimiter) == "[" + Join(Decimals(numbers), delimiter) + "]"
  {
    var ds := Decimals(numbers);
    forall i | 0 <= i < |ds|
      ensures ' ' !in ds[i]
    {
      assert AllDigits(ds[i]);
    }
    var inner := Join(ds, " ");
    calc {
      ReplaceAll(Sprint(numbers), ' ', delimiter);
      { ReplaceAllAppend("[" + inner, "]", ' ', delimiter); }
      ReplaceAll("[" + inner, ' ', delimiter) + ReplaceAll("]", ' ', delimiter);
      { ReplaceAllAppend("[", inner, ' ', delimiter); }
      ReplaceAll("[", ' ', delimiter) + ReplaceAll(inner, ' ', delimiter) + ReplaceAll("]", ' ', delimiter);
      { ReplaceAllAbsent("[", ' ', delimiter);
        ReplaceAllAbsent("]", ' ', delimiter);
        ReplaceAllJoin(ds, ' ', delimiter); }
      "[" + Join(ds, delimiter) + "]";
    }
  }

  /** An empty list renders as the empty string. */
  lemma NumbersToStringEmpty(delimiter: string)
    ensures NumbersToString([], delimiter) == ""
  {
  }

  /**
   Round trip: rendering a non-empty list with single spaces, splitting on
   spaces and converting back gives the list.
   */
  lemma NumbersRoundTrip(numbers: seq<uint32>)
    requires |numbers| > 0
    ensures StringsToNumbers(Split(NumbersToString(numbers, " "), ' ')) == numbers
  {
    var ds := Decimals(numbers);
    forall i | 0 <= i < |ds|
      ensures ' ' !in ds[i]
    {
      assert AllDigits(ds[i]);
    }
    SplitJoin(ds, ' ');
  }

  /** The empty list does not survive the round trip: it comes back as [0]. */
  lemma EmptyNumbersRoundTrip()
    ensures StringsToNumbers(Split(NumbersToString([], " "), ' ')) == [0]
  {
    assert Split("", ' ') == [""];
  }

  /**
   Normalising an AS-path text (split on spaces, convert, render with spaces)
   is the identity on text whose tokens are all canonical decimals up to 2^32-1.
   */
  lemma NormaliseCanonical(text: string)
    requires forall t :: t in Split(text, ' ') ==> Canonical(t) && Value(t) <= UINT32_MAX
    ensures NumbersToString(StringsToNumbers(Split(text, ' ')), " ") == text
  {
    var tokens := Split(text, ' ');
    var numbers := StringsToNumbers(tokens);
    forall i | 0 <= i < |tokens|
      ensures Decimals(numbers)[i] == tokens[i]
    {
      assert tokens[i] in tokens;
      FormatValue(tokens[i]);
    }
    assert Decimals(numbers) == tokens;
  }
}
