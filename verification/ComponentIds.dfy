/** Lab 5, zad1: the number of a component, read from the end of its name. */
module ComponentIds {
  import opened Options
  import opened Digits
  import opened Components

  function OnlyDigits(s: string): string {
    if s == "" then "" else (if IsDigit(s[0]) then [s[0]] else "") + OnlyDigits(s[1..])
  }

  /** The first position of the trailing digits and blanks that the scan from the end sees; it never
      looks at position 0. */
  function ScanStart(part: string, i: nat): (r: nat)
    requires i <= |part|
    ensures r <= i
  {
    if i > 1 && (IsDigit(part[i - 1]) || IsSpace(part[i - 1])) then ScanStart(part, i - 1) else i
  }

  /** The digits that the scan collects. */
  function ScannedDigits(part: string): string {
    OnlyDigits(part[ScanStart(part, |part|)..])
  }

  /** An int holds the value of 9 digits and the power of ten that belongs to the next one. */
  const MAX_DIGITS := 9
  const INT_MAX := 0x7fff_ffff

  /** Commands are numbered from 1; without a digit there is no number.  The scan of an empty text starts
      far outside of it, and a tenth digit makes the power of ten overflow. */
  function CommandId(part: Option<string>): Attempt<int> {
    if part.None? || part.value == "" then Undefined
    else
      var digits := ScannedDigits(part.value);
      if |digits| > MAX_DIGITS then Undefined
      else if digits == "" then Failed
      else Done(Value(digits) + 1)
  }

  /** What the variables of the scan hold when it has looked at all from position i on. */
  ghost predicate Scanned(part: string, i: nat, mul: int, res: int, foundDigit: bool)
    requires i <= |part|
  {
    var digits := OnlyDigits(part[i..]);
    && |digits| <= MAX_DIGITS && (foundDigit <==> digits != "")
    && res == Value(digits) && mul == Pow10(|digits|)
  }

  lemma ScanBlank(part: string, i: nat, mul: int, res: int, foundDigit: bool)
    requires i < |part| && Scanned(part, i + 1, mul, res, foundDigit) && !IsDigit(part[i])
    ensures Scanned(part, i, mul, res, foundDigit)
  {
    assert part[i..][1..] == part[i + 1..];
    assert OnlyDigits(part[i..]) == OnlyDigits(part[i + 1..]);
  }

  lemma ScanDigit(part: string, i: nat, mul: int, res: int, foundDigit: bool)
    requires i < |part| && Scanned(part, i + 1, mul, res, foundDigit) && IsDigit(part[i])
    ensures mul <= INT_MAX / 10 ==> Scanned(part, i, mul * 10, res + mul * (part[i] as int - '0' as int), true)
    ensures mul > INT_MAX / 10 ==> |OnlyDigits(part[i..])| > MAX_DIGITS
  {
    var digits := OnlyDigits(part[i + 1..]);
    assert part[i..][1..] == part[i + 1..];
    assert OnlyDigits(part[i..]) == [part[i]] + digits;
    ValueOfMoreDigits(part[i], digits);
    PowersOverflow(|digits|);
  }

  lemma {:induction false} MoreDigitsBefore(part: string, start: nat, i: nat)
    requires start <= i <= |part|
    ensures |OnlyDigits(part[start..])| >= |OnlyDigits(part[i..])|
    decreases i - start
  {
    if start < i {
      MoreDigitsBefore(part, start + 1, i);
      assert part[start..][1..] == part[start + 1..];
    }
  }

  lemma {:induction false} ScanStartBefore(part: string, i: nat)
    requires i <= |part|
    ensures i > 0 ==> ScanStart(part, i) > 0
  {
    if i > 1 {
      ScanStartBefore(part, i - 1);
    }
  }

  lemma {:induction false} PowersOverflow(n: nat)
    ensures Pow10(n) > INT_MAX / 10 <==> n >= MAX_DIGITS
    ensures n > 0 ==> Pow10(n) >= 10
  {
    if n > MAX_DIGITS {
      PowersOverflow(n - 1);
    } else {
      assert Pow10(0) == 1 && Pow10(1) == 10 && Pow10(2) == 100 && Pow10(3) == 1000 && Pow10(4) == 10000;
      assert Pow10(5) == 100000 && Pow10(6) == 1000000 && Pow10(7) == 10000000 && Pow10(8) == 100000000;
      assert Pow10(9) == 1000000000;
    }
  }

  method GetCommandId(part: Option<string>) returns (id: Attempt<int>)
    ensures id == CommandId(part)
  {
    if part.None? || part.value == "" {
      return Undefined;
    }
    var name := part.value;
    var mul, res, foundDigit := 1, 0, false;
    var i := |name| - 1;
    ghost var start := ScanStart(name, |name|);
    assert name[|name|..] == "";
    while i > 0
      invariant 0 <= i < |name|
      invariant ScanStart(name, i + 1) == start && Scanned(name, i + 1, mul, res, foundDigit)
    {
      if IsSpace(name[i]) {
        ScanBlank(name, i, mul, res, foundDigit);
      } else {
        if !IsDigit(name[i]) {
          break;
        }
        ScanDigit(name, i, mul, res, foundDigit);
        if mul > INT_MAX / 10 {
          MoreDigitsBefore(name, start, i);
          return Undefined;
        }
        foundDigit := true;
        res := res + mul * (name[i] as int - '0' as int);
        mul := mul * 10;
      }
      i := i - 1;
    }
    assert start == i + 1;
    id := if foundDigit then Done(res + 1) else Failed;
  }

  lemma {:induction false} ScanOverDigits(name: string, digits: string, i: nat)
    requires AllDigits(digits) && |name| <= i <= |name| + |digits|
    ensures ScanStart(name + digits, i) ==
            if i == 0 then 0 else if name == "" then 1 else ScanStart(name + digits, |name|)
  {
    if i > |name| && i > 1 {
      ScanOverDigits(name, digits, i - 1);
    }
  }

  lemma {:induction false} OnlyDigitsOfDigits(digits: string)
    requires AllDigits(digits)
    ensures OnlyDigits(digits) == digits
  {
    if digits != "" {
      OnlyDigitsOfDigits(digits[1..]);
    }
  }

  /** The digits among the digits and blanks that a name ends in, its first character apart. */
  function DigitsAtEnd(name: string): string {
    OnlyDigits(name[ScanStart(name, |name|)..])
  }

  lemma {:induction false} ScanStartOfPrefix(name: string, digits: string, i: nat)
    requires i <= |name|
    ensures ScanStart(name + digits, i) == ScanStart(name, i)
  {
    if i > 1 {
      ScanStartOfPrefix(name, digits, i - 1);
    }
  }

  lemma {:induction false} OnlyDigitsAppend(s: string, digits: string)
    requires AllDigits(digits)
    ensures OnlyDigits(s + digits) == OnlyDigits(s) + digits
  {
    if s == "" {
      assert s + digits == digits;
      OnlyDigitsOfDigits(digits);
    } else {
      assert (s + digits)[0] == s[0] && (s + digits)[1..] == s[1..] + digits;
      OnlyDigitsAppend(s[1..], digits);
      var first := if IsDigit(s[0]) then [s[0]] else "";
      assert OnlyDigits(s + digits) == first + OnlyDigits(s[1..] + digits);
      assert first + (OnlyDigits(s[1..]) + digits) == (first + OnlyDigits(s[1..])) + digits;
    }
  }

  /** Digits in front make a numeral bigger unless they are zeros. */
  lemma {:induction false} LeadingDigits(front: string, digits: string)
    requires AllDigits(front) && AllDigits(digits)
    ensures Value(front + digits) >= Value(digits)
    ensures Value(front + digits) == Value(digits) <==> forall k :: 0 <= k < |front| ==> front[k] == '0'
  {
    if front == "" {
      assert front + digits == digits;
    } else {
      LeadingDigits(front[1..], digits);
      assert (front + digits)[1..] == front[1..] + digits;
      FirstDigitCounts(front + digits);
      assert front == [front[0]] + front[1..];
    }
  }

  lemma ScannedOfNamed(name: string, digits: string)
    requires name != "" && AllDigits(digits)
    ensures ScannedDigits(name + digits) == DigitsAtEnd(name) + digits && AllDigits(DigitsAtEnd(name))
  {
    var part, start := name + digits, ScanStart(name, |name|);
    ScanOverDigits(name, digits, |part|);
    ScanStartOfPrefix(name, digits, |name|);
    assert part[start..] == name[start..] + digits;
    OnlyDigitsAppend(name[start..], digits);
    OnlyDigitsAreDigits(name[start..]);
  }

  /** A name that does not itself end in a digit other than zero, blanks not counted and the first character
      apart, and no more than nine digits with those of the numeral behind it. */
  predicate EndsInNumeral(name: string, digits: string) {
    && |DigitsAtEnd(name)| + |digits| <= MAX_DIGITS
    && forall k :: 0 <= k < |DigitsAtEnd(name)| ==> DigitsAtEnd(name)[k] == '0'
  }

  /** A name followed by a numeral means the numeral's command, exactly in that case. */
  lemma NamedCommand(name: string, digits: string)
    requires name != "" && AllDigits(digits) && digits != ""
    ensures CommandId(Some(name + digits)) == Done(Value(digits) + 1) <==> EndsInNumeral(name, digits)
  {
    ScannedOfNamed(name, digits);
    IdOfScanned(name + digits, DigitsAtEnd(name) + digits, Value(digits));
    LeadingDigits(DigitsAtEnd(name), digits);
  }

  /** A numeral alone loses its first digit: it means its own command exactly when it has a second digit, the
      first is zero and the others are not too many. */
  lemma BareNumeral(digits: string)
    requires AllDigits(digits) && digits != ""
    ensures CommandId(Some(digits)) == Done(Value(digits) + 1) <==>
            1 < |digits| <= MAX_DIGITS + 1 && digits[0] == '0'
  {
    var rest := BareId(digits);
  }

  /** The id in terms of the text without its first digit. */
  lemma BareId(digits: string) returns (rest: string)
    requires AllDigits(digits) && digits != ""
    ensures |rest| == |digits| - 1 && (Value(rest) == Value(digits) <==> digits[0] == '0')
    ensures CommandId(Some(digits)) == Done(Value(digits) + 1) <==>
            0 < |rest| <= MAX_DIGITS && Value(rest) == Value(digits)
  {
    rest := ScannedOfBare(digits);
    IdOfScanned(digits, rest, Value(digits));
  }

  lemma ScannedOfBare(digits: string) returns (rest: string)
    requires AllDigits(digits) && digits != ""
    ensures ScannedDigits(digits) == rest && |rest| == |digits| - 1
    ensures Value(rest) == Value(digits) <==> digits[0] == '0'
  {
    rest := digits[1..];
    LosesFirstDigit(digits);
    FirstDigitCounts(digits);
  }

  lemma IdOfScanned(part: string, scanned: string, value: int)
    requires part != "" && ScannedDigits(part) == scanned
    ensures CommandId(Some(part)) == Done(value + 1) <==> 0 < |scanned| <= MAX_DIGITS && Value(scanned) == value
  {
  }

  lemma LosesFirstDigit(digits: string)
    requires AllDigits(digits) && digits != ""
    ensures ScannedDigits(digits) == digits[1..]
  {
    ScanOverDigits("", digits, |digits|);
    assert "" + digits == digits;
    OnlyDigitsOfDigits(digits[1..]);
  }

  lemma FirstDigitCounts(digits: string)
    requires AllDigits(digits) && digits != ""
    ensures Value(digits) >= Value(digits[1..]) >= 0
    ensures Value(digits) == Value(digits[1..]) <==> digits[0] == '0'
  {
    ValueOfMoreDigits(digits[0], digits[1..]);
    assert digits == [digits[0]] + digits[1..];
    ValueNotNegative(digits[1..]);
    Multiple(Pow10(|digits| - 1), digits[0] as int - '0' as int);
  }

  lemma Multiple(p: int, d: int)
    requires p > 0 && d >= 0
    ensures p * d >= 0 && (p * d == 0 <==> d == 0)
  {
  }

  lemma {:induction false} OnlyDigitsAreDigits(s: string)
    ensures AllDigits(OnlyDigits(s))
  {
    if s != "" {
      OnlyDigitsAreDigits(s[1..]);
    }
  }

  lemma CommandIdsArePositive(part: Option<string>)
    ensures CommandId(part).Done? ==> CommandId(part).value > 0
  {
    if CommandId(part).Done? {
      OnlyDigitsAreDigits(part.value[ScanStart(part.value, |part.value|)..]);
      ValueNotNegative(ScannedDigits(part.value));
    }
  }

  // ---------------------------------------------------------------- all outcomes

  /** From position j on, and not from the first, there are only digits and blanks. */
  predicate IsTail(part: string, j: int) {
    1 <= j <= |part| && forall k :: j <= k < |part| ==> IsDigit(part[k]) || IsSpace(part[k])
  }

  lemma {:induction false} ScanStops(part: string, i: nat)
    requires 1 <= i && IsTail(part, i)
    ensures IsTail(part, ScanStart(part, i))
    ensures forall j :: IsTail(part, j) && j <= i ==> j >= ScanStart(part, i)
  {
    if i > 1 && (IsDigit(part[i - 1]) || IsSpace(part[i - 1])) {
      ScanStops(part, i - 1);
    }
  }

  /** NULL and the empty name are undefined.  Any other name is undefined exactly when it ends in more than
      nine digits, and fails exactly when it ends in none, blanks not counted and the first character apart. */
  lemma AllOutcomes(part: string)
    ensures CommandId(None).Undefined? && CommandId(Some("")).Undefined?
    ensures part != "" ==>
              (CommandId(Some(part)).Undefined? <==>
                 exists j :: IsTail(part, j) && |OnlyDigits(part[j..])| > MAX_DIGITS)
    ensures part != "" ==>
              (CommandId(Some(part)).Failed? <==> forall j :: IsTail(part, j) ==> OnlyDigits(part[j..]) == "")
  {
    if part != "" {
      var start := ScanStart(part, |part|);
      ScanStops(part, |part|);
      forall j | IsTail(part, j)
        ensures |OnlyDigits(part[start..])| >= |OnlyDigits(part[j..])|
      {
        MoreDigitsBefore(part, start, j);
      }
    }
  }

  /** A name without a digit behind its first character fails. */
  lemma NoDigitFails(part: string)
    requires part != "" && forall k :: 1 <= k < |part| ==> !IsDigit(part[k])
    ensures CommandId(Some(part)).Failed?
  {
    forall j | IsTail(part, j)
      ensures OnlyDigits(part[j..]) == ""
    {
      NoDigits(part[j..]);
    }
    AllOutcomes(part);
  }

  lemma {:induction false} NoDigits(s: string)
    requires forall k :: 0 <= k < |s| ==> !IsDigit(s[k])
    ensures OnlyDigits(s) == ""
  {
    if s != "" {
      NoDigits(s[1..]);
    }
  }
}
