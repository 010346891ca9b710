/**
 * The type-sniffing predicates of the value formatter: `IsBool` succeeds
 * exactly when Go's `strconv.ParseBool` accepts the text, `IsNumber` exactly
 * when `strconv.ParseInt(s, 0, 64)` does.  Both parsers are written out
 * here: the sign, the base prefixes, the `_` digit separators and the
 * 64-bit range.
 */
module Base {
  import opened Strings

  /** The literals `strconv.ParseBool` accepts. */
  predicate IsBool(value: string)
  {
    value in {"1", "t", "T", "TRUE", "true", "True", "0", "f", "F", "FALSE", "false", "False"}
  }

  predicate IsDecDigit(c: char)
  {
    '0' <= c <= '9'
  }

  /** strconv's `lower`: folds an ASCII upper-case letter to lower case. */
  function Lower(c: char): char
  {
    if 'A' <= c <= 'Z' then (c as int + 32) as char else c
  }

  /** The digit value strconv gives a character; 36 (too large for every base) when it is no digit at all. */
  function DigitVal(c: char): nat
  {
    if IsDecDigit(c) then c as nat - '0' as nat
    else if 'a' <= Lower(c) <= 'z' then Lower(c) as nat - 'a' as nat + 10
    else 36
  }

  /** The base chosen for base 0 and the digits that follow the prefix. */
  datatype Radix = Radix(base: nat, body: string)

  /** `ParseUint` with base 0: `0b`, `0o`, `0x` (three characters at least), a lone leading `0` for octal, else decimal. */
  function SplitRadix(u: string): Radix
  {
    if |u| >= 1 && u[0] == '0' then
      if |u| >= 3 && Lower(u[1]) == 'b' then Radix(2, u[2..])
      else if |u| >= 3 && Lower(u[1]) == 'o' then Radix(8, u[2..])
      else if |u| >= 3 && Lower(u[1]) == 'x' then Radix(16, u[2..])
      else Radix(8, u[1..])
    else Radix(10, u)
  }

  /** Every character is a digit of the base or an underscore. */
  predicate ValidDigits(body: string, base: nat)
  {
    forall i :: 0 <= i < |body| ==> body[i] == '_' || DigitVal(body[i]) < base
  }

  /** The value of the digits, underscores skipped, read left to right. */
  function DigitsValue(body: string, base: nat): nat
    decreases |body|
  {
    if body == [] then 0
    else if body[|body| - 1] == '_' then DigitsValue(body[..|body| - 1], base)
    else DigitsValue(body[..|body| - 1], base) * base + DigitVal(body[|body| - 1])
  }

  /** What `underscoreOK` remembers of the last character: start, digit (or base prefix), underscore, other. */
  datatype Saw = Start | SawDigit | SawUnderscore | SawOther

  /** The scan of `underscoreOK` after the optional sign and base prefix. */
  function UnderscoreScan(s: string, hex: bool, saw: Saw): bool
    decreases |s|
  {
    if s == [] then saw != SawUnderscore
    else if IsDecDigit(s[0]) || (hex && 'a' <= Lower(s[0]) <= 'f') then UnderscoreScan(s[1..], hex, SawDigit)
    else if s[0] == '_' then saw == SawDigit && UnderscoreScan(s[1..], hex, SawUnderscore)
    else saw != SawUnderscore && UnderscoreScan(s[1..], hex, SawOther)
  }

  /** strconv's `underscoreOK`: an underscore only between digits, or between a base prefix and a digit. */
  function UnderscoreOK(s0: string): bool
  {
    var s := if |s0| >= 1 && (s0[0] == '-' || s0[0] == '+') then s0[1..] else s0;
    if |s| >= 2 && s[0] == '0' && (Lower(s[1]) == 'b' || Lower(s[1]) == 'o' || Lower(s[1]) == 'x') then
      UnderscoreScan(s[2..], Lower(s[1]) == 'x', SawDigit)
    else
      UnderscoreScan(s, false, Start)
  }

  const Int64Bound: nat := 0x8000_0000_0000_0000

  /** The text after an optional leading `+` or `-`. */
  function Unsigned(s: string): string
  {
    if |s| > 0 && (s[0] == '+' || s[0] == '-') then s[1..] else s
  }

  /** `strconv.ParseInt(value, 0, 64)` reports no error. */
  predicate IsNumber(value: string)
  {
    var u := Unsigned(value);
    var r := SplitRadix(u);
    && |value| > 0
    && |u| > 0
    && ValidDigits(r.body, r.base)
    && ('_' in r.body ==> UnderscoreOK(u))
    && (if value[0] == '-' then DigitsValue(r.body, r.base) <= Int64Bound
        else DigitsValue(r.body, r.base) < Int64Bound)
  }

  function Pow10(n: nat): nat
  {
    if n == 0 then 1 else 10 * Pow10(n - 1)
  }

  lemma {:induction false} DecimalValueBound(body: string)
    requires forall i :: 0 <= i < |body| ==> IsDecDigit(body[i])
    ensures DigitsValue(body, 10) < Pow10(|body|)
    decreases |body|
  {
    if body != [] {
      var init := body[..|body| - 1];
      DecimalValueBound(init);
    }
  }

  lemma {:induction false} Pow10Mono(n: nat)
    requires n <= 18
    ensures Pow10(n) <= 1_000_000_000_000_000_000
    decreases 18 - n
  {
    if n < 18 {
      Pow10Mono(n + 1);
    } else {
      assert Pow10(6) == 1_000_000;
      assert Pow10(12) == 1_000_000_000_000;
    }
  }

  /** A decimal integer of up to 18 digits, without a leading zero and with an optional sign, is a number. */
  lemma DecimalIsNumber(value: string, digits: string)
    requires 1 <= |digits| <= 18 && digits[0] != '0'
    requires forall i :: 0 <= i < |digits| ==> IsDecDigit(digits[i])
    requires value == digits || value == "-" + digits || value == "+" + digits
    ensures IsNumber(value)
  {
    assert Unsigned(value) == digits;
    assert SplitRadix(digits) == Radix(10, digits);
    DecimalValueBound(digits);
    Pow10Mono(|digits|);
  }

  /** One signed form of a decimal: the range check is all that is left of `IsNumber`. */
  lemma DecimalRangeOf(value: string, digits: string)
    requires |digits| >= 1 && digits[0] != '0'
    requires forall i :: 0 <= i < |digits| ==> IsDecDigit(digits[i])
    requires value == digits || value == "+" + digits || value == "-" + digits
    ensures IsNumber(value) <==>
      if value[0] == '-' then DigitsValue(digits, 10) <= Int64Bound else DigitsValue(digits, 10) < Int64Bound
  {
    assert Unsigned(value) == digits;
    assert SplitRadix(digits) == Radix(10, digits);
    assert ValidDigits(digits, 10);
    assert '_' !in digits by {
      forall i | 0 <= i < |digits|
        ensures digits[i] != '_'
      {
        assert IsDecDigit(digits[i]);
      }
    }
  }

  /**
   * The 64-bit range on decimal numbers: a decimal without a leading zero is
   * a number exactly when its value is below 2^63, or at most 2^63 after a
   * minus sign (so 9223372036854775807 and -9223372036854775808 are numbers,
   * 9223372036854775808 is not).
   */
  lemma DecimalRange(digits: string)
    requires |digits| >= 1 && digits[0] != '0'
    requires forall i :: 0 <= i < |digits| ==> IsDecDigit(digits[i])
    ensures IsNumber(digits) <==> DigitsValue(digits, 10) < Int64Bound
    ensures IsNumber("+" + digits) <==> DigitsValue(digits, 10) < Int64Bound
    ensures IsNumber("-" + digits) <==> DigitsValue(digits, 10) <= Int64Bound
  {
    DecimalRangeOf(digits, digits);
    DecimalRangeOf("+" + digits, digits);
    DecimalRangeOf("-" + digits, digits);
  }

  lemma {:induction false} ScanRejectsLeadingUnderscore(s: string)
    requires |s| > 0 && s[0] == '_'
    ensures !UnderscoreScan(s, false, Start)
  {
  }

  /**
   * A number starts with a sign or a decimal digit: in particular never with
   * a quote, a bracket or a letter.
   */
  lemma NumberLead(value: string)
    requires IsNumber(value)
    ensures value[0] == '+' || value[0] == '-' || IsDecDigit(value[0])
  {
    if value[0] != '+' && value[0] != '-' && value[0] != '0' {
      var r := SplitRadix(value);
      assert r == Radix(10, value);
      assert value[0] == '_' || DigitVal(value[0]) < 10;
      if value[0] == '_' {
        assert '_' in r.body;
        ScanRejectsLeadingUnderscore(value);
      }
    }
  }

  /** Digits of a base up to 16, underscores included, hold no space. */
  lemma DigitsHaveNoBlank(body: string, base: nat)
    requires ValidDigits(body, base) && base <= 16
    ensures ' ' !in body
  {
    assert DigitVal(' ') == 36;
    forall i | 0 <= i < |body|
      ensures body[i] != ' '
    {
      assert body[i] == '_' || DigitVal(body[i]) < base;
    }
  }

  /** A base prefix holds no space, so the unsigned text has none when its digits have none. */
  lemma RadixHasNoBlank(u: string)
    requires ' ' !in SplitRadix(u).body
    ensures ' ' !in u
  {
    if |u| >= 1 && u[0] == '0' {
      if |u| >= 3 && (Lower(u[1]) == 'b' || Lower(u[1]) == 'o' || Lower(u[1]) == 'x') {
        assert u == [u[0], u[1]] + u[2..];
      } else {
        assert u == [u[0]] + u[1..];
      }
    }
  }

  /** A number holds no space and does not start with white space. */
  lemma NumberHasNoBlank(value: string)
    requires IsNumber(value)
    ensures !IsSpace(value[0]) && ' ' !in value
  {
    NumberLead(value);
    var u := Unsigned(value);
    DigitsHaveNoBlank(SplitRadix(u).body, SplitRadix(u).base);
    RadixHasNoBlank(u);
    assert value == u || value == [value[0]] + u;
  }

  /** No boolean literal holds a space. */
  lemma BoolHasNoBlank(value: string)
    requires IsBool(value)
    ensures ' ' !in value
  {
    forall i | 0 <= i < |value|
      ensures value[i] != ' '
    {
      assert value[i] in "01tTfFrRuUeEaAlLsS";
    }
  }

  /**
   * A boolean or a number is never blank and never holds a space: its first
   * character is no white space and no character is ' '.
   */
  lemma KindHasNoBlank(value: string)
    ensures IsBool(value) || IsNumber(value) ==> value != "" && !IsSpace(value[0]) && ' ' !in value
  {
    if IsNumber(value) {
      NumberHasNoBlank(value);
    } else if IsBool(value) {
      BoolLead(value);
      BoolHasNoBlank(value);
    }
  }

  /** A boolean literal starts with one of `0 1 t T f F`. */
  lemma BoolLead(value: string)
    requires IsBool(value)
    ensures value[0] in "01tTfF"
  {
  }

  /** The port numbers of the formatter's tests are numbers. */
  lemma DecimalExamples()
    ensures IsNumber("8000") && IsNumber("8010") && IsNumber("-3")
  {
    DecimalIsNumber("8000", "8000");
    DecimalIsNumber("8010", "8010");
    DecimalIsNumber("-3", "3");
  }

  /** A lone `0` is octal zero and a leading `0` makes the rest octal, so `08` is no number. */
  lemma OctalExamples()
    ensures IsNumber("0") && IsNumber("010") && !IsNumber("08")
  {
    assert SplitRadix("0") == Radix(8, "");
    assert SplitRadix("010") == Radix(8, "10");
    assert DigitsValue("10", 8) == 8 by {
      assert "10"[..1] == "1";
      assert "1"[..0] == "";
    }
    assert SplitRadix("08") == Radix(8, "8");
    assert DigitVal("8"[0]) == 8;
  }

  /** A hexadecimal prefix and single underscores between digits are accepted. */
  lemma PrefixExamples()
    ensures IsNumber("0x1F") && IsNumber("1_000")
  {
    assert SplitRadix("0x1F") == Radix(16, "1F");
    assert DigitsValue("1F", 16) == 31 by {
      assert "1F"[..1] == "1";
      assert "1"[..0] == "";
    }
    assert SplitRadix("1_000") == Radix(10, "1_000");
    assert DigitsValue("1_000", 10) == 1000 by {
      assert "1_000"[..4] == "1_00";
      assert "1_00"[..3] == "1_0";
      assert "1_0"[..2] == "1_";
      assert "1_"[..1] == "1";
      assert "1"[..0] == "";
    }
    assert UnderscoreOK("1_000") by {
      assert "1_000"[1..] == "_000";
      assert "_000"[1..] == "000";
      assert "000"[1..] == "00";
      assert "00"[1..] == "0";
      assert "0"[1..] == "";
    }
  }

  /** Doubled or leading underscores are rejected. */
  lemma UnderscoreExamples()
    ensures !IsNumber("1__000") && !IsNumber("_1")
  {
    assert !UnderscoreOK("1__000") by {
      assert "1__000"[1..] == "__000";
      assert "__000"[1..] == "_000";
    }
    ScanRejectsLeadingUnderscore("_1");
  }

  /** An empty text, a lone sign, a word and a fraction are rejected. */
  lemma RejectedExamples()
    ensures !IsNumber("") && !IsNumber("+") && !IsNumber("new") && !IsNumber("1.5")
  {
    assert Unsigned("+") == "";
    assert SplitRadix("new") == Radix(10, "new");
    assert DigitVal("new"[0]) == 23;
    assert SplitRadix("1.5") == Radix(10, "1.5");
    assert DigitVal("1.5"[1]) == 36;
  }

  /** The word `new` is neither a boolean nor a number. */
  lemma NewIsNeitherKind()
    ensures !IsNumber("new") && !IsBool("new")
  {
    assert SplitRadix("new") == Radix(10, "new");
    assert DigitVal("new"[0]) == 23;
  }

  /** The words of the formatter's tests: `true` and `false` are booleans, `new` is neither kind. */
  lemma BoolExamples()
    ensures IsBool("true") && IsBool("false") && !IsBool("new")
  {
  }
}
