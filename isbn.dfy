/**
 * ISBN-13 to ISBN-10 conversion as `VolumeService.convertToISBN10` does it,
 * together with the ISBN-10 check of ISO 2108 that the service re-applies to
 * its own result (Apache Commons' `ISBNValidator.isValidISBN10`).
 */
module Isbn {
  import opened Wrappers

  // ---------------------------------------------------------------------------
  // Characters and Java arithmetic
  // ---------------------------------------------------------------------------

  predicate IsDigit(c: char) {
    '0' <= c <= '9'
  }

  predicate AllDigits(s: string) {
    forall i :: 0 <= i < |s| ==> IsDigit(s[i])
  }

  predicate AllZeros(s: string) {
    forall i :: 0 <= i < |s| ==> s[i] == '0'
  }

  /**
   * `Character.getNumericValue` on ASCII: decimal digits are worth 0..9,
   * Latin letters of either case 10..35, everything else -1.
   */
  function NumericValue(c: char): (v: int)
    ensures -1 <= v <= 35
    ensures IsDigit(c) <==> 0 <= v <= 9
  {
    if IsDigit(c) then c as int - '0' as int
    else if 'a' <= c <= 'z' then c as int - 'a' as int + 10
    else if 'A' <= c <= 'Z' then c as int - 'A' as int + 10
    else -1
  }

  /** The decimal digit character for 0..9 (`String.valueOf` of a one-digit int). */
  function DigitChar(d: int): (c: char)
    requires 0 <= d <= 9
    ensures IsDigit(c) && NumericValue(c) == d
  {
    ('0' as int + d) as char
  }

  /** Java's `%` on `int`: the remainder takes the sign of the dividend. */
  function JavaRem(a: int, b: int): (r: int)
    requires b > 0
    ensures -b < r < b
    ensures a >= 0 ==> r == a % b
    ensures a < 0 ==> r <= 0
  {
    if a >= 0 then a % b else -((-a) % b)
  }

  /** Java's `String.startsWith`. */
  predicate StartsWith(s: string, prefix: string) {
    |prefix| <= |s| && s[..|prefix|] == prefix
  }

  // ---------------------------------------------------------------------------
  // The ISBN-10 checksum
  // ---------------------------------------------------------------------------

  /** The sum over `s` of each character's numeric value times a weight that starts at `weight` and drops by one per position. */
  function WeightedSum(s: string, weight: int): (sum: int)
    decreases |s|
  {
    if |s| == 0 then 0
    else NumericValue(s[0]) * weight + WeightedSum(s[1..], weight - 1)
  }

  /** The value of an ISBN-10 check character: 'X' is ten, anything else its numeric value. */
  function CheckCharValue(c: char): (v: int) {
    if c == 'X' then 10 else NumericValue(c)
  }

  /**
   * An ISBN-10 as Apache Commons' `isValidISBN10` accepts it: nine decimal
   * digits and a check character that is a digit or 'X', whose values
   * weighted 10, 9, ..., 1 sum to a multiple of eleven (ISO 2108). The
   * validator's modulus check also refuses a sum of zero, so "0000000000"
   * is not valid.
   */
  predicate IsValidIsbn10(s: string) {
    && |s| == 10
    && AllDigits(s[..9])
    && (IsDigit(s[9]) || s[9] == 'X')
    && (WeightedSum(s[..9], 10) + CheckCharValue(s[9])) % 11 == 0
    && WeightedSum(s[..9], 10) + CheckCharValue(s[9]) != 0
  }

  /** The check value computed from nine payload characters: eleven minus the weighted sum, modulo eleven. */
  function CheckValue(digits: string): (v: int)
    ensures 0 <= v <= 10
  {
    (11 - JavaRem(WeightedSum(digits, 10), 11)) % 11
  }

  /** The check character that renders a check value: "X" for ten, the decimal digit otherwise. */
  function CheckChar(v: int): (c: char)
    requires 0 <= v <= 10
    ensures CheckCharValue(c) == v
    ensures c == 'X' <==> v == 10
  {
    if v == 10 then 'X' else DigitChar(v)
  }

  // ---------------------------------------------------------------------------
  // convertToISBN10
  // ---------------------------------------------------------------------------

  /** The precondition under which `isbn13.substring(3, 12)` cannot throw once the prefix test passed. */
  predicate Convertible(isbn13: string) {
    |isbn13| >= 12 || !StartsWith(isbn13, "978")
  }

  /**
   * What `convertToISBN10` returns: absent unless the input starts with
   * "978"; otherwise characters 3..11 followed by their check character,
   * provided that candidate passes the ISBN-10 validator.
   */
  function Isbn10Of(isbn13: string): (r: Option<string>)
    requires Convertible(isbn13)
  {
    if !StartsWith(isbn13, "978") then None
    else
      var digits := isbn13[3..12];
      var candidate := digits + [CheckChar(CheckValue(digits))];
      if IsValidIsbn10(candidate) then Some(candidate) else None
  }

  /** `VolumeService.convertToISBN10`, loop and all. */
  method ConvertToIsbn10(isbn13: string) returns (r: Option<string>)
    requires Convertible(isbn13)
    ensures r == Isbn10Of(isbn13)
  {
    if !StartsWith(isbn13, "978") {
      return None;
    }
    var digits := isbn13[3..12];
    var sum := 0;
    var weight := 10;
    var i := 0;
    while i < |digits|
      invariant 0 <= i <= |digits|
      invariant weight == 10 - i
      invariant sum + WeightedSum(digits[i..], weight) == WeightedSum(digits, 10)
    {
      var digit := NumericValue(digits[i]);
      sum := sum + digit * weight;
      weight := weight - 1;
      i := i + 1;
    }
    var checkDigit := (11 - JavaRem(sum, 11)) % 11;
    var checkDigitStr := if checkDigit == 10 then "X" else [DigitChar(checkDigit)];
    var isbn10 := digits + checkDigitStr;
    if IsValidIsbn10(isbn10) {
      r := Some(isbn10);
    } else {
      r := None;
    }
  }

  // ---------------------------------------------------------------------------
  // Properties
  // ---------------------------------------------------------------------------

  /** A weighted sum of digits under positive weights is not negative. */
  lemma {:induction false} WeightedSumOfDigitsNonNegative(s: string, weight: int)
    requires AllDigits(s)
    requires weight >= |s|
    ensures WeightedSum(s, weight) >= 0
  {
    if |s| > 0 {
      WeightedSumOfDigitsNonNegative(s[1..], weight - 1);
    }
  }

  /** A weighted sum of digits under positive weights is zero exactly when every digit is '0'. */
  lemma {:induction false} WeightedSumOfDigitsZeroIff(s: string, weight: int)
    requires AllDigits(s)
    requires weight >= |s|
    ensures WeightedSum(s, weight) == 0 <==> AllZeros(s)
  {
    if |s| > 0 {
      var rest := s[1..];
      assert AllDigits(rest) by {
        forall i | 0 <= i < |rest| ensures IsDigit(rest[i]) {
          assert rest[i] == s[i + 1];
        }
      }
      WeightedSumOfDigitsZeroIff(rest, weight - 1);
      WeightedSumOfDigitsNonNegative(rest, weight - 1);
      var v := NumericValue(s[0]);
      assert 0 <= v <= 9 && weight >= 1;
      assert v * weight >= 0;
      assert v * weight == 0 <==> s[0] == '0' by {
        if v > 0 {
          assert v * weight >= weight;
        }
      }
      assert AllZeros(s) <==> s[0] == '0' && AllZeros(rest) by {
        if s[0] == '0' && AllZeros(rest) {
          forall i | 0 < i < |s| ensures s[i] == '0' {
            assert s[i] == rest[i - 1];
          }
        }
      }
    }
  }

  /** Adding the check value to a non-negative sum reaches a multiple of eleven, and zero only from zero. */
  lemma CheckValueCompletesSum(sum: int)
    requires sum >= 0
    ensures (sum + (11 - sum % 11) % 11) % 11 == 0
    ensures sum + (11 - sum % 11) % 11 == 0 <==> sum == 0
  {
    var q, m := sum / 11, sum % 11;
    assert sum == 11 * q + m;
    if m != 0 {
      assert sum + (11 - m) % 11 == 11 * (q + 1);
    }
  }

  /**
   * Appending the computed check character to nine digits yields a valid
   * ISBN-10 unless all nine digits are '0': then the weighted sum is zero
   * and the validator refuses it.
   */
  lemma CheckCharCompletesIsbn10(digits: string)
    requires |digits| == 9 && AllDigits(digits)
    ensures IsValidIsbn10(digits + [CheckChar(CheckValue(digits))]) <==> !AllZeros(digits)
  {
    var sum := WeightedSum(digits, 10);
    WeightedSumOfDigitsNonNegative(digits, 10);
    WeightedSumOfDigitsZeroIff(digits, 10);
    CheckValueCompletesSum(sum);
    var v := CheckValue(digits);
    assert v == (11 - sum % 11) % 11;
    var candidate := digits + [CheckChar(v)];
    assert candidate[..9] == digits;
    assert CheckCharValue(candidate[9]) == v;
  }

  /** Nine characters are all '0' exactly when they spell "000000000". */
  lemma AllZerosPayload(digits: string)
    requires |digits| == 9
    ensures AllZeros(digits) <==> digits == "000000000"
  {
    if AllZeros(digits) {
      assert forall i :: 0 <= i < 9 ==> digits[i] == "000000000"[i];
    }
  }

  /**
   * The conversion is absent exactly when the input lacks the "978" prefix,
   * one of the nine payload characters is not a decimal digit, or the payload
   * is "000000000", whose weighted sum of zero the validator refuses; for
   * any other all-digit payload the validator's rejecting branch is
   * unreachable.
   */
  lemma Isbn10OfAbsentIff(isbn13: string)
    requires Convertible(isbn13)
    ensures Isbn10Of(isbn13).None? <==>
      !StartsWith(isbn13, "978") || !AllDigits(isbn13[3..12]) || isbn13[3..12] == "000000000"
  {
    if StartsWith(isbn13, "978") {
      var digits := isbn13[3..12];
      var candidate := digits + [CheckChar(CheckValue(digits))];
      if AllDigits(digits) {
        CheckCharCompletesIsbn10(digits);
        AllZerosPayload(digits);
      } else {
        var i :| 0 <= i < 9 && !IsDigit(digits[i]);
        assert candidate[..9][i] == digits[i];
      }
    }
  }

  /**
   * An all-digit 13-character ISBN with the "978" prefix converts unless its
   * payload is "000000000".
   */
  lemma Isbn10OfPrefixedDigits(isbn13: string)
    requires |isbn13| == 13 && AllDigits(isbn13) && StartsWith(isbn13, "978")
    ensures Isbn10Of(isbn13).Some? <==> isbn13[3..12] != "000000000"
  {
    assert AllDigits(isbn13[3..12]) by {
      forall i | 0 <= i < 9 ensures IsDigit(isbn13[3..12][i]) {
        assert isbn13[3..12][i] == isbn13[i + 3];
      }
    }
    Isbn10OfAbsentIff(isbn13);
  }

  /** An all-zero payload does not convert, whatever the input's own check character. */
  lemma Isbn10OfZeroPayload(c: char)
    ensures Isbn10Of("978000000000" + [c]) == None
  {
    var isbn13 := "978000000000" + [c];
    assert isbn13[..3] == "978";
    assert isbn13[3..12] == "000000000";
    Isbn10OfAbsentIff(isbn13);
  }

  /**
   * A present conversion is a valid ISBN-10 of length ten whose first nine
   * characters are characters 3..11 of the input and whose last is the
   * check character of those nine ('X' exactly when the check value is ten).
   */
  lemma Isbn10OfShape(isbn13: string)
    requires Convertible(isbn13)
    requires Isbn10Of(isbn13).Some?
    ensures var isbn10 := Isbn10Of(isbn13).value;
      && |isbn10| == 10
      && isbn10[..9] == isbn13[3..12]
      && isbn10[9] == CheckChar(CheckValue(isbn13[3..12]))
      && (isbn10[9] == 'X' <==> CheckValue(isbn13[3..12]) == 10)
      && IsValidIsbn10(isbn10)
  {
    var digits := isbn13[3..12];
    assert (digits + [CheckChar(CheckValue(digits))])[..9] == digits;
  }

  /** The first fixture of the volume tests: "9780545582933" converts to "0545582938". */
  lemma Isbn10OfHarryPotter()
    ensures Isbn10Of("9780545582933") == Some("0545582938")
  {
    var digits := "9780545582933"[3..12];
    assert digits == "054558293";
    assert WeightedSum(digits, 10) == 223;
    assert CheckValue(digits) == 8;
    assert digits + [CheckChar(8)] == "0545582938";
    assert !AllZeros(digits) by { assert digits[1] == '5'; }
    CheckCharCompletesIsbn10(digits);
  }

  /** The second fixture exercises the 'X' branch: "9780975229804" converts to "097522980X". */
  lemma Isbn10OfElementsOfStyle()
    ensures Isbn10Of("9780975229804") == Some("097522980X")
  {
    var digits := "9780975229804"[3..12];
    assert digits == "097522980";
    assert WeightedSum(digits, 10) == 254;
    assert CheckValue(digits) == 10;
    assert digits + [CheckChar(10)] == "097522980X";
    assert !AllZeros(digits) by { assert digits[1] == '9'; }
    CheckCharCompletesIsbn10(digits);
  }

  /** An ISBN-13 from the 979 range has no ISBN-10 form. */
  lemma Isbn10OfOutsideBookland()
    ensures Isbn10Of("1234567890123") == None
    ensures Isbn10Of("9791234567896") == None
  {
    assert !StartsWith("1234567890123", "978") by {
      assert "1234567890123"[..3] == "123";
    }
    assert !StartsWith("9791234567896", "978") by {
      assert "9791234567896"[..3] == "979";
    }
  }
}
