/** The hand-written integer printer of the HTTP module. */
module Numerals {
  import opened Text

  function Pow10(k: nat): nat {
    if k == 0 then 1 else 10 * Pow10(k - 1)
  }

  lemma MaxIntFits()
    ensures Pow10(19) == 10_000_000_000_000_000_000
  {
    assert Pow10(5) == 100_000;
    assert Pow10(10) == 10_000_000_000;
    assert Pow10(15) == 1_000_000_000_000_000;
  }

  lemma {:induction false} DigitsBelow(n: int, k: nat)
    requires 0 <= n < Pow10(k) && k > 0
    ensures |Decimal(n)| <= k
  {
    if n < 10 {
    } else {
      DigitsBelow(n / 10, k - 1);
    }
  }

  const BUFFER := 20

  predicate IsInt64(value: int) {
    -0x8000_0000_0000_0000 <= value < 0x8000_0000_0000_0000
  }

  lemma Int64Fits(value: int)
    requires IsInt64(value)
    ensures |Left(value)| < BUFFER
  {
    MaxIntFits();
    if value > 0 { DigitsBelow(value, 19); }
  }

  /** The digits still to be written; a value that is not positive has none. */
  function Left(rest: int): string {
    if rest > 0 then Decimal(rest) else ""
  }

  lemma LastDigit(rest: int, tail: string)
    requires rest > 0
    ensures Left(rest) + tail == Left(rest / 10) + ([Digit(rest % 10)] + tail) && Left(rest) != ""
  {
    assert Left(rest) == Left(rest / 10) + [Digit(rest % 10)];
  }

  /** The value after k digits are written, and those digits. */
  function Rest(value: nat, k: nat): nat {
    if k == 0 then value else Rest(value, k - 1) / 10
  }

  function Tail(value: nat, k: nat): (s: string)
    ensures |s| == k
  {
    if k == 0 then "" else [Digit(Rest(value, k - 1) % 10)] + Tail(value, k - 1)
  }

  lemma {:induction false} DigitsSplit(value: nat, k: nat)
    requires value > 0 && (k > 0 ==> Rest(value, k - 1) > 0)
    ensures Decimal(value) == Left(Rest(value, k)) + Tail(value, k)
  {
    if k == 0 {
    } else {
      DigitsSplit(value, k - 1);
      LastDigit(Rest(value, k - 1), Tail(value, k - 1));
    }
  }

  /** Digits still to come find room in the buffer; when none is left, the numeral is complete. */
  lemma Room(value: nat, k: nat)
    requires value > 0 && IsInt64(value) && (k > 0 ==> Rest(value, k - 1) > 0)
    ensures Rest(value, k) > 0 ==> k < BUFFER
    ensures Rest(value, k) == 0 ==> Tail(value, k) == Decimal(value)
  {
    DigitsSplit(value, k);
    Int64Fits(value);
  }

  /**
   strconvItoa for Go's 64-bit int: digits are written backwards into a buffer of twenty
   bytes. The buffer suffices; a negative value, which the program never prints, gives an
   empty text.
   */
  method Itoa(value: int) returns (s: string)
    requires IsInt64(value)
    ensures value >= 0 ==> s == Decimal(value)
    ensures value < 0 ==> s == ""
  {
    if value == 0 {
      return "0";
    }
    var buffer := new char[BUFFER];
    var position, rest := BUFFER, value;
    ghost var k: nat := 0;
    while rest > 0
      invariant 0 <= position && position + k == BUFFER && (value < 0 ==> k == 0 && rest == value)
      invariant value > 0 ==> rest == Rest(value, k) && (k > 0 ==> Rest(value, k - 1) > 0)
      invariant value > 0 ==> buffer[position..] == Tail(value, k)
    {
      Room(value, k);
      position := position - 1;
      ghost var written := buffer[position + 1..];
      buffer[position] := Digit(rest % 10);
      assert buffer[position..] == [buffer[position]] + written;
      rest := rest / 10;
      k := k + 1;
    }
    if value > 0 { Room(value, k); }
    s := buffer[position..];
  }

  /** A numeral as people write it. */
  predicate IsNumeral(s: string) {
    s != "" && AllDigits(s) && (|s| > 1 ==> s[0] != '0')
  }

  lemma {:induction false} NumeralPositive(s: string)
    requires IsNumeral(s) && |s| > 1
    ensures Number(s) >= 10
  {
    if |s| == 2 {
      assert s[..1][..0] == [];
      assert Number(s[..1]) == DigitValue(s[0]);
    } else {
      NumeralPositive(s[..|s| - 1]);
    }
  }

  /** Decimal(n) is the one numeral without leading zeros whose value is n. */
  lemma {:induction false} DecimalIsTheNumeral(n: int, s: string)
    requires n >= 0
    ensures IsNumeral(Decimal(n))
    ensures IsNumeral(s) && Number(s) == n <==> s == Decimal(n)
  {
    DecimalIsNumeral(n);
    NumberDecimal(n);
    if IsNumeral(s) && Number(s) == n {
      NumeralUnique(n, s);
    }
  }

  lemma {:induction false} DecimalIsNumeral(n: int)
    requires n >= 0
    ensures IsNumeral(Decimal(n)) && (n > 0 ==> Decimal(n)[0] != '0')
  {
    if n < 10 {
    } else {
      DecimalIsNumeral(n / 10);
    }
  }

  lemma {:induction false} NumeralUnique(n: int, s: string)
    requires n >= 0 && IsNumeral(s) && Number(s) == n
    ensures s == Decimal(n)
  {
    var k := |s| - 1;
    if k == 0 {
      assert s[..0] == [];
    } else {
      NumeralPositive(s);
      NumeralUnique(n / 10, s[..k]);
      assert s == s[..k] + [s[k]];
      assert DigitValue(s[k]) == n % 10;
    }
  }
}
