/** Decimal numerals, as the cache's files and HTTP dates write them. */
module Decimal {

  predicate IsDigit(c: char) {
    '0' <= c <= '9'
  }

  predicate AllDigits(text: string) {
    forall i :: 0 <= i < |text| ==> IsDigit(text[i])
  }

  function DigitValue(c: char): (value: nat)
    requires IsDigit(c)
    ensures value <= 9
  {
    c as int - '0' as int
  }

  /** The last decimal digit of a number. */
  function Digit(value: nat): (c: char)
    ensures IsDigit(c) && DigitValue(c) == value % 10
  {
    ('0' as int + value % 10) as char
  }

  function ParseDigits(text: string): nat
    requires AllDigits(text)
  {
    if text == "" then 0 else ParseDigits(text[..|text| - 1]) * 10 + DigitValue(text[|text| - 1])
  }

  /** A number's numeral without leading zeros. */
  function Numeral(value: nat): (text: string)
    ensures text != "" && AllDigits(text)
  {
    if value < 10 then [Digit(value)] else Numeral(value / 10) + [Digit(value)]
  }

  lemma {:induction false} NumeralIsRead(value: nat)
    ensures ParseDigits(Numeral(value)) == value
  {
    var text := Numeral(value);
    if value < 10 {
      assert text[..0] == "";
    } else {
      NumeralIsRead(value / 10);
      assert text[..|text| - 1] == Numeral(value / 10);
    }
  }

  /** No spelling of a number is shorter. */
  lemma {:induction false} NumeralIsShortest(text: string)
    requires text != "" && AllDigits(text)
    ensures |Numeral(ParseDigits(text))| <= |text|
  {
    var init := text[..|text| - 1];
    if init == "" {
      assert ParseDigits(text) == DigitValue(text[0]);
    } else {
      NumeralIsShortest(init);
      assert ParseDigits(text) / 10 == ParseDigits(init);
    }
  }

  function Pow10(n: nat): (p: nat)
    ensures p > 0
  {
    if n == 0 then 1 else 10 * Pow10(n - 1)
  }

  const U64 := 0x1_0000_0000_0000_0000

  /** Twenty digits hold any 64-bit number: the loop below never runs out of room. */
  method NumberText(value: nat) returns (text: string)
    requires value < U64
    ensures text == Numeral(value)
  {
    var digits := new char[20](_ => '0');
    var used: nat, remaining: nat := 0, value;
    ghost var suffix := "";
    while true
      invariant 0 <= used < 20
      invariant remaining * Pow10(used) <= value && (used > 0 ==> remaining > 0)
      invariant digits[20 - used..] == suffix && Numeral(remaining) + suffix == Numeral(value)
      decreases remaining
    {
      ghost var was := remaining;
      digits[19 - used] := Digit(remaining);
      used := used + 1;
      remaining := remaining / 10;
      MoveDigit(was, suffix);
      suffix := [Digit(was)] + suffix;
      assert digits[20 - used..] == suffix;
      if remaining == 0 {
        break;
      }
      Shorter(was, used - 1);
      RoomFor(remaining, used, value);
    }
    text := digits[20 - used..];
  }

  lemma MoveDigit(value: nat, suffix: string)
    ensures Numeral(value) + suffix ==
            if value / 10 == 0 then [Digit(value)] + suffix else Numeral(value / 10) + ([Digit(value)] + suffix)
  {
  }

  lemma Shorter(value: nat, used: nat)
    ensures value / 10 * Pow10(used + 1) <= value * Pow10(used)
  {
    assert value / 10 * Pow10(used + 1) == (value / 10 * 10) * Pow10(used);
    MulLeft(value / 10 * 10, value, Pow10(used));
  }

  lemma RoomFor(remaining: nat, used: nat, value: nat)
    requires 0 < remaining && used <= 20 && remaining * Pow10(used) <= value < U64
    ensures used < 20
  {
    MulLeft(1, remaining, Pow10(used));
    if used == 20 {
      TwentyIsEnough();
    }
  }

  lemma TwentyIsEnough()
    ensures Pow10(20) > U64
  {
    assert Pow10(10) == 10_000_000_000;
    assert Pow10(15) == 100_000 * Pow10(10);
    assert Pow10(20) == 100_000 * Pow10(15);
  }

  lemma MulLeft(a: int, b: int, c: nat)
    requires a <= b
    ensures a * c <= b * c
  {
  }
}
