/**
 The FizzBuzz rule and its list wrapper.

 A natural non-zero number is mapped to "FizzBuzz" when 3 and 5 both divide
 it, to "Fizz" or "Buzz" when only one of them does, and otherwise to its
 decimal string. A number below 1 is rejected with an out-of-range error, and
 the list wrapper rejects a whole list as soon as one element is rejected.
 */
module FizzBuzzer {

  /** The 32-bit signed integers the rule is given. */
  newtype int32 = x: int | -0x8000_0000 <= x < 0x8000_0000

  /** A value, or the out-of-range error the rule raises for a number below 1. */
  datatype Result<T> = Ok(value: T) | OutOfRange

  // ---------------------------------------------------------------------
  // Decimal strings

  function DigitChar(d: nat): char
    requires d < 10
  {
    "0123456789"[d]
  }

  predicate IsDigit(c: char) {
    '0' <= c <= '9'
  }

  function DigitValue(c: char): nat
    requires IsDigit(c)
  {
    c as int - '0' as int
  }

  /** The decimal string of a natural number, without leading zeros. */
  function Decimal(n: nat): (r: string)
    ensures |r| >= 1
    ensures forall i :: 0 <= i < |r| ==> IsDigit(r[i])
    ensures n > 0 ==> r[0] != '0'
  {
    if n < 10 then [DigitChar(n)] else Decimal(n / 10) + [DigitChar(n % 10)]
  }

  /** The number a string of digits reads as, most significant digit first. */
  function DecimalValue(s: string): nat
    requires forall i :: 0 <= i < |s| ==> IsDigit(s[i])
  {
    if s == [] then 0
    else 10 * DecimalValue(s[..|s| - 1]) + DigitValue(s[|s| - 1])
  }

  /** Reading the decimal string of a number gives the number back. */
  lemma {:induction false} DecimalRoundTrip(n: nat)
    ensures DecimalValue(Decimal(n)) == n
  {
    if n >= 10 {
      DecimalRoundTrip(n / 10);
      var s := Decimal(n);
      assert s[..|s| - 1] == Decimal(n / 10);
    }
  }

  /** Two numbers with the same decimal string are the same number. */
  lemma DecimalInjective(n: nat, m: nat)
    requires Decimal(n) == Decimal(m)
    ensures n == m
  {
    DecimalRoundTrip(n);
    DecimalRoundTrip(m);
  }

  // ---------------------------------------------------------------------
  // The rule

  /** The FizzBuzz word or number for `input`, or OutOfRange below 1. */
  function FizzBuzz(input: int32): (r: Result<string>)
    ensures r.OutOfRange? <==> input < 1
    ensures input >= 1 && input % 3 == 0 && input % 5 == 0 ==> r == Ok("FizzBuzz")
    ensures input >= 1 && input % 3 == 0 && input % 5 != 0 ==> r == Ok("Fizz")
    ensures input >= 1 && input % 3 != 0 && input % 5 == 0 ==> r == Ok("Buzz")
    ensures input >= 1 && input % 3 != 0 && input % 5 != 0 ==>
      r.Ok? && r.value != [] && r.value[0] != '0' &&
      (forall i :: 0 <= i < |r.value| ==> IsDigit(r.value[i])) &&
      DecimalValue(r.value) == input as int
  {
    if input < 1 then OutOfRange
    else
      var divisible3 := input % 3 == 0;
      var divisible5 := input % 5 == 0;
      if divisible3 && divisible5 then Ok("FizzBuzz")
      else if divisible3 then Ok("Fizz")
      else if divisible5 then Ok("Buzz")
      else
        DecimalRoundTrip(input as nat);
        Ok(Decimal(input as nat))
  }

  /** Whether a string is one of the three words of the rule. */
  predicate IsWordOfRule(s: string) {
    s == "Fizz" || s == "Buzz" || s == "FizzBuzz"
  }

  /** No decimal string is one of the words, so a word and a number can
      never be confused; and two numbers give the same string only when they
      are equal. */
  lemma FizzBuzzDistinguishes(n: int32, m: int32)
    requires FizzBuzz(n).Ok? && FizzBuzz(n) == FizzBuzz(m)
    ensures IsWordOfRule(FizzBuzz(n).value) <==> (n % 3 == 0 || n % 5 == 0)
    ensures !IsWordOfRule(FizzBuzz(n).value) ==> n == m
  {
    var s := FizzBuzz(n).value;
    if n % 3 != 0 && n % 5 != 0 {
      assert IsDigit(s[0]);
      assert !IsWordOfRule(s) by {
        assert "Fizz"[0] == 'F' && "Buzz"[0] == 'B' && "FizzBuzz"[0] == 'F';
      }
      assert DecimalValue(s) == n as int && DecimalValue(s) == m as int;
    }
  }

  /** The cases pinned by the unit tests of the rule. */
  lemma FizzBuzzExamples()
    ensures FizzBuzz(3) == Ok("Fizz") && FizzBuzz(5) == Ok("Buzz") && FizzBuzz(15) == Ok("FizzBuzz")
    ensures FizzBuzz(7) == Ok("7") && FizzBuzz(13) == Ok("13") && FizzBuzz(22) == Ok("22")
    ensures FizzBuzz(0) == OutOfRange && FizzBuzz(-1) == OutOfRange
  {
    assert DigitChar(1) == '1' && DigitChar(2) == '2' && DigitChar(3) == '3';
    assert Decimal(13) == ['1'] + ['3'] == "13";
    assert Decimal(22) == ['2'] + ['2'] == "22";
  }

  // ---------------------------------------------------------------------
  // The list wrapper

  /** The rule applied to every element of `intlst`, in order; OutOfRange as
      soon as an element is below 1. */
  method FizzBuzzLst(intlst: array<int32>) returns (r: Result<seq<string>>)
    ensures r.OutOfRange? <==> exists i :: 0 <= i < intlst.Length && intlst[i] < 1
    ensures r.Ok? ==>
      |r.value| == intlst.Length &&
      forall i :: 0 <= i < intlst.Length ==> FizzBuzz(intlst[i]) == Ok(r.value[i])
  {
    var strLst: seq<string> := [];
    for i := 0 to intlst.Length
      invariant |strLst| == i
      invariant forall j :: 0 <= j < i ==> FizzBuzz(intlst[j]) == Ok(strLst[j])
    {
      var s := FizzBuzz(intlst[i]);
      if s.OutOfRange? {
        return OutOfRange;
      }
      strLst := strLst + [s.value];
    }
    return Ok(strLst);
  }
}
