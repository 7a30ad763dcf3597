/** Decimal numbers as Python prints them and `int` reads them. Digits beyond ASCII are not part of this model. */
module Decimals {
  import opened Wrappers

  /** What `int` makes of a word, if it accepts it. */
  type Number = Option<int>

  predicate IsDigit(c: char) {
    '0' <= c <= '9'
  }

  /** `str.isdigit`. */
  predicate IsDigits(s: string) {
    s != "" && forall i :: 0 <= i < |s| ==> IsDigit(s[i])
  }

  function Digit(n: nat): (c: char)
    requires n < 10
    ensures IsDigit(c)
  {
    '0' + n as char
  }

  /** A natural number in decimal. */
  function Decimal(n: nat): (r: string)
    ensures r != "" && forall i :: 0 <= i < |r| ==> IsDigit(r[i])
  {
    if n < 10 then [Digit(n)] else Decimal(n / 10) + [Digit(n % 10)]
  }

  /** The number written in decimal digits, with at most one underscore between any two of them. */
  function DigitsOf(s: string): Option<nat>
    decreases |s|
  {
    if s == "" || !IsDigit(s[|s| - 1]) then None
    else
      var front, digit := s[..|s| - 1], s[|s| - 1] as nat - '0' as nat;
      if front == "" then Some(digit)
      else
        var more := if front[|front| - 1] == '_' then DigitsOf(front[..|front| - 1]) else DigitsOf(front);
        match more
        case None => None
        case Some(n) => Some(10 * n + digit)
  }

  /** `int(word)`, which takes a sign. */
  function IntOf(word: string): Number {
    match DigitsOf(word)
    case Some(n) => Some(n)
    case None =>
      if word == "" || (word[0] != '+' && word[0] != '-') then None
      else
        match DigitsOf(word[1..])
        case None => None
        case Some(n) => Some(if word[0] == '-' then 0 - n else n)
  }

  lemma {:induction false} DecimalReads(n: nat)
    ensures DigitsOf(Decimal(n)) == Some(n)
  {
    if n >= 10 {
      DecimalReads(n / 10);
      var digits := Decimal(n / 10);
      assert Decimal(n)[..|Decimal(n)| - 1] == digits;
      assert IsDigit(digits[|digits| - 1]);
    }
  }

  /** What a number reads as, by its last digit. */
  lemma LastDigit(s: string)
    requires s != ""
    ensures var (front, last) := (s[..|s| - 1], s[|s| - 1]);
            DigitsOf(s) == if !IsDigit(last) then None
                           else if front == "" then Some(last as nat - '0' as nat)
                           else match DigitsOf(Whole(front)) case None => None case Some(n) => Some(10 * n + (last as nat - '0' as nat))
  {
  }

  /** A string without an underscore at its end. */
  function Whole(s: string): string
    requires s != ""
  {
    if s[|s| - 1] == '_' then s[..|s| - 1] else s
  }

  lemma {:induction false} SignIsNoDigit(sign: char, digits: string)
    requires sign == '-' || sign == '+'
    ensures DigitsOf([sign] + digits) == None
    decreases |digits|
  {
    hide DigitsOf;
    var word := [sign] + digits;
    LastDigit(word);
    if digits != "" {
      var front := word[..|word| - 1];
      assert front == [sign] + digits[..|digits| - 1];
      if front[|front| - 1] == '_' {
        assert Whole(front) == [sign] + digits[..|digits| - 2];
        SignIsNoDigit(sign, digits[..|digits| - 2]);
      } else {
        SignIsNoDigit(sign, digits[..|digits| - 1]);
      }
    }
  }

  lemma {:induction false} DigitsRead(s: string)
    requires IsDigits(s)
    ensures DigitsOf(s).Some?
    decreases |s|
  {
    if |s| > 1 {
      DigitsRead(s[..|s| - 1]);
    }
  }
}
