/** Numbers and text as the AT layer reads and prints them. */
module AtParser {
  import opened Wrappers
  import opened Text

  const INT_MAX: int := 0x7FFF_FFFF
  const INT_MIN: int := -0x8000_0000

  predicate IsDigit(c: char)
  {
    '0' <= c <= '9'
  }

  predicate AllDigits(s: string)
  {
    forall i :: 0 <= i < |s| ==> IsDigit(s[i])
  }

  function DigitValue(c: char): (v: nat)
    requires IsDigit(c)
    ensures v < 10
  {
    c as int - '0' as int
  }

  function DigitChar(v: nat): (c: char)
    requires v < 10
    ensures IsDigit(c) && DigitValue(c) == v
  {
    (v + '0' as int) as char
  }

  function NumberOf(s: string): nat
    requires AllDigits(s)
  {
    if s == [] then 0 else NumberOf(s[..|s| - 1]) * 10 + DigitValue(s[|s| - 1])
  }

  /** A decimal int and nothing else: an optional minus, at least one digit, in range. */
  function ParseInt(s: string): (r: Option<int>)
    ensures r.Some? ==> INT_MIN <= r.value <= INT_MAX
  {
    var negative := s != [] && s[0] == '-';
    var digits := if negative then s[1..] else s;
    if digits == [] || !AllDigits(digits) then None
    else
      var size: int := NumberOf(digits);
      var value := if negative then -size else size;
      if INT_MIN <= value <= INT_MAX then Some(value) else None
  }

  /** What follows the key of an answer line, without the blanks around it. */
  function StripKeyPrefix(line: string): string
  {
    var colon := Find(line, ':');
    if colon == |line| then line else Trim(line[colon + 1..])
  }

  /** A number printed in decimal. */
  function Decimal(n: nat): (s: string)
    ensures |s| > 0 && AllDigits(s)
  {
    if n < 10 then [DigitChar(n)] else Decimal(n / 10) + [DigitChar(n % 10)]
  }

  lemma {:induction false} NumberOfDecimal(n: nat)
    ensures NumberOf(Decimal(n)) == n
  {
    var s := Decimal(n);
    if n >= 10 {
      NumberOfDecimal(n / 10);
      assert s[..|s| - 1] == Decimal(n / 10);
    } else {
      assert s[..0] == [];
    }
  }

  /** A printed number is read back while an int can hold it, with a minus in front or without, and refused beyond. */
  lemma ParseUndoesDecimal(n: nat)
    ensures ParseInt(Decimal(n)) == if n <= 0x7FFF_FFFF then Some(n as int) else None
    ensures ParseInt("-" + Decimal(n)) == if n <= 0x8000_0000 then Some(-(n as int)) else None
  {
    hide NumberOf, Decimal;
    NumberOfDecimal(n);
    assert IsDigit(Decimal(n)[0]);
    assert ("-" + Decimal(n))[1..] == Decimal(n);
  }

  // ---------------------------------------------------------------------------
  // Hexadecimal
  // ---------------------------------------------------------------------------

  function HexChar(v: nat): (c: char)
    requires v < 16
    ensures HexDigit(c) == Some(v)
    ensures c != '\r' && c != '\n' && c != ' ' && c != '\t' && c != ';'
  {
    if v < 10 then (v + '0' as int) as char else (v - 10 + 'a' as int) as char
  }

  function HexDigit(c: char): (v: Option<nat>)
    ensures v.Some? ==> v.value < 16
  {
    if '0' <= c <= '9' then Some(c as int - '0' as int)
    else if 'a' <= c <= 'f' then Some(c as int - 'a' as int + 10)
    else if 'A' <= c <= 'F' then Some(c as int - 'A' as int + 10)
    else None
  }

  function HexOf(value: nat): (s: string)
    ensures |s| > 0
    ensures forall c :: c in s ==> HexDigit(c).Some? && c != '\r' && c != '\n' && c != ' ' && c != '\t' && c != ';'
  {
    if value < 16 then [HexChar(value)] else HexOf(value / 16) + [HexChar(value % 16)]
  }

  function Reversed(s: string): string
  {
    if s == [] then [] else Reversed(s[1..]) + [s[0]]
  }

  lemma {:induction false} ReversedSnoc(s: string, c: char)
    ensures Reversed(s + [c]) == [c] + Reversed(s)
  {
    if s != [] {
      assert (s + [c])[1..] == s[1..] + [c];
      ReversedSnoc(s[1..], c);
    } else {
      assert (s + [c])[1..] == [];
    }
  }

  method ToHexString(value: nat) returns (out: string)
    ensures out == HexOf(value)
  {
    if value == 0 {
      assert HexOf(0) == ['0'];
      return "0";
    }
    var digits: string := [];
    var left: nat := value;
    while left > 0
      invariant left > 0 ==> HexOf(left) + Reversed(digits) == HexOf(value)
      invariant left == 0 ==> Reversed(digits) == HexOf(value)
    {
      ReversedSnoc(digits, HexChar(left % 16));
      ghost var low := [HexChar(left % 16)];
      if left >= 16 {
        assert HexOf(left / 16) + (low + Reversed(digits)) == HexOf(left) + Reversed(digits);
      }
      digits := digits + [HexChar(left % 16)];
      left := left / 16;
    }
    out := Reversed(digits);
  }
}
