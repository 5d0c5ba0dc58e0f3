/** Numbers as text (Utilities.h) and back (HttpParser.h, toUnsignedInteger). */
module Utilities {
  import opened Bytes

  function DigitChar(d: nat): (b: Byte)
    requires d < 16
  {
    if d < 10 then '0' as int + d else 'a' as int + (d - 10)
  }

  /** A number in some base, most significant digit first. */
  function Text(value: nat, base: nat): (text: seq<Byte>)
    requires base == 10 || base == 16
    ensures text != []
  {
    (if value < base then [] else Text(value / base, base)) + [DigitChar(value % base)]
  }

  // ---------------------------------------------------------------- what a text says

  const LOWER_DIGITS := "0123456789abcdef"
  const UPPER_DIGITS := "0123456789ABCDEF"

  /** The character stands for the digit `d` in hex, in either case. */
  predicate IsHex(b: Byte, d: nat) {
    d < 16 && (b == LOWER_DIGITS[d] as int || b == UPPER_DIGITS[d] as int)
  }

  /** The text is the number in hex, perhaps with zeros in front. */
  predicate Spells(text: seq<Byte>, value: nat) {
    if text == [] then value == 0
    else IsHex(text[|text| - 1], value % 16) && Spells(text[..|text| - 1], value / 16)
  }

  /** A number in hex is spelled in lower case and without zeros in front. */
  lemma {:induction false} TextSpells(value: nat)
    ensures Spells(Text(value, 16), value)
    ensures forall b <- Text(value, 16) :: '0' as int <= b <= '9' as int || 'a' as int <= b <= 'f' as int
    ensures value > 0 ==> Text(value, 16)[0] != '0' as int
  {
    var text := Text(value, 16);
    var front := text[..|text| - 1];
    HexChar(value % 16);
    assert text[|text| - 1] == DigitChar(value % 16);
    if value >= 16 {
      TextSpells(value / 16);
      assert front == Text(value / 16, 16);
    } else {
      assert front == [];
    }
  }

  lemma HexChar(d: nat)
    requires d < 16
    ensures IsHex(DigitChar(d), d) && DigitChar(d) == LOWER_DIGITS[d] as int
    ensures '0' as int <= DigitChar(d) <= '9' as int || 'a' as int <= DigitChar(d) <= 'f' as int
    ensures d > 0 ==> DigitChar(d) != '0' as int
  {
  }

  function Reversed(s: seq<Byte>): (r: seq<Byte>)
    ensures |r| == |s|
  {
    if s == [] then [] else Reversed(s[1..]) + [s[0]]
  }

  lemma {:induction false} ReversedAppend(s: seq<Byte>, b: Byte)
    ensures Reversed(s + [b]) == [b] + Reversed(s)
  {
    if s == [] {
      assert (s + [b])[1..] == [];
    } else {
      ReversedAppend(s[1..], b);
      assert (s + [b])[1..] == s[1..] + [b];
    }
  }

  lemma TextParts(value: nat, base: nat)
    requires base == 10 || base == 16
    ensures value / base >= 0 && 0 <= value % base < base
    ensures Text(value, base) == (if value / base == 0 then [] else Text(value / base, base)) + [DigitChar(value % base)]
    ensures value > 0 ==> value / base < value
  {
    if base == 10 {
      assert value / 10 == 0 <==> value < 10;
    } else {
      assert value / 16 == 0 <==> value < 16;
    }
  }

  /** Digits are produced from the last one on and then turned round. */
  method Print(value: nat, base: nat) returns (dst: seq<Byte>)
    requires base == 10 || base == 16
    ensures dst == Text(value, base)
  {
    hide Text, DigitChar, Reversed;
    TextParts(value, base);
    var temp: seq<Byte>, v: nat := [DigitChar(value % base)], value / base;
    ReversedAppend([], DigitChar(value % base));
    ReversedNothing();
    assert [] + temp == temp && temp + Reversed([]) == temp;
    while v > 0
      invariant Text(value, base) == (if v == 0 then [] else Text(v, base)) + Reversed(temp)
    {
      TextParts(v, base);
      ReversedAppend(temp, DigitChar(v % base));
      temp := temp + [DigitChar(v % base)];
      v := v / base;
    }
    dst := TurnRound(temp);
    assert [] + Reversed(temp) == Reversed(temp);
  }

  lemma ReversedNothing()
    ensures Reversed([]) == []
  {
  }

  method TurnRound(temp: seq<Byte>) returns (dst: seq<Byte>)
    ensures dst == Reversed(temp)
  {
    dst := [];
    var p: nat := |temp|;
    assert temp[..p] == temp;
    while p > 0
      invariant p <= |temp| && dst + Reversed(temp[..p]) == Reversed(temp)
    {
      p := p - 1;
      assert temp[..p + 1] == temp[..p] + [temp[p]];
      ReversedAppend(temp[..p], temp[p]);
      dst := dst + [temp[p]];
    }
    assert temp[..0] == [];
  }

  /** At most 32 bits in hex. */
  method U32ToHex(value: nat) returns (dst: seq<Byte>)
    requires value < 0x1_0000_0000
    ensures dst == Text(value, 16)
  {
    dst := Print(value, 16);
  }

  method U64ToA(value: nat) returns (dst: seq<Byte>)
    requires value < 0x1_0000_0000_0000_0000
    ensures dst == Text(value, 10)
  {
    dst := Print(value, 10);
  }

  // ---------------------------------------------------------------- and back

  const UINT64_MAX := 0xFFFF_FFFF_FFFF_FFFF

  predicate IsDecimal(str: seq<Byte>) {
    forall i :: 0 <= i < |str| ==> '0' as int <= str[i] <= '9' as int
  }

  /** The number a decimal text stands for. */
  function Decimal(str: seq<Byte>): (value: nat)
    requires IsDecimal(str)
  {
    if str == [] then 0 else Decimal(str[..|str| - 1]) * 10 + (str[|str| - 1] - '0' as int)
  }

  lemma {:induction false} DecimalBound(str: seq<Byte>)
    requires IsDecimal(str) && |str| <= 18
    ensures Decimal(str) < Pow10(|str|)
  {
    if str != [] {
      DecimalBound(str[..|str| - 1]);
    }
  }

  function Pow10(n: nat): (p: nat)
    ensures p > 0
  {
    if n == 0 then 1 else 10 * Pow10(n - 1)
  }

  lemma {:induction false} Pow10Grows(m: nat, n: nat)
    requires m <= n
    ensures Pow10(m) <= Pow10(n)
  {
    if m < n {
      Pow10Grows(m, n - 1);
    }
  }

  /** Numbers of up to 18 digits, which never overflow 64 bits; all else is an error. */
  method ToUnsignedInteger(str: seq<Byte>) returns (value: nat)
    ensures value == if |str| <= 18 && IsDecimal(str) then Decimal(str) else 0xFFFF_FFFF_FFFF_FFFF
    ensures |str| <= 18 && IsDecimal(str) ==> value < Pow10(18) < UINT64_MAX
  {
    if |str| > 18 {
      return UINT64_MAX;
    }
    value := 0;
    var i := 0;
    while i < |str|
      invariant i <= |str| && IsDecimal(str[..i]) && value == Decimal(str[..i])
    {
      if str[i] < '0' as int || str[i] > '9' as int {
        return UINT64_MAX;
      }
      assert str[..i + 1][..i] == str[..i];
      value := value * 10 + (str[i] - '0' as int);
      i := i + 1;
    }
    assert str[..i] == str;
    DecimalBound(str);
    Pow10Grows(|str|, 18);
    assert Pow10(18) == 1_000_000_000_000_000_000 by { assert Pow10(9) == 1_000_000_000; }
  }

  lemma {:induction false} DecimalText(value: nat)
    ensures IsDecimal(Text(value, 10)) && Decimal(Text(value, 10)) == value
  {
    var text := Text(value, 10);
    assert text[|text| - 1] == DigitChar(value % 10);
    if value < 10 {
      assert text[..|text| - 1] == [];
    } else {
      DecimalText(value / 10);
      assert text[..|text| - 1] == Text(value / 10, 10);
    }
  }

  lemma {:induction false} TextLength(value: nat, digits: nat)
    requires value < Pow10(digits) && digits > 0
    ensures |Text(value, 10)| <= digits
  {
    if value >= 10 {
      TextLength(value / 10, digits - 1);
    }
  }

  /** Reading back what was printed, for numbers of up to 18 digits. */
  method PrintedIsRead(value: nat) returns (again: nat)
    requires value < Pow10(18)
    ensures again == value
  {
    assert Pow10(18) < UINT64_MAX by { assert Pow10(9) == 1_000_000_000; }
    var text := U64ToA(value);
    DecimalText(value);
    TextLength(value, 18);
    again := ToUnsignedInteger(text);
  }
}
