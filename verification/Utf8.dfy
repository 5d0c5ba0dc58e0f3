/** UTF-8 validation (WebSocketProtocol.h, isValidUtf8) against RFC 3629. */
module Utf8 {
  import opened Bytes

  /** A Unicode scalar value: any code point that is not a surrogate. */
  type Scalar = c: int | 0 <= c < 0xD800 || 0xE000 <= c <= 0x10FFFF witness 0

  /** RFC 3629 section 3: the shortest encoding of one scalar value. */
  function EncodeScalar(c: Scalar): (s: seq<Byte>)
    ensures 1 <= |s| <= 4
  {
    if c < 0x80 then [c]
    else if c < 0x800 then [0xC0 + c / 64, 0x80 + c % 64]
    else if c < 0x10000 then [0xE0 + c / 4096, 0x80 + c / 64 % 64, 0x80 + c % 64]
    else [0xF0 + c / 262144, 0x80 + c / 4096 % 64, 0x80 + c / 64 % 64, 0x80 + c % 64]
  }

  function Encode(cs: seq<Scalar>): seq<Byte> {
    if cs == [] then [] else EncodeScalar(cs[0]) + Encode(cs[1..])
  }

  predicate Tail(b: Byte) { 0x80 <= b <= 0xBF }

  /** RFC 3629 section 4: how many bytes the well-formed character at the head of `s` takes, or 0. */
  function CharLength(s: seq<Byte>): (n: nat)
    ensures n <= |s| && n <= 4
  {
    if |s| >= 1 && s[0] <= 0x7F then 1
    else if |s| >= 2 && 0xC2 <= s[0] <= 0xDF && Tail(s[1]) then 2
    else if |s| >= 3 && Tail(s[2]) &&
            ((s[0] == 0xE0 && 0xA0 <= s[1] <= 0xBF)
             || (0xE1 <= s[0] <= 0xEC && Tail(s[1]))
             || (s[0] == 0xED && 0x80 <= s[1] <= 0x9F)
             || (0xEE <= s[0] <= 0xEF && Tail(s[1]))) then 3
    else if |s| >= 4 && Tail(s[2]) && Tail(s[3]) &&
            ((s[0] == 0xF0 && 0x90 <= s[1] <= 0xBF)
             || (0xF1 <= s[0] <= 0xF3 && Tail(s[1]))
             || (s[0] == 0xF4 && 0x80 <= s[1] <= 0x8F)) then 4
    else 0
  }

  predicate ValidUtf8(s: seq<Byte>) {
    s == [] || (CharLength(s) > 0 && ValidUtf8(s[CharLength(s)..]))
  }

  /** The scalar value of the character at the head of `s`. */
  function DecodeScalar(s: seq<Byte>): (c: Scalar)
    requires CharLength(s) > 0
  {
    var n := CharLength(s);
    var lead: int := s[0];
    if n == 1 then lead
    else
      var second: int := s[1];
      if n == 2 then (lead - 0xC0) * 64 + (second - 0x80)
      else
        var third: int := s[2];
        if n == 3 then (lead - 0xE0) * 4096 + (second - 0x80) * 64 + (third - 0x80)
        else
          var fourth: int := s[3];
          (lead - 0xF0) * 262144 + (second - 0x80) * 4096 + (third - 0x80) * 64 + (fourth - 0x80)
  }

  /** Splitting a number into base-64 digits undoes putting them together. */
  lemma Base64Digits(hi: nat, d: nat)
    requires d < 64
    ensures (hi * 64 + d) / 64 == hi && (hi * 64 + d) % 64 == d
  {}

  lemma ThreeDigits(a: nat, b: nat, d: nat)
    requires b < 64 && d < 64
    ensures var c := a * 4096 + b * 64 + d; c / 4096 == a && c / 64 % 64 == b && c % 64 == d
  {
    Base64Digits(a * 64 + b, d);
    Base64Digits(a, b);
  }

  lemma FourDigits(a: nat, b: nat, d: nat, e: nat)
    requires b < 64 && d < 64 && e < 64
    ensures var c := a * 262144 + b * 4096 + d * 64 + e;
            c / 262144 == a && c / 4096 % 64 == b && c / 64 % 64 == d && c % 64 == e
  {
    ThreeDigits(a * 64 + b, d, e);
    Base64Digits(a, b);
  }

  lemma DecodedThreeBytes(s: seq<Byte>)
    requires CharLength(s) == 3
    ensures EncodeScalar(DecodeScalar(s)) == s[..3]
  {
    ThreeDigits(s[0] - 0xE0, s[1] - 0x80, s[2] - 0x80);
  }

  lemma DecodedFourBytes(s: seq<Byte>)
    requires CharLength(s) == 4
    ensures EncodeScalar(DecodeScalar(s)) == s[..4]
  {
    FourDigits(s[0] - 0xF0, s[1] - 0x80, s[2] - 0x80, s[3] - 0x80);
  }

  lemma {:induction false} DecodedScalarEncodes(s: seq<Byte>)
    requires CharLength(s) > 0
    ensures EncodeScalar(DecodeScalar(s)) == s[..CharLength(s)]
  {
    var n := CharLength(s);
    if n == 2 {
      Base64Digits(s[0] - 0xC0, s[1] - 0x80);
    } else if n == 3 {
      DecodedThreeBytes(s);
    } else if n == 4 {
      DecodedFourBytes(s);
    }
  }

  lemma EncodedCharLength(c: Scalar, rest: seq<Byte>)
    ensures CharLength(EncodeScalar(c) + rest) == |EncodeScalar(c)|
  {
    var s := EncodeScalar(c) + rest;
    assert forall i :: 0 <= i < |EncodeScalar(c)| ==> s[i] == EncodeScalar(c)[i];
  }

  lemma {:induction false} EncodeIsValid(cs: seq<Scalar>)
    ensures ValidUtf8(Encode(cs))
  {
    if cs != [] {
      EncodeIsValid(cs[1..]);
      EncodedCharLength(cs[0], Encode(cs[1..]));
      assert Encode(cs)[|EncodeScalar(cs[0])|..] == Encode(cs[1..]);
    }
  }

  lemma {:induction false} ValidIsEncoded(s: seq<Byte>) returns (cs: seq<Scalar>)
    requires ValidUtf8(s)
    ensures Encode(cs) == s
  {
    if s == [] {
      cs := [];
    } else {
      var n := CharLength(s);
      var rest := ValidIsEncoded(s[n..]);
      DecodedScalarEncodes(s);
      cs := [DecodeScalar(s)] + rest;
      assert cs[1..] == rest;
      assert s == s[..n] + s[n..];
    }
  }

  /** The recogniser accepts exactly the encodings of sequences of scalar values. */
  lemma ValidUtf8Exact(s: seq<Byte>)
    ensures ValidUtf8(s) <==> exists cs: seq<Scalar> :: Encode(cs) == s
  {
    if ValidUtf8(s) {
      var cs := ValidIsEncoded(s);
    }
    forall cs: seq<Scalar> | Encode(cs) == s ensures ValidUtf8(s) {
      EncodeIsValid(cs);
    }
  }

  lemma {:induction false} SkipAscii(s: seq<Byte>, n: nat)
    requires n <= |s|
    requires forall k :: 0 <= k < n ==> s[k] < 0x80
    ensures ValidUtf8(s) == ValidUtf8(s[n..])
  {
    if n == 0 {
      assert s[0..] == s;
    } else {
      SkipAscii(s[1..], n - 1);
      assert s[1..][n - 1..] == s[n..];
    }
  }

  /** The three multi-byte branches of the scan: the length of the character at `i`, or 0 to refuse it. */
  method MultibyteLength(s: seq<Byte>, i: nat) returns (n: nat)
    requires i < |s| && s[i] >= 0x80
    ensures n == CharLength(s[i..])
  {
    var e := |s|;
    if s[i] / 32 == 6 {
      if i + 1 >= e || s[i + 1] / 64 != 2 || s[i] / 2 == 0x60 {
        return 0;
      }
      return 2;
    } else if s[i] / 16 == 14 {
      if i + 2 >= e || s[i + 1] / 64 != 2 || s[i + 2] / 64 != 2
         || (s[i] == 0xE0 && s[i + 1] / 32 == 4) || (s[i] == 0xED && s[i + 1] / 32 == 5) {
        return 0;
      }
      return 3;
    } else if s[i] / 8 == 30 {
      if i + 3 >= e || s[i + 1] / 64 != 2 || s[i + 2] / 64 != 2 || s[i + 3] / 64 != 2
         || (s[i] == 0xF0 && s[i + 1] / 16 == 8) || (s[i] == 0xF4 && s[i + 1] > 0x8F) || s[i] > 0xF4 {
        return 0;
      }
      return 4;
    }
    return 0;
  }

  lemma SkipCharacter(s: seq<Byte>, i: nat)
    requires i < |s|
    ensures var n := CharLength(s[i..]);
            ValidUtf8(s[i..]) == (n > 0 && ValidUtf8(s[i + n..]))
  {
    var n := CharLength(s[i..]);
    assert s[i..][n..] == s[i + n..];
  }

  /** The byte-wise ASCII scan: stops at the first byte of 0x80 or more, or at the end. */
  method SkipAsciiRun(s: seq<Byte>, start: nat) returns (i: nat)
    requires start <= |s|
    ensures start <= i <= |s| && (i < |s| ==> s[i] >= 0x80)
    ensures ValidUtf8(s[start..]) == ValidUtf8(s[i..])
  {
    i := start;
    while i < |s| && s[i] / 128 == 0
      invariant start <= i <= |s|
      invariant forall k :: start <= k < i ==> s[k] < 0x80
    {
      i := i + 1;
    }
    SkipAscii(s[start..], i - start);
    assert s[start..][i - start..] == s[i..];
  }

  /** Skips 16 bytes at a time while the top bit of every one of them is clear. */
  method IsValidUtf8(s: seq<Byte>) returns (valid: bool)
    ensures valid == ValidUtf8(s)
  {
    hide CharLength;
    var i := 0;
    while i != |s|
      invariant i <= |s|
      invariant ValidUtf8(s) == ValidUtf8(s[i..])
      decreases |s| - i
    {
      if i + 16 <= |s| && forall k :: i <= k < i + 16 ==> s[k] / 128 == 0 {
        SkipAscii(s[i..], 16);
        assert s[i..][16..] == s[i + 16..];
        i := i + 16;
        continue;
      }
      i := SkipAsciiRun(s, i);
      if i == |s| {
        return true;
      }
      var n := MultibyteLength(s, i);
      SkipCharacter(s, i);
      if n == 0 {
        return false;
      }
      i := i + n;
    }
    return true;
  }
}
