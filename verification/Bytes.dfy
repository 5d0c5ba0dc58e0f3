/** Bytes as numbers, and the exclusive or of two bytes written bit by bit. */
module Bytes {

  type Byte = b: int | 0 <= b < 256 witness 0

  function Pow2(n: nat): (r: nat)
    ensures r > 0
  {
    if n == 0 then 1 else 2 * Pow2(n - 1)
  }

  /** The exclusive or of the `n` lowest bits: each bit of the result is the sum modulo 2. */
  function XorBits(a: nat, b: nat, n: nat): (r: nat)
    ensures r < Pow2(n)
  {
    if n == 0 then 0 else (a + b) % 2 + 2 * XorBits(a / 2, b / 2, n - 1)
  }

  function Xor(a: Byte, b: Byte): Byte {
    assert Pow2(8) == 256;
    XorBits(a, b, 8)
  }

  lemma {:induction false} XorBitsCancel(a: nat, b: nat, n: nat)
    requires a < Pow2(n)
    ensures XorBits(XorBits(a, b, n), b, n) == a
  {
    if n > 0 {
      XorBitsCancel(a / 2, b / 2, n - 1);
      var low, high := (a + b) % 2, XorBits(a / 2, b / 2, n - 1);
      assert (low + 2 * high) / 2 == high;
      LowBit(a, b, high);
    }
  }

  lemma LowBit(a: nat, b: nat, high: nat)
    ensures ((a + b) % 2 + 2 * high + b) % 2 == a % 2
  {
    assert ((a + b) % 2 + 2 * high + b) % 2 == (a + b + b) % 2;
  }

  lemma XorCancel(a: Byte, b: Byte)
    ensures Xor(Xor(a, b), b) == a
  {
    assert Pow2(8) == 256;
    XorBitsCancel(a, b, 8);
  }

  lemma Quotient(x: nat, d: nat, q: nat, r: nat)
    requires d > 0 && x == d * q + r && r < d
    ensures x / d == q
  {
    if x / d < q {
      Multiples(d, x / d, q);
    } else if q < x / d {
      Multiples(d, q, x / d);
    }
  }

  lemma {:induction false} Multiples(d: nat, a: nat, b: nat)
    requires a < b
    ensures d * a + d <= d * b
    decreases b
  {
    assert d * b == d * (b - 1) + d;
    if a < b - 1 {
      Multiples(d, a, b - 1);
    }
  }

  lemma HalfFirst(x: nat, d: nat)
    requires d > 0
    ensures x / (2 * d) == x / 2 / d
  {
    var h := x / 2;
    assert x == (2 * d) * (h / d) + (2 * (h % d) + x % 2);
    Quotient(x, 2 * d, h / d, 2 * (h % d) + x % 2);
  }

  lemma Parity(x: nat, y: nat)
    ensures (x + y) % 2 == 1 <==> x % 2 != y % 2
  {
  }

  lemma HalfOfXor(a: nat, b: nat, n: nat)
    requires n > 0
    ensures XorBits(a, b, n) / 2 == XorBits(a / 2, b / 2, n - 1) && XorBits(a, b, n) % 2 == (a + b) % 2
  {
  }

  lemma {:induction false} XorBitsAt(a: nat, b: nat, n: nat, k: nat)
    requires k < n
    ensures XorBits(a, b, n) / Pow2(k) % 2 == 1 <==> a / Pow2(k) % 2 != b / Pow2(k) % 2
  {
    hide XorBits;
    HalfOfXor(a, b, n);
    if k == 0 {
      assert Pow2(0) == 1;
      Parity(a, b);
    } else {
      var d := Pow2(k - 1);
      assert Pow2(k) == 2 * d;
      hide Pow2;
      XorBitsAt(a / 2, b / 2, n - 1, k - 1);
      HalfFirst(XorBits(a, b, n), d);
      HalfFirst(a, d);
      HalfFirst(b, d);
    }
  }

  /** Exclusive or: a bit of the result is set exactly if the two bits differ. */
  lemma XorExact(a: Byte, b: Byte)
    ensures Xor(a, b) % 2 == 1 <==> a % 2 != b % 2
    ensures Xor(a, b) / 2 % 2 == 1 <==> a / 2 % 2 != b / 2 % 2
    ensures Xor(a, b) / 4 % 2 == 1 <==> a / 4 % 2 != b / 4 % 2
    ensures Xor(a, b) / 8 % 2 == 1 <==> a / 8 % 2 != b / 8 % 2
    ensures Xor(a, b) / 16 % 2 == 1 <==> a / 16 % 2 != b / 16 % 2
    ensures Xor(a, b) / 32 % 2 == 1 <==> a / 32 % 2 != b / 32 % 2
    ensures Xor(a, b) / 64 % 2 == 1 <==> a / 64 % 2 != b / 64 % 2
    ensures Xor(a, b) / 128 % 2 == 1 <==> a / 128 % 2 != b / 128 % 2
  {
    hide XorBits;
    assert Pow2(0) == 1 && Pow2(1) == 2 && Pow2(2) == 4 && Pow2(3) == 8;
    assert Pow2(4) == 16 && Pow2(5) == 32 && Pow2(6) == 64 && Pow2(7) == 128;
    forall k | 0 <= k < 8 ensures Xor(a, b) / Pow2(k) % 2 == 1 <==> a / Pow2(k) % 2 != b / Pow2(k) % 2 {
      XorBitsAt(a, b, 8, k);
    }
    hide Pow2, Xor;
    assert Xor(a, b) / Pow2(0) % 2 == 1 <==> a / Pow2(0) % 2 != b / Pow2(0) % 2;
    assert Xor(a, b) / Pow2(1) % 2 == 1 <==> a / Pow2(1) % 2 != b / Pow2(1) % 2;
    assert Xor(a, b) / Pow2(2) % 2 == 1 <==> a / Pow2(2) % 2 != b / Pow2(2) % 2;
    assert Xor(a, b) / Pow2(3) % 2 == 1 <==> a / Pow2(3) % 2 != b / Pow2(3) % 2;
    assert Xor(a, b) / Pow2(4) % 2 == 1 <==> a / Pow2(4) % 2 != b / Pow2(4) % 2;
    assert Xor(a, b) / Pow2(5) % 2 == 1 <==> a / Pow2(5) % 2 != b / Pow2(5) % 2;
    assert Xor(a, b) / Pow2(6) % 2 == 1 <==> a / Pow2(6) % 2 != b / Pow2(6) % 2;
    assert Xor(a, b) / Pow2(7) % 2 == 1 <==> a / Pow2(7) % 2 != b / Pow2(7) % 2;
  }

  lemma {:induction false} XorBitsZero(a: nat, n: nat)
    requires a < Pow2(n)
    ensures XorBits(a, 0, n) == a
  {
    if n > 0 {
      XorBitsZero(a / 2, n - 1);
    }
  }

  lemma XorZero(a: Byte)
    ensures Xor(a, 0) == a
  {
    assert Pow2(8) == 256;
    XorBitsZero(a, 8);
  }

  /** The number a big-endian byte string stands for. */
  function BigEndian(s: seq<Byte>): nat {
    if s == [] then 0 else BigEndian(s[..|s| - 1]) * 256 + s[|s| - 1]
  }

  function Pow256(n: nat): (r: nat)
    ensures r > 0
  {
    if n == 0 then 1 else 256 * Pow256(n - 1)
  }

  /** The `n` lowest bytes of `v`, most significant first. */
  function ToBigEndian(v: nat, n: nat): (s: seq<Byte>)
    ensures |s| == n
  {
    if n == 0 then [] else ToBigEndian(v / 256, n - 1) + [v % 256]
  }

  /** Two and eight bytes, the most significant first, as numbers. */
  lemma BigEndianValue(s: seq<Byte>)
    ensures |s| == 2 ==> BigEndian(s) == (s[0] as int) * 256 + s[1]
    ensures |s| == 8 ==>
              BigEndian(s) == (s[0] as int) * 0x100_0000_0000_0000 + (s[1] as int) * 0x1_0000_0000_0000
                              + (s[2] as int) * 0x100_0000_0000 + (s[3] as int) * 0x1_0000_0000
                              + (s[4] as int) * 0x100_0000 + (s[5] as int) * 0x1_0000 + (s[6] as int) * 0x100 + s[7]
  {
    hide BigEndian;
    assert s[..|s|] == s;
    if |s| == 2 {
      BigEndianPrefix(s, 0);
      BigEndianPrefix(s, 1);
      BigEndianPrefix(s, 2);
    } else if |s| == 8 {
      FourBytes(s);
      BigEndianPrefix(s, 5);
      BigEndianPrefix(s, 6);
      BigEndianPrefix(s, 7);
      BigEndianPrefix(s, 8);
    }
  }

  lemma FourBytes(s: seq<Byte>)
    requires |s| >= 4
    ensures BigEndian(s[..4]) == (s[0] as int) * 0x100_0000 + (s[1] as int) * 0x1_0000 + (s[2] as int) * 0x100 + s[3]
  {
    hide BigEndian;
    BigEndianPrefix(s, 0);
    BigEndianPrefix(s, 1);
    BigEndianPrefix(s, 2);
    BigEndianPrefix(s, 3);
    BigEndianPrefix(s, 4);
  }

  lemma BigEndianPrefix(s: seq<Byte>, n: nat)
    requires n <= |s|
    ensures BigEndian(s[..n]) == if n == 0 then 0 else BigEndian(s[..n - 1]) * 256 + s[n - 1]
  {
    if n > 0 {
      assert s[..n][..n - 1] == s[..n - 1];
    }
  }

  lemma {:induction false} BigEndianRoundTrip(v: nat, n: nat)
    requires v < Pow256(n)
    ensures BigEndian(ToBigEndian(v, n)) == v
  {
    if n > 0 {
      BigEndianRoundTrip(v / 256, n - 1);
      assert ToBigEndian(v, n)[..n - 1] == ToBigEndian(v / 256, n - 1);
    }
  }
}
