/** Scanning a header field's value eight bytes at a time (HttpParser.h). Words are little-endian; a word is
    written as its bytes, and subtracting from it as a subtraction with borrows. */
module FieldValue {
  import opened Bytes

  const LIMIT: Byte := 32

  /** The number a little-endian word stands for. */
  function Word(s: seq<Byte>): (w: nat) {
    if s == [] then 0 else s[0] + 256 * Word(s[1..])
  }

  /** The bytes of the difference of a word and the word with 32 in each byte, wrapping around at the end. */
  function Less32(s: seq<Byte>, borrow: bool): (difference: seq<Byte>)
    ensures |difference| == |s|
  {
    if s == [] then []
    else
      var d := s[0] - LIMIT - if borrow then 1 else 0;
      [d % 256] + Less32(s[1..], d < 0)
  }

  /** 32 in each of `n` bytes. */
  function Each32(n: nat): (s: seq<Byte>)
    ensures |s| == n
  {
    if n == 0 then [] else [LIMIT] + Each32(n - 1)
  }

  lemma Pow256Next(n: nat)
    requires n > 0
    ensures Pow256(n) == 256 * Pow256(n - 1)
  {
  }

  /** Borrowing byte by byte is subtracting words. */
  lemma {:induction false} SubtractWord(s: seq<Byte>, borrow: bool) returns (out: bool)
    ensures Word(Less32(s, borrow)) == Word(s) - Word(Each32(|s|)) - (if borrow then 1 else 0) + if out then Pow256(|s|) else 0
  {
    if s == [] {
      out := borrow;
    } else {
      var d := s[0] - LIMIT - if borrow then 1 else 0;
      out := SubtractWord(s[1..], d < 0);
      hide Pow256;
      assert Pow256(|s|) == 256 * Pow256(|s| - 1) by { Pow256Next(|s|); }
      assert Less32(s, borrow)[1..] == Less32(s[1..], d < 0) && Each32(|s|)[1..] == Each32(|s| - 1);
      assert d % 256 == if d < 0 then d + 256 else d;
    }
  }

  /** hasLess for 32: some byte of the difference has its highest bit set where the word has not. */
  predicate HasLess(s: seq<Byte>) {
    var difference := Less32(s, false);
    exists i :: 0 <= i < |s| && difference[i] >= 128 && s[i] < 128
  }

  /** Although a borrow can make the next byte look smaller, the test is exact for the word. */
  lemma {:induction false} HasLessExact(s: seq<Byte>)
    ensures HasLess(s) <==> exists i :: 0 <= i < |s| && s[i] < 32
  {
    var difference := Less32(s, false);
    if s != [] {
      if s[0] < LIMIT {
        assert difference[0] >= 128;
      } else {
        HasLessExact(s[1..]);
        assert difference == [s[0] - LIMIT] + Less32(s[1..], false);
        if HasLess(s[1..]) {
          var i :| 0 <= i < |s[1..]| && Less32(s[1..], false)[i] >= 128 && s[1..][i] < 128;
          assert difference[i + 1] >= 128 && s[i + 1] < 128;
        }
        if HasLess(s) {
          var i :| 0 <= i < |s| && difference[i] >= 128 && s[i] < 128;
          assert i > 0 && Less32(s[1..], false)[i - 1] >= 128 && s[1..][i - 1] < 128;
        }
        assert forall i :: 0 <= i < |s[1..]| ==> s[1..][i] == s[i + 1];
      }
    }
  }

  /** Stops at the first byte under 32, which there must be (the caller fences its buffer), and reads no more than
      seven bytes beyond it. */
  method TryConsumeFieldValue(data: seq<Byte>, start: nat, ghost fence: nat) returns (p: nat)
    requires start <= fence && fence + 7 < |data| && data[fence] < LIMIT
    ensures start <= p <= fence && data[p] < 32 && forall i :: start <= i < p ==> data[i] >= 32
  {
    hide HasLess;
    p := start;
    while true
      invariant start <= p <= fence && forall i :: start <= i < p ==> data[i] >= LIMIT
      decreases fence - p
    {
      var s := data[p..p + 8];
      HasLessExact(s);
      if HasLess(s) {
        p := FirstLess(data, p, fence);
        return;
      }
      forall i | p <= i < p + 8 ensures data[i] >= LIMIT {
        assert data[i] == s[i - p];
      }
      p := p + 8;
    }
  }

  method FirstLess(data: seq<Byte>, start: nat, ghost fence: nat) returns (p: nat)
    requires start <= fence < |data| && data[fence] < LIMIT
    ensures start <= p <= fence && data[p] < 32 && forall i :: start <= i < p ==> data[i] >= 32
  {
    p := start;
    while data[p] > 31
      invariant start <= p <= fence && forall i :: start <= i < p ==> data[i] >= LIMIT
      decreases fence - p
    {
      p := p + 1;
    }
  }
}
