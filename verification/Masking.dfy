/** In-place unmasking of frame payloads in the receive buffer (WebSocketProtocol.h, the unmask family). */
module Masking {
  import opened Bytes
  import opened FrameMachine

  /** Loads a word as long as the mask and stores it unmasked at another place. */
  method StoreWord(buf: array<Byte>, from: nat, to: nat, mask: seq<Byte>)
    requires to <= from && from + |mask| <= buf.Length
    modifies buf
    ensures forall j :: 0 <= j < |mask| ==> buf[to + j] == Xor(old(buf[from + j]), mask[j])
    ensures forall j :: 0 <= j < buf.Length && !(to <= j < to + |mask|) ==> buf[j] == old(buf[j])
  {
    var loaded := buf[from..from + |mask|];
    forall j | 0 <= j < |mask| {
      buf[to + j] := Xor(loaded[j], mask[j]);
    }
  }

  /** Words of eight bytes, each stored `destination` bytes to the left of where it was loaded. The
      loop runs over by up to eight bytes. */
  method UnmaskImprecise8(buf: array<Byte>, start: nat, destination: nat, mask: seq<Byte>, length: nat)
    requires |mask| == 8
    requires destination <= start && start + length / 8 * 8 + 8 <= buf.Length
    modifies buf
    ensures forall i :: 0 <= i < length / 8 * 8 + 8 ==>
              buf[start - destination + i] == Xor(old(buf[start + i]), mask[i % 8])
    ensures forall j :: 0 <= j < buf.Length && !(start - destination <= j < start - destination + length / 8 * 8 + 8)
              ==> buf[j] == old(buf[j])
  {
    var n, src: nat := length / 8 + 1, start;
    while n > 0
      invariant src - start == (length / 8 + 1 - n) * 8
      invariant 0 <= n <= length / 8 + 1
      invariant forall i :: 0 <= i < src - start ==>
                  buf[start - destination + i] == Xor(old(buf[start + i]), mask[i % 8])
      invariant forall j :: 0 <= j < buf.Length && !(start - destination <= j < src - destination)
                  ==> buf[j] == old(buf[j])
    {
      StoreWord(buf, src, src - destination, mask);
      forall i | src - start <= i < src - start + 8
        ensures buf[start - destination + i] == Xor(old(buf[start + i]), mask[i % 8])
      {
        assert i % 8 == i - (src - start);
      }
      src := src + 8;
      n := n - 1;
    }
  }

  /** The same in words of four bytes. */
  method UnmaskImprecise4(buf: array<Byte>, start: nat, destination: nat, mask: seq<Byte>, length: nat)
    requires |mask| == 4
    requires destination <= start && start + length / 4 * 4 + 4 <= buf.Length
    modifies buf
    ensures forall i :: 0 <= i < length / 4 * 4 + 4 ==>
              buf[start - destination + i] == Xor(old(buf[start + i]), mask[i % 4])
    ensures forall j :: 0 <= j < buf.Length && !(start - destination <= j < start - destination + length / 4 * 4 + 4)
              ==> buf[j] == old(buf[j])
  {
    var n, src := length / 4 + 1, start;
    while n > 0
      invariant src - start == (length / 4 + 1 - n) * 4
      invariant 0 <= n <= length / 4 + 1
      invariant forall i :: 0 <= i < src - start ==>
                  buf[start - destination + i] == Xor(old(buf[start + i]), mask[i % 4])
      invariant forall j :: 0 <= j < buf.Length && !(start - destination <= j < src - destination)
                  ==> buf[j] == old(buf[j])
    {
      StoreWord(buf, src, src - destination, mask);
      forall i | src - start <= i < src - start + 4
        ensures buf[start - destination + i] == Xor(old(buf[start + i]), mask[i % 4])
      {
        assert i % 4 == i - (src - start);
      }
      src := src + 4;
      n := n - 1;
    }
  }

  /** Unmasks a whole frame onto its own head: the payload ends up `header` bytes to the left. Although
      both loops run over, no byte from the end of the frame on is changed. */
  method UnmaskImpreciseCopyMask(buf: array<Byte>, src: nat, header: nat, length: nat)
    requires header == 6 || header == 8 || header == 14
    requires header <= src && src + length + 8 <= buf.Length
    modifies buf
    ensures buf[src - header..src - header + length]
            == Unmask(old(buf[src..src + length]), old(buf[src - 4..src]))
    ensures forall j :: 0 <= j < buf.Length && !(src - header <= j < src + length) ==> buf[j] == old(buf[j])
  {
    var m := buf[src - 4..src];
    if header != 6 {
      assert forall i :: 0 <= i < length ==> (m + m)[i % 8] == m[i % 4];
      UnmaskImprecise8(buf, src, header, m + m, length);
    } else {
      UnmaskImprecise4(buf, src, header, m, length);
    }
    assert forall i :: 0 <= i < length ==>
        buf[src - header + i] == Xor(old(buf[src + i]), m[i % 4]);
  }

  /** Unmasks the first `part` bytes of a payload where they lie. The loop is told the larger `length`,
      which counts the head as well, and runs that far over. */
  method UnmaskPart(buf: array<Byte>, start: nat, part: nat, length: nat, mask: seq<Byte>)
    requires |mask| == 4 && part <= length && start + length + 8 <= buf.Length
    modifies buf
    ensures buf[start..start + part] == Unmask(old(buf[start..start + part]), mask)
    ensures forall j :: 0 <= j < start ==> buf[j] == old(buf[j])
  {
    assert forall i :: 0 <= i < part ==> (mask + mask)[i % 8] == mask[i % 4];
    UnmaskImprecise8(buf, start, 0, mask + mask, length);
  }

  /** Unmasks one group of `width` bytes where they lie. */
  method UnrolledXor(buf: array<Byte>, at: nat, width: nat, mask: seq<Byte>)
    requires |mask| == 4 && at + width <= buf.Length
    modifies buf
    ensures forall j :: at <= j < at + width ==> buf[j] == Xor(old(buf[j]), mask[(j - at) % 4])
    ensures forall j :: 0 <= j < buf.Length && !(at <= j < at + width) ==> buf[j] == old(buf[j])
  {
    forall j | at <= j < at + width {
      buf[j] := Xor(buf[j], mask[(j - at) % 4]);
    }
  }

  /** Unmasks where the bytes lie, in groups of four, running over by up to three bytes. */
  method UnmaskInplace(buf: array<Byte>, start: nat, stop: nat, mask: seq<Byte>)
    requires |mask| == 4 && start <= stop && start + (stop - start + 3) / 4 * 4 <= buf.Length
    modifies buf
    ensures forall j :: start <= j < stop ==> buf[j] == Xor(old(buf[j]), mask[(j - start) % 4])
    ensures forall j :: 0 <= j < buf.Length && !(start <= j < start + (stop - start + 3) / 4 * 4) ==> buf[j] == old(buf[j])
  {
    var data := start;
    while data < stop
      invariant (data - start) % 4 == 0
      invariant start <= data <= start + (stop - start + 3) / 4 * 4
      invariant forall j :: start <= j < data ==> buf[j] == Xor(old(buf[j]), mask[(j - start) % 4])
      invariant forall j :: 0 <= j < buf.Length && !(start <= j < data) ==> buf[j] == old(buf[j])
    {
      UnrolledXor(buf, data, 4, mask);
      data := data + 4;
    }
  }

  /** The fast path for a completely filled receive buffer, whose size is a multiple of sixteen. */
  method UnmaskAll(buf: array<Byte>, start: nat, length: nat, mask: seq<Byte>)
    requires |mask| == 4 && length % 16 == 0 && start + length <= buf.Length
    modifies buf
    ensures forall j :: start <= j < start + length ==> buf[j] == Xor(old(buf[j]), mask[(j - start) % 4])
    ensures forall j :: 0 <= j < buf.Length && !(start <= j < start + length) ==> buf[j] == old(buf[j])
  {
    var data := start;
    while data < start + length
      invariant (data - start) % 16 == 0
      invariant start <= data <= start + length
      invariant forall j :: start <= j < data ==> buf[j] == Xor(old(buf[j]), mask[(j - start) % 4])
      invariant forall j :: 0 <= j < buf.Length && !(start <= j < data) ==> buf[j] == old(buf[j])
    {
      UnrolledXor(buf, data, 16, mask);
      data := data + 16;
    }
  }
}
