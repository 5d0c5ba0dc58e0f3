/** Printing WebSocket frames (formatMessage, messageFrameSize, formatClosePayload) and reading them back. */
module Printer {
  import opened Bytes
  import opened Utf8
  import opened FrameMachine
  import opened FrameFeed

  /** The head of a frame; a client's ends with its mask. */
  function FrameHead(toClient: bool, length: nat, op: nat, fin: bool, mask: seq<Byte>): (h: seq<Byte>)
    requires length < 0x1_0000_0000_0000_0000 && op < 16 && |mask| == 4
    ensures |h| >= 2
  {
    var flag := if toClient then 0 else 128;
    var tail := if toClient then [] else mask;
    [(if fin then 128 else 0) + op] + LengthField(flag, length) + tail
  }

  function LengthField(flag: nat, length: nat): (s: seq<Byte>)
    requires flag <= 128 && length < 0x1_0000_0000_0000_0000
    ensures |s| == if length < 126 then 1 else if length <= 0xFFFF then 3 else 9
  {
    if length < 126 then [flag + length]
    else if length <= 0xFFFF then [flag + 126] + ToBigEndian(length, 2)
    else [flag + 127] + ToBigEndian(length, 8)
  }

  function PrintFrame(toClient: bool, payload: seq<Byte>, op: nat, fin: bool, mask: seq<Byte>): seq<Byte>
    requires |payload| < 0x1_0000_0000_0000_0000 && op < 16 && |mask| == 4
  {
    FrameHead(toClient, |payload|, op, fin, mask) + if toClient then payload else Unmask(payload, mask)
  }

  /** The bytes of a head (RFC 6455 section 5.2): the last fragment and the opcode, then the length in one of three
      forms, 128 more in the second byte and the mask behind it exactly when it is printed for a server. */
  lemma HeadBytes(toClient: bool, length: nat, op: nat, fin: bool, mask: seq<Byte>)
    requires length < 0x1_0000_0000_0000_0000 && op < 16 && |mask| == 4
    ensures var h, masked, key := FrameHead(toClient, length, op, fin, mask), if toClient then 0 else 128, if toClient then [] else mask;
            && h[0] == (if fin then 128 else 0) + op
            && (length < 126 ==> h == [h[0], masked + length] + key)
            && (126 <= length <= 65535 ==> h == [h[0], masked + 126, length / 256, length % 256] + key)
            && (length > 65535 ==>
                  && h == [h[0], masked + 127, h[2], h[3], h[4], h[5], h[6], h[7], h[8], h[9]] + key
                  && length == (h[2] as int) * 0x100_0000_0000_0000 + (h[3] as int) * 0x1_0000_0000_0000
                               + (h[4] as int) * 0x100_0000_0000 + (h[5] as int) * 0x1_0000_0000
                               + (h[6] as int) * 0x100_0000 + (h[7] as int) * 0x1_0000 + (h[8] as int) * 0x100 + h[9])
  {
    if 126 <= length <= 65535 {
      assert ToBigEndian(length, 2) == [length / 256, length % 256] by {
        assert ToBigEndian(length / 256, 1) == ToBigEndian(length / 256 / 256, 0) + [length / 256 % 256];
      }
    } else if length > 65535 {
      Pow256Eight();
      BigEndianRoundTrip(length, 8);
      BigEndianValue(ToBigEndian(length, 8));
    }
  }

  /** A frame is its head and then the payload, each byte changed by the mask byte of its turn if it is for a server. */
  lemma FrameBytes(toClient: bool, payload: seq<Byte>, op: nat, fin: bool, mask: seq<Byte>)
    requires |payload| < 0x1_0000_0000_0000_0000 && op < 16 && |mask| == 4
    ensures var frame, h := PrintFrame(toClient, payload, op, fin, mask), |FrameHead(toClient, |payload|, op, fin, mask)|;
            && |frame| == h + |payload| && frame[..h] == FrameHead(toClient, |payload|, op, fin, mask)
            && forall i :: 0 <= i < |payload| ==> frame[h + i] == if toClient then payload[i] else Xor(payload[i], mask[i % 4])
  {
    hide FrameHead;
  }

  function MessageFrameSize(messageSize: nat): nat {
    if messageSize < 126 then 2 + messageSize
    else if messageSize <= 0xFFFF then 4 + messageSize
    else 10 + messageSize
  }

  /** The size reserved for a frame sent by the server is the size printed. */
  lemma MessageFrameSizeExact(payload: seq<Byte>, op: nat, fin: bool, mask: seq<Byte>)
    requires |payload| < 0x1_0000_0000_0000_0000 && op < 16 && |mask| == 4
    ensures MessageFrameSize(|payload|) == |PrintFrame(true, payload, op, fin, mask)|
  {
  }

  /** formatMessage: prints a head announcing `reportedLength` bytes, and `src` after it, masked for a client. */
  method FormatMessage(dst: array<Byte>, at: nat, toClient: bool, src: seq<Byte>, op: nat, reportedLength: nat,
                       fin: bool, mask: seq<Byte>)
    returns (messageLength: nat)
    requires reportedLength < 0x1_0000_0000_0000_0000 && op < 16 && |mask| == 4
    requires at + |FrameHead(toClient, reportedLength, op, fin, mask)| + |src| <= dst.Length
    modifies dst
    ensures messageLength == |FrameHead(toClient, reportedLength, op, fin, mask)| + |src|
    ensures dst[at] == (if fin then 128 else 0) + op && (dst[at + 1] < 128 <==> toClient)
    ensures dst[at..at + messageLength]
            == FrameHead(toClient, reportedLength, op, fin, mask) + if toClient then src else Unmask(src, mask)
    ensures forall j :: 0 <= j < dst.Length && !(at <= j < at + messageLength) ==> dst[j] == old(dst[j])
  {
    hide FrameHead, Unmask;
    var headerLength := FormatHead(dst, at, toClient, op, reportedLength, fin, mask);
    ghost var head := dst[at..at + headerLength];
    messageLength := headerLength + |src|;
    FormatPayload(dst, at + headerLength, toClient, src, mask);
    assert dst[at..at + headerLength] == head;
    assert dst[at..at + messageLength] == dst[at..at + headerLength] + dst[at + headerLength..at + messageLength];
  }

  method FormatPayload(dst: array<Byte>, at: nat, toClient: bool, src: seq<Byte>, mask: seq<Byte>)
    requires |mask| == 4 && at + |src| <= dst.Length
    modifies dst
    ensures dst[at..at + |src|] == if toClient then src else Unmask(src, mask)
    ensures forall j :: 0 <= j < dst.Length && !(at <= j < at + |src|) ==> dst[j] == old(dst[j])
  {
    hide Unmask;
    CopyIn(dst, at, src);
    if !toClient {
      MaskPayload(dst, at, |src|, mask);
    }
  }

  method FormatHead(dst: array<Byte>, at: nat, toClient: bool, op: nat, reportedLength: nat, fin: bool, mask: seq<Byte>)
    returns (headerLength: nat)
    requires reportedLength < 0x1_0000_0000_0000_0000 && op < 16 && |mask| == 4
    requires at + |FrameHead(toClient, reportedLength, op, fin, mask)| <= dst.Length
    modifies dst
    ensures headerLength == |FrameHead(toClient, reportedLength, op, fin, mask)|
    ensures dst[at..at + headerLength] == FrameHead(toClient, reportedLength, op, fin, mask)
    ensures dst[at] == (if fin then 128 else 0) + op && (dst[at + 1] < 128 <==> toClient)
    ensures forall j :: 0 <= j < dst.Length && !(at <= j < at + headerLength) ==> dst[j] == old(dst[j])
  {
    hide LengthField;
    headerLength := FormatLength(dst, at, reportedLength);
    FlaggedLength(reportedLength);
    ghost var field := LengthField(0, reportedLength);
    dst[at] := (if fin then 128 else 0) + op;
    assert dst[at + 1..at + headerLength] == field;
    if !toClient {
      AddMask(dst, at + 1, headerLength - 1, mask);
      headerLength := headerLength + 4;
    }
    assert dst[at..at + headerLength] == [dst[at]] + dst[at + 1..at + headerLength];
  }

  /** Sets the mask bit of a length field and puts the mask behind it. */
  method AddMask(dst: array<Byte>, at: nat, length: nat, mask: seq<Byte>)
    requires |mask| == 4 && length > 0 && at + length + 4 <= dst.Length && dst[at] < 128
    modifies dst
    ensures dst[at] == old(dst[at]) + 128
    ensures dst[at..at + length + 4] == old(dst[at..at + length])[0 := old(dst[at]) + 128] + mask
    ensures forall j :: 0 <= j < dst.Length && !(at <= j < at + length + 4) ==> dst[j] == old(dst[j])
  {
    dst[at] := dst[at] + 128;
    ghost var field := dst[at..at + length];
    CopyIn(dst, at + length, mask);
    assert dst[at..at + length] == field;
    assert dst[at..at + length + 4] == dst[at..at + length] + dst[at + length..at + length + 4];
  }

  /** Setting the mask bit afterwards is printing it in the first place. */
  lemma FlaggedLength(length: nat)
    requires length < 0x1_0000_0000_0000_0000
    ensures var field := LengthField(0, length);
            field[0] < 128 && LengthField(128, length) == field[0 := field[0] + 128]
  {
  }

  method FormatLength(dst: array<Byte>, at: nat, reportedLength: nat) returns (headerLength: nat)
    requires reportedLength < 0x1_0000_0000_0000_0000
    requires at + 1 + |LengthField(0, reportedLength)| <= dst.Length
    modifies dst
    ensures headerLength == 1 + |LengthField(0, reportedLength)| && dst[at + 1] < 128
    ensures dst[at + 1..at + headerLength] == LengthField(0, reportedLength)
    ensures forall j :: 0 <= j < dst.Length && !(at <= j < at + headerLength) ==> dst[j] == old(dst[j])
  {
    if reportedLength < 126 {
      headerLength := 2;
      dst[at + 1] := reportedLength;
    } else if reportedLength <= 0xFFFF {
      headerLength := 4;
      dst[at + 1] := 126;
      CopyIn(dst, at + 2, ToBigEndian(reportedLength, 2));
      assert dst[at + 1..at + 4] == [dst[at + 1]] + dst[at + 2..at + 4];
    } else {
      headerLength := 10;
      dst[at + 1] := 127;
      CopyIn(dst, at + 2, ToBigEndian(reportedLength, 8));
      assert dst[at + 1..at + 10] == [dst[at + 1]] + dst[at + 2..at + 10];
    }
  }

  method MaskPayload(dst: array<Byte>, start: nat, length: nat, mask: seq<Byte>)
    requires |mask| == 4 && start + length <= dst.Length
    modifies dst
    ensures dst[start..start + length] == Unmask(old(dst[start..start + length]), mask)
    ensures forall j :: 0 <= j < dst.Length && !(start <= j < start + length) ==> dst[j] == old(dst[j])
  {
    var i := 0;
    while i != length
      invariant i <= length
      invariant forall j :: start <= j < start + i ==> dst[j] == Xor(old(dst[j]), mask[(j - start) % 4])
      invariant forall j :: 0 <= j < dst.Length && !(start <= j < start + i) ==> dst[j] == old(dst[j])
      decreases length - i
    {
      dst[start + i] := Xor(dst[start + i], mask[i % 4]);
      i := i + 1;
    }
  }

  method CopyIn(dst: array<Byte>, at: nat, src: seq<Byte>)
    requires at + |src| <= dst.Length
    modifies dst
    ensures dst[at..at + |src|] == src
    ensures forall j :: 0 <= j < dst.Length && !(at <= j < at + |src|) ==> dst[j] == old(dst[j])
  {
    forall j | at <= j < at + |src| {
      dst[j] := src[j - at];
    }
  }

  // ---------------------------------------------------------------- close payloads

  function FormatClose(code: nat, message: seq<Byte>): seq<Byte>
    requires code < 0x10000
  {
    if code != 0 && code != 1005 && code != 1006 then ToBigEndian(code, 2) + message else []
  }

  /** The code in two bytes and the text; nothing at all for 0, 1005 and 1006. */
  lemma FormatCloseIs(code: nat, message: seq<Byte>)
    requires code < 0x10000
    ensures FormatClose(code, message) == if code in {0, 1005, 1006} then [] else [code / 256, code % 256] + message
  {
    assert ToBigEndian(code / 256, 1) == ToBigEndian(code / 256 / 256, 0) + [code / 256 % 256];
  }

  /** A close payload reads back as it was written exactly for the codes the reader accepts, which leaves
      out 1012 to 3999, and for valid text; 1005 without text is written as nothing and read as itself. */
  lemma CloseRoundTrip(code: nat, message: seq<Byte>)
    requires code < 0x10000
    ensures ParseClose(FormatClose(code, message)) == (code, message)
            <==> ((1000 <= code <= 1003 || 1007 <= code <= 1011 || 4000 <= code <= 4999) && ValidUtf8(message))
                 || (code == 1005 && message == [])
  {
    hide ValidUtf8;
    assert Pow256(2) == 65536;
    BigEndianRoundTrip(code, 2);
    var p := ToBigEndian(code, 2) + message;
    assert p[..2] == ToBigEndian(code, 2) && p[2..] == message;
  }

  // ---------------------------------------------------------------- one frame

  lemma MaskTwice(s: seq<Byte>, m: seq<Byte>)
    requires |m| == 4
    ensures Unmask(Unmask(s, m), m) == s
  {
    forall i | 0 <= i < |s| ensures Unmask(Unmask(s, m), m)[i] == s[i] {
      XorCancel(s[i], m[i % 4]);
    }
  }

  predicate Sendable(op: nat, fin: bool, length: nat) {
    op in {0, 1, 2, 8, 9, 10} && (op >= 8 ==> fin && length <= 125)
  }

  /** A printed head is a whole head to the other side, and says what it was printed to say. */
  lemma PrintedHead(cfg: Config, length: nat, op: nat, fin: bool, mask: seq<Byte>)
    requires Sendable(op, fin, length) && length < 0x1_0000_0000_0000_0000 && |mask| == 4
    ensures var h := FrameHead(!cfg.isServer, length, op, fin, mask);
            && WholeHead(cfg, h) && PayloadLength(h) == length
            && OpCodeOf(h[0]) == op && Fin(h[0]) == fin
            && MaskOf(cfg, h) == if cfg.isServer then mask else [0, 0, 0, 0]
  {
    var h := FrameHead(!cfg.isServer, length, op, fin, mask);
    if 126 <= length <= 0xFFFF {
      assert h[2..4] == ToBigEndian(length, 2);
      assert Pow256(2) == 0x10000;
      BigEndianRoundTrip(length, 2);
    } else if 0xFFFF < length {
      assert h[2..10] == ToBigEndian(length, 8);
      Pow256Eight();
      BigEndianRoundTrip(length, 8);
    }
  }

  lemma Pow256Eight()
    ensures Pow256(8) == 0x1_0000_0000_0000_0000
  {
    assert Pow256(4) == 0x1_0000_0000;
    assert Pow256(6) == 256 * (256 * Pow256(4));
    assert Pow256(8) == 256 * (256 * Pow256(6));
  }

  lemma UnmaskPrinted(cfg: Config, payload: seq<Byte>, mask: seq<Byte>)
    requires |mask| == 4
    ensures Unmask(if !cfg.isServer then payload else Unmask(payload, mask),
                   if cfg.isServer then mask else [0, 0, 0, 0]) == payload
  {
    if cfg.isServer {
      MaskTwice(payload, mask);
    } else {
      forall i | 0 <= i < |payload| ensures Unmask(payload, [0, 0, 0, 0])[i] == payload[i] {
        XorZero(payload[i]);
      }
    }
  }

  /** What a printed frame does to the reader. */
  lemma ReadFrame(cfg: Config, c: Conn, payload: seq<Byte>, op: nat, fin: bool, mask: seq<Byte>, rest: seq<Byte>)
    requires WellFormed(cfg, c) && AtBoundary(c)
    requires Sendable(op, fin, |payload|) && |payload| < 0x1_0000_0000_0000_0000 && |mask| == 4
    requires var h := FrameHead(!cfg.isServer, |payload|, op, fin, mask);
             WholeHead(cfg, h) && Objection(cfg, c, h).Running?
    ensures var c' := c.(stack := if op != 0 then c.stack + [op] else c.stack, lastFin := fin);
            && c'.stack != []
            && var after := Deliver(cfg, c', payload, 0, []);
               && WellFormed(cfg, after)
               && Feed(cfg, c, PrintFrame(!cfg.isServer, payload, op, fin, mask) + rest) == Feed(cfg, after, rest)
  {
    hide Feed, Deliver, Unmask, WellFormed, Objection;
    var h := FrameHead(!cfg.isServer, |payload|, op, fin, mask);
    var wire := if !cfg.isServer then payload else Unmask(payload, mask);
    PrintedHead(cfg, |payload|, op, fin, mask);
    assert h + wire + rest == h + (wire + rest);
    WholeFrame(cfg, c, h, wire, rest);
    UnmaskPrinted(cfg, payload, mask);
  }
}
