/** The reading machine in terms of the bytes on the wire (RFC 6455 section 5.2): sizes, refusals and deliveries. */
module Wire {
  import opened Bytes
  import opened Utf8
  import opened FrameMachine
  import opened FrameFeed

  /** How long a head is and what length it announces; a client's heads end with four mask bytes. */
  lemma HeadIs(cfg: Config, h: seq<Byte>)
    requires |h| >= 2
    ensures HeadSize(cfg, h) == (if cfg.isServer then 4 else 0)
                                + if h[1] % 128 < 126 then 2 else if h[1] % 128 == 126 then 4 else 10
    ensures h[1] % 128 < 126 ==> PayloadLength(h) == h[1] % 128
    ensures h[1] % 128 == 126 && |h| >= 4 ==> PayloadLength(h) == (h[2] as int) * 256 + h[3]
    ensures h[1] % 128 == 127 && |h| >= 10 ==>
              PayloadLength(h) == (h[2] as int) * 0x100_0000_0000_0000 + (h[3] as int) * 0x1_0000_0000_0000
                                  + (h[4] as int) * 0x100_0000_0000 + (h[5] as int) * 0x1_0000_0000
                                  + (h[6] as int) * 0x100_0000 + (h[7] as int) * 0x1_0000 + (h[8] as int) * 0x100 + h[9]
  {
    hide BigEndian;
    if h[1] % 128 == 126 && |h| >= 4 {
      BigEndianValue(h[2..4]);
    } else if h[1] % 128 == 127 && |h| >= 10 {
      BigEndianValue(h[2..10]);
    }
  }

  /** A head is malformed exactly if a reserved bit is set, its opcode is none of 0, 1, 2, 8, 9 and 10, or it starts a
      control frame that is a fragment or longer than 125. */
  lemma BadHeadIs(h: seq<Byte>)
    requires |h| >= 2
    ensures BadHead(h) <==>
              || h[0] / 16 % 8 != 0 || 3 <= h[0] % 16 <= 7 || h[0] % 16 >= 11
              || (h[0] % 16 >= 8 && (h[0] < 128 || h[1] % 128 > 125))
  {
  }

  /** Such a head ends the connection, whatever follows. */
  lemma MalformedIsRefused(cfg: Config, c: Conn, bs: seq<Byte>)
    requires WellFormed(cfg, c) && AtBoundary(c) && |bs| >= if cfg.isServer then 6 else 2
    requires || bs[0] / 16 % 8 != 0 || 3 <= bs[0] % 16 <= 7 || bs[0] % 16 >= 11
             || (bs[0] % 16 >= 8 && (bs[0] < 128 || bs[1] % 128 > 125))
    ensures Feed(cfg, c, bs) == Dead(Refused(ProtocolError), c.inbox.events)
  {
    BadHeadIs(bs);
    FeedBadHead(cfg, c, bs);
  }

  /** So does a continuation of nothing, a text frame inside an unfinished message, or a third frame inside a second
      one; and a frame longer than the limit is too big. Nothing else is objected to: a binary frame inside an
      unfinished message is not. */
  lemma ObjectionIs(cfg: Config, c: Conn, h: seq<Byte>)
    requires WellFormed(cfg, c) && AtBoundary(c) && WholeHead(cfg, h)
    ensures Objection(cfg, c, h)
         == if (h[0] % 16 == 0 && c.stack == []) || (h[0] % 16 != 0 && |c.stack| == 2) || (h[0] % 16 == 1 && !c.lastFin)
            then Refused(ProtocolError)
            else if PayloadLength(h) > cfg.maxPayload then Refused(TooBig)
            else Running
  {
    hide PayloadLength;
  }

  lemma OutOfOrderIsRefused(cfg: Config, c: Conn, h: seq<Byte>, rest: seq<Byte>)
    requires WellFormed(cfg, c) && AtBoundary(c) && WholeHead(cfg, h)
    requires (h[0] % 16 == 0 && c.stack == []) || (h[0] % 16 != 0 && |c.stack| == 2) || (h[0] % 16 == 1 && !c.lastFin)
    ensures Feed(cfg, c, h + rest) == Dead(Refused(ProtocolError), c.inbox.events)
  {
    hide Feed, WellFormed, WholeHead;
    ObjectionIs(cfg, c, h);
    RefusedFrame(cfg, c, h, rest);
  }

  /** A connection that waits for the first frame of a message. */
  function Idle(events: seq<Event>): Conn {
    Live(Open(events, [], []), Head([]), [], true)
  }

  /** `data` is what the payload of a frame with this head is once it has been unmasked. */
  predicate Unmasked(cfg: Config, h: seq<Byte>, payload: seq<Byte>, data: seq<Byte>) {
    && (cfg.isServer ==> |h| >= 4) && |data| == |payload|
    && forall i :: 0 <= i < |payload| ==> data[i] == if cfg.isServer then Xor(payload[i], h[|h| - 4 + i % 4]) else payload[i]
  }

  lemma UnmaskedIs(cfg: Config, h: seq<Byte>, payload: seq<Byte>, data: seq<Byte>)
    requires |h| >= Short(cfg) && Unmasked(cfg, h, payload, data)
    ensures Unmask(payload, MaskOf(cfg, h)) == data
  {
    hide Xor;
    forall i | 0 <= i < |payload| ensures Unmask(payload, MaskOf(cfg, h))[i] == data[i] {
      XorZero(payload[i]);
    }
  }

  /** What a whole frame in the idle state leads to, by its first byte: 0x81 text, 0x82 binary, 0x88 close, 0x89 ping,
      0x8A pong. */
  lemma WholeFrameIs(cfg: Config, events: seq<Event>, h: seq<Byte>, payload: seq<Byte>, data: seq<Byte>)
    requires h != [] && h[0] in {0x81, 0x82, 0x88, 0x89, 0x8A} && WholeHead(cfg, h)
    requires PayloadLength(h) == |payload| <= cfg.maxPayload && Unmasked(cfg, h, payload, data)
    ensures var after := Feed(cfg, Idle(events), h + payload);
            && (h[0] == 0x81 ==> after == if ValidUtf8(data) then Idle(events + [Message(1, data)])
                                          else Dead(Refused(InvalidText), events))
            && (h[0] == 0x82 ==> after == Idle(events + [Message(2, data)]))
            && (h[0] == 0x88 ==> after == Dead(Ended(ParseClose(data).0, ParseClose(data).1), events))
            && (h[0] == 0x89 ==> after == Idle(events + [Ping(data)]))
            && (h[0] == 0x8A ==> after == Idle(events + [Pong(data)]))
  {
    var c := Idle(events);
    Delivered(cfg, c, h, payload, data);
    assert [] + data == data && c.stack + [OpCodeOf(h[0])] == [OpCodeOf(h[0])];
    hide Feed, Unmask, ParseClose, ValidUtf8, PayloadLength, MaskOf, BadHead;
    assert Started(c, h) == c.(stack := [OpCodeOf(h[0])], lastFin := true);
  }

  lemma Delivered(cfg: Config, c: Conn, h: seq<Byte>, payload: seq<Byte>, data: seq<Byte>)
    requires WellFormed(cfg, c) && AtBoundary(c) && WholeHead(cfg, h) && Objection(cfg, c, h).Running?
    requires PayloadLength(h) == |payload| && Unmasked(cfg, h, payload, data)
    ensures Started(c, h).stack != []
    ensures Feed(cfg, c, h + payload) == Deliver(cfg, Started(c, h), data, 0, [])
  {
    hide Feed, Deliver, Unmask, PayloadLength, MaskOf, BadHead, Objection, Unmasked, WellFormed;
    WholeFrame(cfg, c, h, payload, []);
    UnmaskedIs(cfg, h, payload, data);
    assert payload + [] == payload;
    FeedEmpty(cfg, Deliver(cfg, Started(c, h), data, 0, []));
  }

  lemma FeedEmpty(cfg: Config, c: Conn)
    requires WellFormed(cfg, c)
    ensures Feed(cfg, c, []) == c
  {
  }

  /** A connection inside a message of which `data` has arrived. */
  function Unfinished(events: seq<Event>, data: seq<Byte>, op: nat): Conn {
    Live(Open(events, data, []), Head([]), [op], false)
  }

  lemma FirstPart(cfg: Config, events: seq<Event>, h: seq<Byte>, p: seq<Byte>, d: seq<Byte>)
    requires WholeHead(cfg, h) && h[0] in {0x01, 0x02}
    requires PayloadLength(h) == |p| <= cfg.maxPayload && Unmasked(cfg, h, p, d)
    ensures Feed(cfg, Idle(events), h + p) == Unfinished(events, d, h[0])
  {
    hide Feed, WellFormed, BadHead, HeadSize, PayloadLength, Objection, Deliver;
    FirstStarts(cfg, events, h);
    Delivered(cfg, Idle(events), h, p, d);
    PartDelivered(cfg, events, [], h[0], false, d);
    assert [] + d == d;
  }

  lemma FirstStarts(cfg: Config, events: seq<Event>, h: seq<Byte>)
    requires WholeHead(cfg, h) && h[0] in {0x01, 0x02} && PayloadLength(h) <= cfg.maxPayload
    ensures WellFormed(cfg, Idle(events)) && Objection(cfg, Idle(events), h).Running?
    ensures Started(Idle(events), h) == Live(Open(events, [], []), Head([]), [h[0] as int], false)
  {
    hide PayloadLength, BadHead, HeadSize;
    assert [] + [h[0] as int] == [h[0] as int];
  }

  lemma LastStarts(cfg: Config, events: seq<Event>, op: nat, d: seq<Byte>, h: seq<Byte>)
    requires WholeHead(cfg, h) && h[0] == 0x80 && (op == 1 || op == 2) && |d| <= cfg.maxPayload
    requires PayloadLength(h) <= cfg.maxPayload
    ensures WellFormed(cfg, Unfinished(events, d, op)) && Objection(cfg, Unfinished(events, d, op), h).Running?
    ensures Started(Unfinished(events, d, op), h) == Live(Open(events, d, []), Head([]), [op], true)
  {
    hide PayloadLength, BadHead, HeadSize;
  }

  lemma PartDelivered(cfg: Config, events: seq<Event>, d: seq<Byte>, op: nat, fin: bool, d': seq<Byte>)
    requires op == 1 || op == 2
    ensures Deliver(cfg, Live(Open(events, d, []), Head([]), [op], fin), d', 0, [])
         == if |d| + |d'| > cfg.maxPayload then Dead(Refused(TooBig), events)
            else if !fin then Unfinished(events, d + d', op)
            else if op == 1 && !ValidUtf8(d + d') then Dead(Refused(InvalidText), events)
            else Idle(events + [Message(op, d + d')])
  {
    hide ValidUtf8;
    assert [op][..0] == [];
  }

  lemma LastPart(cfg: Config, events: seq<Event>, op: nat, d: seq<Byte>, h: seq<Byte>, p: seq<Byte>, d': seq<Byte>)
    requires WholeHead(cfg, h) && h[0] == 0x80 && (op == 1 || op == 2) && |d| <= cfg.maxPayload
    requires PayloadLength(h) == |p| <= cfg.maxPayload && Unmasked(cfg, h, p, d')
    ensures WellFormed(cfg, Unfinished(events, d, op))
    ensures Feed(cfg, Unfinished(events, d, op), h + p)
         == if |d| + |d'| > cfg.maxPayload then Dead(Refused(TooBig), events)
            else if op == 1 && !ValidUtf8(d + d') then Dead(Refused(InvalidText), events)
            else Idle(events + [Message(op, d + d')])
  {
    hide Feed, WellFormed, WholeHead, PayloadLength, Objection, Deliver, Unmasked, ValidUtf8;
    LastStarts(cfg, events, op, d, h);
    Delivered(cfg, Unfinished(events, d, op), h, p, d');
    PartDelivered(cfg, events, d, op, true, d');
  }

  /** A message in two frames, 0x01 or 0x02 and then 0x80, is the two parts in order, if they are together within the
      limit. */
  lemma TwoFramesAre(cfg: Config, events: seq<Event>, h: seq<Byte>, p: seq<Byte>, d: seq<Byte>,
                     h': seq<Byte>, p': seq<Byte>, d': seq<Byte>)
    requires WholeHead(cfg, h) && WholeHead(cfg, h') && h[0] in {0x01, 0x02} && h'[0] == 0x80
    requires PayloadLength(h) == |p| <= cfg.maxPayload && Unmasked(cfg, h, p, d)
    requires PayloadLength(h') == |p'| <= cfg.maxPayload && Unmasked(cfg, h', p', d')
    ensures var after, op := Feed(cfg, Idle(events), h + p + (h' + p')), h[0] as int;
            after == if |d| + |d'| > cfg.maxPayload then Dead(Refused(TooBig), events)
                     else if op == 1 && !ValidUtf8(d + d') then Dead(Refused(InvalidText), events)
                     else Idle(events + [Message(op, d + d')])
  {
    hide Feed, ValidUtf8, PayloadLength;
    FirstPart(cfg, events, h, p, d);
    FeedConcat(cfg, Idle(events), h + p, h' + p');
    LastPart(cfg, events, h[0], d, h', p', d');
  }

  /** A close payload: nothing is 1005; a code from 1000 to 1003, from 1007 to 1011 or from 4000 to 4999 with a text that
      is UTF-8 is itself; all else is 1006. */
  lemma ParseCloseIs(data: seq<Byte>)
    ensures |data| < 2 ==> ParseClose(data) == (1005, [])
    ensures |data| >= 2 ==>
              var code := (data[0] as int) * 256 + data[1];
              if (1000 <= code <= 1003 || 1007 <= code <= 1011 || 4000 <= code <= 4999) && ValidUtf8(data[2..])
              then ParseClose(data) == (code, data[2..])
              else ParseClose(data).0 == 1006 && ParseClose(data).1 == Ascii("Received invalid close payload")
  {
    hide ValidUtf8, BigEndian;
    if |data| >= 2 {
      BigEndianValue(data[..2]);
    }
  }

  lemma AsciiIs(s: string)
    requires forall i :: 0 <= i < |s| ==> s[i] as int < 256
    ensures |Ascii(s)| == |s| && forall i :: 0 <= i < |s| ==> Ascii(s)[i] == s[i] as int
  {
  }
}
