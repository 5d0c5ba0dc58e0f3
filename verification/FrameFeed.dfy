/** What the byte machine does to a whole stretch of bytes: the steps the parser takes at once. */
module FrameFeed {
  import opened Bytes
  import opened FrameMachine

  lemma {:induction false} FeedConcat(cfg: Config, c: Conn, a: seq<Byte>, b: seq<Byte>)
    requires WellFormed(cfg, c)
    ensures Feed(cfg, c, a + b) == Feed(cfg, Feed(cfg, c, a), b)
    decreases |a|
  {
    if a == [] {
      assert a + b == b;
    } else {
      assert (a + b)[1..] == a[1..] + b;
      FeedConcat(cfg, Step(cfg, c, a[0]), a[1..], b);
    }
  }

  lemma {:induction false} FeedDead(cfg: Config, c: Conn, bs: seq<Byte>)
    requires WellFormed(cfg, c) && c.Dead?
    ensures Feed(cfg, c, bs) == c
    decreases |bs|
  {
    if bs != [] {
      FeedDead(cfg, c, bs[1..]);
    }
  }

  // ---------------------------------------------------------------- heads

  lemma UndecidedPrefix(cfg: Config, h: seq<Byte>, k: nat)
    requires Undecided(cfg, h) && k <= |h|
    ensures Undecided(cfg, h[..k])
  {
    if k >= Short(cfg) {
      assert h[..k][0] == h[0] && h[..k][1] == h[1];
    }
  }

  predicate AtBoundary(c: Conn) {
    c.Live? && c.phase == Head([])
  }

  lemma {:induction false} FeedPartialHead(cfg: Config, c: Conn, h: seq<Byte>)
    requires WellFormed(cfg, c) && AtBoundary(c) && Undecided(cfg, h)
    ensures Feed(cfg, c, h) == c.(phase := Head(h))
    decreases |h|
  {
    if h != [] {
      var k := |h| - 1;
      UndecidedPrefix(cfg, h, k);
      FeedPartialHead(cfg, c, h[..k]);
      assert h == h[..k] + [h[k]];
      FeedConcat(cfg, c, h[..k], [h[k]]);
    }
  }

  lemma FeedBadHead(cfg: Config, c: Conn, bs: seq<Byte>)
    requires WellFormed(cfg, c) && AtBoundary(c)
    requires |bs| >= Short(cfg) && BadHead(bs)
    ensures Feed(cfg, c, bs) == Refuse(c, ProtocolError)
  {
    var k := Short(cfg) - 1;
    var h := bs[..k];
    FeedPartialHead(cfg, c, h);
    FeedConcat(cfg, c, h, bs[k..]);
    assert bs == h + bs[k..];
    assert h + [bs[k]] == bs[..k + 1];
    assert bs[..k + 1][0] == bs[0] && bs[..k + 1][1] == bs[1];
    FeedDead(cfg, Refuse(c, ProtocolError), bs[k..][1..]);
  }

  lemma CompletesHead(cfg: Config, c: Conn, h: seq<Byte>, b: Byte)
    requires WellFormed(cfg, c) && AtBoundary(c) && Undecided(cfg, h)
    requires |h| + 1 >= Short(cfg) && !BadHead(h + [b]) && |h| + 1 == HeadSize(cfg, h + [b])
    ensures Step(cfg, c.(phase := Head(h)), b) == BeginFrame(cfg, c, h + [b])
  {
  }

  predicate WholeHead(cfg: Config, h: seq<Byte>) {
    |h| >= Short(cfg) && !BadHead(h) && |h| == HeadSize(cfg, h)
  }

  lemma WholeHeadPrefix(cfg: Config, bs: seq<Byte>)
    requires |bs| >= Short(cfg) && !BadHead(bs) && |bs| >= HeadSize(cfg, bs)
    ensures WholeHead(cfg, bs[..HeadSize(cfg, bs)])
  {
    var h := bs[..HeadSize(cfg, bs)];
    assert h[0] == bs[0] && h[1] == bs[1];
  }

  lemma FeedWholeHead(cfg: Config, c: Conn, h: seq<Byte>)
    requires WellFormed(cfg, c) && AtBoundary(c) && WholeHead(cfg, h)
    ensures WellFormed(cfg, BeginFrame(cfg, c, h))
    ensures Feed(cfg, c, h) == BeginFrame(cfg, c, h)
  {
    hide BeginFrame, PayloadLength;
    var k := |h| - 1;
    assert h == h[..k] + [h[k]];
    assert Undecided(cfg, h[..k]) by {
      if k >= Short(cfg) {
        assert h[..k][0] == h[0] && h[..k][1] == h[1];
      }
    }
    FeedPartialHead(cfg, c, h[..k]);
    FeedConcat(cfg, c, h[..k], [h[k]]);
    CompletesHead(cfg, c, h[..k], h[k]);
    BeginFrameWellFormed(cfg, c, h);
    FeedOne(cfg, c.(phase := Head(h[..k])), h[k]);
  }

  lemma FeedOne(cfg: Config, c: Conn, b: Byte)
    requires WellFormed(cfg, c)
    ensures Feed(cfg, c, [b]) == Step(cfg, c, b)
  {
  }

  // ---------------------------------------------------------------- payload

  lemma FragmentSplit(cfg: Config, ib: Inbox, op: nat, fin: bool, xs: seq<Byte>, ys: seq<Byte>, r: nat)
    requires ib.Open? && |ys| + r > 0
    ensures Fragment(cfg, ib, op, fin, xs + ys, r)
            == Fragment(cfg, Fragment(cfg, ib, op, fin, xs, |ys| + r), op, fin, ys, r)
  {
    if op < 3 {
      assert ib.message + (xs + ys) == ib.message + xs + ys;
    } else {
      assert ib.control + (xs + ys) == ib.control + xs + ys;
    }
  }

  lemma UnmaskHead(s: seq<Byte>, m: seq<Byte>)
    requires |m| == 4 && s != []
    ensures Unmask(s, m) == [Xor(s[0], m[0])] + Unmask(s[1..], Rotate(m, 1))
  {
  }

  lemma RotateNone(m: seq<Byte>)
    requires |m| == 4
    ensures Rotate(m, 0) == m
  {
  }

  lemma RotateOn(m: seq<Byte>, n: nat)
    requires |m| == 4
    ensures Rotate(Rotate(m, 1), n) == Rotate(m, n + 1)
  {
  }

  lemma DeliverSplit(cfg: Config, c: Conn, xs: seq<Byte>, ys: seq<Byte>, r: nat, m: seq<Byte>, m': seq<Byte>)
    requires c.Live? && c.stack != [] && c.inbox.Open? && |ys| > 0
    ensures var c1 := Deliver(cfg, c, xs, |ys| + r, m);
            && (c1.Dead? || c1 == Live(c1.inbox, Payload(|ys| + r, m), c.stack, c.lastFin))
            && Deliver(cfg, c, xs + ys, r, m') == if c1.Dead? then c1 else Deliver(cfg, c1, ys, r, m')
  {
    FragmentSplit(cfg, c.inbox, c.stack[|c.stack| - 1], c.lastFin, xs, ys, r);
  }

  /** Delivering a stretch is delivering its first byte and then, if that was accepted, the rest. */
  lemma {:induction false} DeliverFirst(cfg: Config, c: Conn, bs: seq<Byte>)
    requires WellFormed(cfg, c) && c.Live? && c.phase.Payload?
    requires 1 < |bs| <= c.phase.remaining
    ensures var Payload(n, m) := c.phase;
            var c1 := Step(cfg, c, bs[0]);
            && (c1.Live? ==> c1.phase == Payload(n - 1, Rotate(m, 1)) && c1.stack != [])
            && Deliver(cfg, c, Unmask(bs, m), n - |bs|, Rotate(m, |bs|))
               == if c1.Dead? then c1
                  else Deliver(cfg, c1, Unmask(bs[1..], Rotate(m, 1)), n - |bs|, Rotate(m, |bs|))
  {
    hide Fragment;
    var Payload(n, m) := c.phase;
    UnmaskHead(bs, m);
    DeliverSplit(cfg, c, [Xor(bs[0], m[0])], Unmask(bs[1..], Rotate(m, 1)), n - |bs|, Rotate(m, 1), Rotate(m, |bs|));
  }

  /** A stretch of payload no longer than what the frame still owes is delivered as one fragment. */
  lemma {:induction false} FeedPayload(cfg: Config, c: Conn, bs: seq<Byte>)
    requires WellFormed(cfg, c) && c.Live? && c.phase.Payload?
    requires 0 < |bs| <= c.phase.remaining
    ensures Feed(cfg, c, bs)
            == Deliver(cfg, c, Unmask(bs, c.phase.mask), c.phase.remaining - |bs|, Rotate(c.phase.mask, |bs|))
    decreases |bs|
  {
    hide Deliver;
    var Payload(n, m) := c.phase;
    var c1 := Step(cfg, c, bs[0]);
    if |bs| == 1 {
      assert Unmask(bs, m) == [Xor(bs[0], m[0])];
      assert bs == [bs[0]];
      FeedOne(cfg, c, bs[0]);
    } else {
      DeliverFirst(cfg, c, bs);
      if c1.Dead? {
        FeedDead(cfg, c1, bs[1..]);
      } else {
        RotateOn(m, |bs| - 1);
        FeedPayload(cfg, c1, bs[1..]);
      }
    }
  }

  // ---------------------------------------------------------------- frames

  lemma RefusedFrame(cfg: Config, c: Conn, h: seq<Byte>, rest: seq<Byte>)
    requires WellFormed(cfg, c) && AtBoundary(c) && WholeHead(cfg, h)
    requires !Objection(cfg, c, h).Running?
    ensures Feed(cfg, c, h + rest) == Dead(Objection(cfg, c, h), c.inbox.events)
  {
    FeedWholeHead(cfg, c, h);
    FeedConcat(cfg, c, h, rest);
    FeedDead(cfg, BeginFrame(cfg, c, h), rest);
  }

  lemma StartedTop(cfg: Config, c: Conn, h: seq<Byte>)
    requires WellFormed(cfg, c) && AtBoundary(c) && WholeHead(cfg, h)
    requires Objection(cfg, c, h).Running?
    ensures Started(c, h).stack != []
    ensures Fragment(cfg, c.inbox, Started(c, h).stack[|Started(c, h).stack| - 1], Fin(h[0]), [], PayloadLength(h))
            == if PayloadLength(h) > 0 then c.inbox
               else Fragment(cfg, c.inbox, Started(c, h).stack[|Started(c, h).stack| - 1], Fin(h[0]), [], 0)
  {
    assert c.inbox.message + [] == c.inbox.message && c.inbox.control + [] == c.inbox.control;
  }

  lemma NothingDelivered(cfg: Config, c: Conn, h: seq<Byte>)
    requires WellFormed(cfg, c) && AtBoundary(c) && WholeHead(cfg, h)
    requires Objection(cfg, c, h).Running? && PayloadLength(h) > 0
    ensures Started(c, h).stack != []
    ensures Deliver(cfg, Started(c, h), Unmask([], MaskOf(cfg, h)), PayloadLength(h), Rotate(MaskOf(cfg, h), 0))
            == BeginFrame(cfg, c, h)
  {
    StartedTop(cfg, c, h);
    RotateNone(MaskOf(cfg, h));
    assert Unmask([], MaskOf(cfg, h)) == [];
  }

  lemma BeganFrame(cfg: Config, c: Conn, h: seq<Byte>)
    requires WellFormed(cfg, c) && AtBoundary(c) && WholeHead(cfg, h) && Objection(cfg, c, h).Running?
    ensures Started(c, h).Live? && Started(c, h).stack != []
    ensures BeginFrame(cfg, c, h)
            == if PayloadLength(h) == 0 then Deliver(cfg, Started(c, h), [], 0, [])
               else Started(c, h).(phase := Payload(PayloadLength(h), MaskOf(cfg, h)))
  {
  }

  lemma DeliverIgnoresPhase(cfg: Config, c: Conn, phase: Phase, data: seq<Byte>, r: nat, m: seq<Byte>)
    requires c.Live? && c.stack != []
    ensures Deliver(cfg, c.(phase := phase), data, r, m) == Deliver(cfg, c, data, r, m)
  {
  }

  lemma DeliverIgnoresMask(cfg: Config, c: Conn, data: seq<Byte>, m: seq<Byte>, other: seq<Byte>)
    requires c.Live? && c.stack != []
    ensures Deliver(cfg, c, data, 0, m) == Deliver(cfg, c, data, 0, other)
  {
  }

  /** A frame whose payload has arrived in part, possibly none of it. */
  lemma {:induction false} PartFrame(cfg: Config, c: Conn, h: seq<Byte>, part: seq<Byte>)
    requires WellFormed(cfg, c) && AtBoundary(c) && WholeHead(cfg, h)
    requires Objection(cfg, c, h).Running? && |part| < PayloadLength(h)
    ensures Started(c, h).stack != []
    ensures Feed(cfg, c, h + part)
            == Deliver(cfg, Started(c, h), Unmask(part, MaskOf(cfg, h)), PayloadLength(h) - |part|,
                       Rotate(MaskOf(cfg, h), |part|))
  {
    hide Deliver, Rotate, Fragment, Unmask, BeginFrame, PayloadLength, Objection, BadHead, WellFormed, Feed, MaskOf;
    FeedWholeHead(cfg, c, h);
    FeedConcat(cfg, c, h, part);
    BeganFrame(cfg, c, h);
    if part == [] {
      NothingDelivered(cfg, c, h);
      assert h + part == h;
      assert |part| == 0;
    } else {
      var c' := BeginFrame(cfg, c, h);
      FeedPayload(cfg, c', part);
      DeliverIgnoresPhase(cfg, Started(c, h), c'.phase, Unmask(part, MaskOf(cfg, h)), PayloadLength(h) - |part|,
                          Rotate(MaskOf(cfg, h), |part|));
    }
  }

  /** A frame that has arrived completely, and what follows it. */
  lemma {:induction false} WholeFrame(cfg: Config, c: Conn, h: seq<Byte>, payload: seq<Byte>, rest: seq<Byte>)
    requires WellFormed(cfg, c) && AtBoundary(c) && WholeHead(cfg, h)
    requires Objection(cfg, c, h).Running? && |payload| == PayloadLength(h)
    ensures Started(c, h).stack != []
    ensures var after := Deliver(cfg, Started(c, h), Unmask(payload, MaskOf(cfg, h)), 0, []);
            && WellFormed(cfg, after)
            && Feed(cfg, c, h + (payload + rest)) == Feed(cfg, after, rest)
  {
    hide Deliver, Rotate, Fragment, BeginFrame, PayloadLength, Objection, BadHead, WellFormed, Feed, MaskOf;
    var m, started := MaskOf(cfg, h), Started(c, h);
    FeedWholeHead(cfg, c, h);
    FeedConcat(cfg, c, h, payload + rest);
    FeedConcat(cfg, BeginFrame(cfg, c, h), payload, rest);
    BeganFrame(cfg, c, h);
    if payload == [] {
      assert Unmask(payload, m) == [] && payload + rest == rest;
    } else {
      FeedPayload(cfg, BeginFrame(cfg, c, h), payload);
      DeliverIgnoresPhase(cfg, started, Payload(PayloadLength(h), m), Unmask(payload, m), 0, Rotate(m, |payload|));
      DeliverIgnoresMask(cfg, started, Unmask(payload, m), Rotate(m, |payload|), []);
    }
  }

  // ---------------------------------------------------------------- reads

  function Concat(segments: seq<seq<Byte>>): seq<Byte> {
    if segments == [] then [] else segments[0] + Concat(segments[1..])
  }

  /** One read after another. */
  function FeedAll(cfg: Config, c: Conn, segments: seq<seq<Byte>>): Conn
    requires WellFormed(cfg, c)
    decreases |segments|
  {
    if segments == [] then c else FeedAll(cfg, Feed(cfg, c, segments[0]), segments[1..])
  }

  lemma {:induction false} FeedAllIsFeed(cfg: Config, c: Conn, segments: seq<seq<Byte>>)
    requires WellFormed(cfg, c)
    ensures FeedAll(cfg, c, segments) == Feed(cfg, c, Concat(segments))
    decreases |segments|
  {
    if segments != [] {
      FeedAllIsFeed(cfg, Feed(cfg, c, segments[0]), segments[1..]);
      FeedConcat(cfg, c, segments[0], Concat(segments[1..]));
    }
  }

  /** However a byte stream is cut into reads, the same events and the same verdict come out, and the
      connection is left in the same state. Nothing is asked of the stream. */
  lemma {:induction false} SegmentationInvariance(cfg: Config, c: Conn, segments: seq<seq<Byte>>, others: seq<seq<Byte>>)
    requires WellFormed(cfg, c)
    requires Concat(segments) == Concat(others)
    ensures FeedAll(cfg, c, segments) == FeedAll(cfg, c, others)
  {
    FeedAllIsFeed(cfg, c, segments);
    FeedAllIsFeed(cfg, c, others);
  }
}
