/** The receiving half of a WebSocket: WebSocketProtocol::consume with WebSocketContext::handleFragment. */
module Receiver {
  import opened Bytes
  import opened Utf8
  import opened FrameMachine
  import opened FrameFeed
  import opened Masking

  lemma UnmaskZero(s: seq<Byte>)
    ensures Unmask(s, [0, 0, 0, 0]) == s
  {
    forall i | 0 <= i < |s| ensures Unmask(s, [0, 0, 0, 0])[i] == s[i] {
      XorZero(s[i]);
    }
  }

  lemma ArrayParts(buf: array<Byte>, i: nat, j: nat, k: nat, l: nat)
    requires i <= j <= k <= l <= buf.Length
    ensures buf[i..l] == buf[i..j] + (buf[j..k] + buf[k..l])
  {
  }

  lemma ArrayHalves(buf: array<Byte>, i: nat, j: nat, l: nat)
    requires i <= j <= l <= buf.Length
    ensures buf[i..l] == buf[i..j] + buf[j..l]
  {
  }

  lemma ArrayPrefix(buf: array<Byte>, i: nat, j: nat, l: nat)
    requires i <= j <= l <= buf.Length
    ensures buf[i..l][..j - i] == buf[i..j]
  {
  }

  lemma RotateMod(m: seq<Byte>, n: nat)
    requires |m| == 4
    ensures Rotate(m, n % 4) == Rotate(m, n)
  {
  }

  lemma ZeroMaskRotates(n: nat)
    ensures Rotate([0, 0, 0, 0], n) == [0, 0, 0, 0]
  {
  }

  lemma FeedSpill(cfg: Config, c: Conn, spill: seq<Byte>, bytes: seq<Byte>)
    requires WellFormed(cfg, c) && AtBoundary(c) && Undecided(cfg, spill)
    ensures WellFormed(cfg, c.(phase := Head(spill)))
    ensures Feed(cfg, c.(phase := Head(spill)), bytes) == Feed(cfg, c, spill + bytes)
  {
    FeedPartialHead(cfg, c, spill);
    FeedConcat(cfg, c, spill, bytes);
  }

  lemma FeedMiddlePart(cfg: Config, c: Conn, part: seq<Byte>)
    requires WellFormed(cfg, c) && c.Live? && c.phase.Payload? && |part| < c.phase.remaining
    ensures Feed(cfg, c, part)
            == Deliver(cfg, c, Unmask(part, c.phase.mask), c.phase.remaining - |part|, Rotate(c.phase.mask, |part|))
  {
    if part == [] {
      assert c.inbox.message + [] == c.inbox.message && c.inbox.control + [] == c.inbox.control;
      RotateNone(c.phase.mask);
    } else {
      FeedPayload(cfg, c, part);
    }
  }

  lemma FeedLastPart(cfg: Config, c: Conn, part: seq<Byte>, rest: seq<Byte>, m: seq<Byte>)
    requires WellFormed(cfg, c) && c.Live? && c.phase == Payload(|part|, m)
    ensures var after := Deliver(cfg, c, Unmask(part, m), 0, []);
            WellFormed(cfg, after) && Feed(cfg, c, part + rest) == Feed(cfg, after, rest)
  {
    FeedConcat(cfg, c, part, rest);
    FeedPayload(cfg, c, part);
  }

  /** How far the partial unmasking of a first read may write past the bytes received. */
  const PADDING := 22

  class Receiver {
    const cfg: Config
    /** Size of the event loop's receive buffer; only a full read takes the vectorised path. */
    const receiveLength: nat

    // Parser state
    var wantsHead: bool
    var spill: seq<Byte>
    var opStack: int
    var opCode: seq<nat>
    var lastFin: bool
    var remainingBytes: nat
    var mask: seq<Byte>

    // Reassembly state: the message so far, then whatever there is of a control frame
    var fragmentBuffer: seq<Byte>
    var controlTipLength: nat

    // What has been handed on, and whether the socket is still read from
    var events: seq<Event>
    var fate: Fate

    constructor (cfg: Config, receiveLength: nat)
      requires receiveLength % 16 == 0
      ensures Valid() && View() == FRESH
      ensures this.cfg == cfg
    {
      this.cfg := cfg;
      this.receiveLength := receiveLength;
      wantsHead, spill, opStack, opCode, lastFin := true, [], -1, [0, 0], true;
      remainingBytes, mask := 0, [0, 0, 0, 0];
      fragmentBuffer, controlTipLength := [], 0;
      events, fate := [], Running;
    }

    ghost predicate Shape()
      reads this
    {
      && |opCode| == 2 && -1 <= opStack <= 1
      && |mask| == 4
      && (!cfg.isServer ==> mask == [0, 0, 0, 0])
      && controlTipLength <= |fragmentBuffer|
      && receiveLength % 16 == 0
    }

    ghost function InboxView(): Inbox
      reads this
      requires Shape()
    {
      if !fate.Running? then Closed(fate, events)
      else
        var tip := |fragmentBuffer| - controlTipLength;
        Open(events, fragmentBuffer[..tip], fragmentBuffer[tip..])
    }

    /** The state of the byte machine that this object stands for, between two frames. */
    ghost function Boundary(): Conn
      reads this
      requires Shape()
    {
      Settle(InboxView(), Head([]), opCode[..opStack + 1], lastFin)
    }

    /** The state of the byte machine that this object stands for. */
    ghost function View(): Conn
      reads this
      requires Shape()
    {
      Settle(InboxView(), if wantsHead then Head(spill) else Payload(remainingBytes, mask),
             opCode[..opStack + 1], lastFin)
    }

    ghost predicate Valid()
      reads this
    {
      && Shape()
      && WellFormed(cfg, View())
      && (fate.Running? && !wantsHead ==> spill == [])
    }

    /** The state safety the code relies on: the opcode stack is not empty where it is indexed, the spill
        fits its thirteen bytes, and the control tip lies in the buffer and is at most 125 bytes. */
    lemma StateSafety()
      requires Valid() && fate.Running?
      ensures -1 <= opStack <= 1
      ensures wantsHead ==> |spill| <= Long(cfg) - 1 && controlTipLength == 0
      ensures !wantsHead ==> opStack >= 0 && spill == [] && 0 < remainingBytes <= cfg.maxPayload
      ensures controlTipLength <= 125 && controlTipLength <= |fragmentBuffer|
      ensures |fragmentBuffer| - controlTipLength <= cfg.maxPayload
    {
    }

    /** Takes the next part of a payload; true when the connection is over. */
    method HandleFragment(data: seq<Byte>, remaining: nat, op: nat, fin: bool) returns (broken: bool)
      requires Shape() && fate.Running?
      requires |fragmentBuffer| - controlTipLength <= cfg.maxPayload
      requires op < 3 ==> controlTipLength == 0 && |data| <= cfg.maxPayload
      requires op >= 3 ==> fin
      modifies this`fragmentBuffer, this`controlTipLength, this`events, this`fate
      ensures Shape()
      ensures InboxView() == Fragment(cfg, old(InboxView()), op, fin, data, remaining)
      ensures broken == !fate.Running?
    {
      if op < 3 {
        broken := HandleDataFragment(data, remaining, op, fin);
      } else {
        broken := HandleControlFragment(data, remaining, op);
      }
    }

    method HandleDataFragment(data: seq<Byte>, remaining: nat, op: nat, fin: bool) returns (broken: bool)
      requires Shape() && fate.Running? && op < 3
      requires |fragmentBuffer| <= cfg.maxPayload
      requires controlTipLength == 0 && |data| <= cfg.maxPayload
      modifies this`fragmentBuffer, this`events, this`fate
      ensures Shape()
      ensures InboxView() == Fragment(cfg, old(InboxView()), op, fin, data, remaining)
      ensures broken == !fate.Running?
    {
      hide ValidUtf8;
      ghost var before := fragmentBuffer;
      assert InboxView() == Open(events, before, []);
      // Did everything come in one go?
      if remaining == 0 && fin && |fragmentBuffer| == 0 {
        assert before + data == data;
        broken := EmitMessage(data, op);
      } else {
        // The head's length was within the limit; together with what is buffered it may be over
        if cfg.maxPayload < |data| + |fragmentBuffer| {
          fate := Refused(TooBig);
          return true;
        }
        fragmentBuffer := fragmentBuffer + data;
        assert InboxView() == Open(events, before + data, []);
        broken := false;
        if remaining == 0 && fin {
          broken := EmitMessage(fragmentBuffer, op);
          if broken {
            return true;
          }
          fragmentBuffer := [];
        }
      }
    }

    /** A control frame that arrives in parts is gathered at the tail of the fragment buffer. */
    method HandleControlFragment(data: seq<Byte>, remaining: nat, op: nat) returns (broken: bool)
      requires Shape() && fate.Running? && op >= 3
      modifies this`fragmentBuffer, this`controlTipLength, this`events, this`fate
      ensures Shape()
      ensures InboxView() == Fragment(cfg, old(InboxView()), op, true, data, remaining)
      ensures broken == !fate.Running?
    {
      hide ParseClose;
      ghost var Open(before, message, control) := InboxView();
      if remaining == 0 && controlTipLength == 0 {
        assert control + data == data;
        broken := EmitControl(data, op);
      } else {
        fragmentBuffer := fragmentBuffer + data;
        controlTipLength := controlTipLength + |data|;
        assert InboxView() == Open(before, message, control + data);
        broken := false;
        if remaining == 0 {
          var tip := |fragmentBuffer| - controlTipLength;
          broken := EmitControl(fragmentBuffer[tip..], op);
          if broken {
            return true;
          }
          fragmentBuffer := fragmentBuffer[..tip];
          controlTipLength := 0;
        }
      }
    }

    /** Checks a text message and hands the message to the application. */
    method EmitMessage(data: seq<Byte>, op: nat) returns (broken: bool)
      requires fate.Running?
      modifies this`events, this`fate
      ensures if op == TEXT && !ValidUtf8(data) then fate == Refused(InvalidText) && events == old(events)
              else fate.Running? && events == old(events) + [Message(op, data)]
      ensures broken == !fate.Running?
    {
      if op == TEXT {
        var valid := IsValidUtf8(data);
        if !valid {
          fate := Refused(InvalidText);
          return true;
        }
      }
      events := events + [Message(op, data)];
      return false;
    }

    method EmitControl(data: seq<Byte>, op: nat) returns (broken: bool)
      requires fate.Running?
      modifies this`events, this`fate
      ensures DeliverControl(Open(old(events), [], data), op)
              == if broken then Closed(fate, events) else Open(events, [], [])
      ensures broken == !fate.Running?
    {
      if op == CLOSE {
        var (code, reason) := ParseClose(data);
        fate := Ended(code, reason);
        return true;
      } else if op == PING {
        events := events + [Ping(data)];
      } else if op == PONG {
        events := events + [Pong(data)];
      }
      return false;
    }

    method RotateMask(offset: nat)
      requires |mask| == 4 && 1 <= offset <= 4
      modifies this`mask
      ensures |mask| == 4 && mask == Rotate(old(mask), 4 - offset)
    {
      var original := mask;
      mask := mask[(0 + offset) % 4 := original[0]];
      mask := mask[(1 + offset) % 4 := original[1]];
      mask := mask[(2 + offset) % 4 := original[2]];
      mask := mask[(3 + offset) % 4 := original[3]];
    }

    /** The opcode stack and the payload limit decide whether the frame with head `h` may start. */
    method AdmitFrame(h: seq<Byte>, payLength: nat) returns (refused: bool)
      requires Shape() && fate.Running? && WellFormed(cfg, Boundary())
      requires WholeHead(cfg, h) && payLength == PayloadLength(h)
      modifies this`opStack, this`opCode, this`lastFin, this`fate
      ensures Shape()
      ensures fate == Objection(cfg, old(Boundary()), h)
      ensures refused == !fate.Running?
      ensures !refused ==> Boundary() == Started(old(Boundary()), h) && opStack >= 0
    {
      if OpCodeOf(h[0]) != 0 {
        if opStack == 1 || (!lastFin && OpCodeOf(h[0]) < 2) {
          fate := Refused(ProtocolError);
          return true;
        }
        opStack := opStack + 1;
        opCode := opCode[opStack := OpCodeOf(h[0])];
        assert opCode[..opStack + 1] == old(opCode[..opStack + 1]) + [OpCodeOf(h[0])];
      } else if opStack == -1 {
        fate := Refused(ProtocolError);
        return true;
      }
      lastFin := Fin(h[0]);
      if cfg.maxPayload < payLength {
        fate := Refused(TooBig);
        return true;
      }
      return false;
    }

    /** What every part of a payload needs of the state when it is handed on. */
    ghost predicate Expecting(size: nat)
      reads this
    {
      && Shape() && fate.Running? && opStack >= 0
      && size <= cfg.maxPayload
      && |fragmentBuffer| - controlTipLength <= cfg.maxPayload
      && (opCode[opStack] < 3 ==> controlTipLength == 0)
      && (opCode[opStack] >= 3 ==> lastFin)
    }

    /** The last part of a payload: the frame is over, and so perhaps is its message. */
    method FinishPayload(data: seq<Byte>)
      requires Expecting(|data|)
      modifies this`fragmentBuffer, this`controlTipLength, this`events, this`fate, this`opStack
      ensures Shape()
      ensures Boundary() == Deliver(cfg, old(Boundary()), data, 0, [])
    {
      hide Fragment;
      ghost var stack := opCode[..opStack + 1];
      assert stack[|stack| - 1] == opCode[opStack];
      var broken := HandleFragment(data, 0, opCode[opStack], lastFin);
      if broken {
        return;
      }
      if lastFin {
        opStack := opStack - 1;
        assert opCode[..opStack + 1] == stack[..|stack| - 1];
      }
    }

    /** A part of a payload that is not the last; `next` is the mask the following part will need. */
    method ContinuePayload(data: seq<Byte>, ghost next: seq<Byte>) returns (broken: bool)
      requires Expecting(|data|) && remainingBytes > 0
      modifies this`fragmentBuffer, this`controlTipLength, this`events, this`fate
      ensures Shape()
      ensures broken == !fate.Running?
      ensures Settle(InboxView(), Payload(remainingBytes, next), opCode[..opStack + 1], lastFin)
              == Deliver(cfg, old(Boundary()), data, remainingBytes, next)
    {
      hide Fragment;
      ghost var stack := opCode[..opStack + 1];
      assert stack[|stack| - 1] == opCode[opStack];
      broken := HandleFragment(data, remainingBytes, opCode[opStack], lastFin);
    }

    /** After admission the payload of the frame may be handed on. */
    lemma AdmittedExpects(c: Conn, h: seq<Byte>)
      requires Shape() && fate.Running? && opStack >= 0
      requires WellFormed(cfg, c) && AtBoundary(c) && WholeHead(cfg, h)
      requires Objection(cfg, c, h).Running? && Boundary() == Started(c, h)
      ensures Expecting(PayloadLength(h))
    {
      var stack := opCode[..opStack + 1];
      assert stack == Started(c, h).stack && stack[|stack| - 1] == opCode[opStack];
    }

    /** Between two frames, with nothing kept from an earlier read. */
    ghost predicate BetweenFrames()
      reads this
    {
      Shape() && fate.Running? && wantsHead && WellFormed(cfg, Boundary())
    }

    /** Unmasks a whole frame onto its own head and hands the payload on. */
    method TakeWholeFrame(buf: array<Byte>, src: nat, header: nat, payLength: nat)
      requires Expecting(payLength) && src + header + payLength + PADDING <= buf.Length
      requires header >= Short(cfg) && (cfg.isServer ==> header == 6 || header == 8 || header == 14)
      modifies this, buf
      ensures Shape() && wantsHead == old(wantsHead) && spill == old(spill)
      ensures Boundary() == Deliver(cfg, old(Boundary()),
                                    Unmask(old(buf[src + header..src + header + payLength]),
                                           MaskOf(cfg, old(buf[src..src + header]))), 0, [])
      ensures forall j :: src + header + payLength <= j < buf.Length ==> buf[j] == old(buf[j])
    {
      hide Deliver, Unmask, WellFormed;
      ghost var h, payload := buf[src..src + header], buf[src + header..src + header + payLength];
      if cfg.isServer {
        assert h[|h| - 4..] == buf[src + header - 4..src + header];
        UnmaskImpreciseCopyMask(buf, src + header, header, payLength);
        FinishPayload(buf[src..src + payLength]);
      } else {
        UnmaskZero(payload);
        FinishPayload(buf[src + header..src + header + payLength]);
      }
    }

    /** The head and some of the payload have arrived: unmasks what there is and remembers the rest. */
    method TakePartOfFrame(buf: array<Byte>, src: nat, length: nat, header: nat, payLength: nat)
      requires header <= length < payLength + header && Expecting(payLength)
      requires src + length + PADDING <= buf.Length
      requires header >= Short(cfg) && (cfg.isServer ==> header == 6 || header == 8 || header == 14)
      modifies this, buf
      ensures Shape() && !wantsHead && spill == []
      ensures var m := MaskOf(cfg, old(buf[src..src + header]));
              View() == Deliver(cfg, old(Boundary()), Unmask(old(buf[src + header..src + length]), m),
                                payLength - (length - header), Rotate(m, length - header))
    {
      hide Deliver, WellFormed, Rotate, Unmask;
      ghost var h, part := buf[src..src + header], buf[src + header..src + length];
      ghost var m := MaskOf(cfg, h);
      spill := [];
      wantsHead := false;
      remainingBytes := payLength - length + header;
      if cfg.isServer {
        mask := buf[src + header - 4..src + header];
        assert mask == m;
        UnmaskPart(buf, src + header, length - header, length, mask);
        RotateMask(4 - (length - header) % 4);
        RotateMod(m, length - header);
      } else {
        UnmaskZero(part);
        ZeroMaskRotates(length - header);
      }
      var broken := ContinuePayload(buf[src + header..src + length], mask);
    }

    /** An admitted frame starts at `src`; `c` is the connection before it. */
    ghost predicate Admitted(c: Conn, h: seq<Byte>)
      reads this
    {
      && Shape() && fate.Running? && opStack >= 0 && wantsHead
      && WellFormed(cfg, c) && AtBoundary(c) && WholeHead(cfg, h)
      && Objection(cfg, c, h).Running? && Boundary() == Started(c, h)
    }

    method ConsumeWholeFrame(buf: array<Byte>, src: nat, length: nat, header: nat, payLength: nat, ghost c: Conn)
      requires header + payLength <= length && src + length + PADDING <= buf.Length
      requires Admitted(c, buf[src..src + header]) && payLength == PayloadLength(buf[src..src + header])
      modifies this, buf
      ensures !fate.Running? ==> Valid() && View() == Feed(cfg, c, old(buf[src..src + length]))
      ensures fate.Running? ==>
                && BetweenFrames() && spill == []
                && Feed(cfg, c, old(buf[src..src + length]))
                   == Feed(cfg, Boundary(), buf[src + header + payLength..src + length])
    {
      hide Deliver, Unmask, Rotate, MaskOf, PayloadLength, Fragment, Feed, BadHead, Objection, Started;
      ghost var h := buf[src..src + header];
      ghost var payload, rest := buf[src + header..src + header + payLength], buf[src + header + payLength..src + length];
      ArrayParts(buf, src, src + header, src + header + payLength, src + length);
      WholeFrame(cfg, c, h, payload, rest);
      AdmittedExpects(c, h);
      TakeWholeFrame(buf, src, header, payLength);
      if fate.Running? {
        spill := [];
        assert buf[src + header + payLength..src + length] == rest;
      } else {
        FeedDead(cfg, Boundary(), rest);
      }
    }

    method ConsumePartOfFrame(buf: array<Byte>, src: nat, length: nat, header: nat, payLength: nat, ghost c: Conn)
      requires header <= length < header + payLength && src + length + PADDING <= buf.Length
      requires Admitted(c, buf[src..src + header]) && payLength == PayloadLength(buf[src..src + header])
      modifies this, buf
      ensures Valid() && View() == Feed(cfg, c, old(buf[src..src + length]))
    {
      hide Deliver, Unmask, Rotate, MaskOf, PayloadLength, Fragment, Feed, BadHead, Objection, Started;
      ghost var h := buf[src..src + header];
      ghost var part := buf[src + header..src + length];
      ArrayHalves(buf, src, src + header, src + length);
      PartFrame(cfg, c, h, part);
      AdmittedExpects(c, h);
      TakePartOfFrame(buf, src, length, header, payLength);
    }

    /** A frame whose head is complete. Takes all of it and moves on to what follows, or takes all that
        has arrived and stops. */
    method ConsumeMessage(buf: array<Byte>, src: nat, length: nat, header: nat, payLength: nat)
      returns (stop: bool, src': nat, length': nat)
      requires BetweenFrames()
      requires header <= length && src + length + PADDING <= buf.Length
      requires WholeHead(cfg, buf[src..src + header]) && payLength == PayloadLength(buf[src..src + header])
      modifies this, buf
      ensures stop ==> Valid() && View() == Feed(cfg, old(Boundary()), old(buf[src..src + length]))
      ensures !stop ==>
                && BetweenFrames() && spill == []
                && src' + length' == src + length && length' < length
                && Feed(cfg, old(Boundary()), old(buf[src..src + length]))
                   == Feed(cfg, Boundary(), buf[src'..src' + length'])
    {
      hide Feed, BadHead, Objection, Started, PayloadLength;
      ghost var c, h := Boundary(), buf[src..src + header];
      src', length' := src, length;
      var refused := AdmitFrame(buf[src..src + header], payLength);
      if refused {
        ArrayHalves(buf, src, src + header, src + length);
        RefusedFrame(cfg, c, h, buf[src + header..src + length]);
        stop := true;
      } else if payLength + header <= length {
        ConsumeWholeFrame(buf, src, length, header, payLength, c);
        stop := !fate.Running?;
        if !stop {
          src' := src + payLength + header;
          length' := length - (payLength + header);
        }
      } else {
        ConsumePartOfFrame(buf, src, length, header, payLength, c);
        stop := true;
      }
    }

    /** The last part of a payload: full groups of four, then up to three bytes more. */
    method UnmaskLastPart(buf: array<Byte>, src: nat, size: nat)
      requires |mask| == 4 && src + size <= buf.Length
      modifies buf
      ensures buf[src..src + size] == Unmask(old(buf[src..src + size]), mask)
      ensures forall j :: src + size <= j < buf.Length ==> buf[j] == old(buf[j])
    {
      var n := size / 4;
      UnmaskInplace(buf, src, src + n * 4, mask);
      var i, s := 0, size % 4;
      while i < s
        invariant i <= s
        invariant forall j :: src <= j < src + n * 4 + i ==> buf[j] == Xor(old(buf[j]), mask[(j - src) % 4])
        invariant forall j :: 0 <= j < buf.Length && !(src <= j < src + n * 4 + i) ==> buf[j] == old(buf[j])
      {
        buf[src + n * 4 + i] := Xor(buf[src + n * 4 + i], mask[i]);
        i := i + 1;
      }
    }

    /** A part in the middle of a payload that takes up the whole read. */
    method UnmaskMiddlePart(buf: array<Byte>, src: nat, size: nat)
      requires |mask| == 4 && receiveLength % 16 == 0 && src + size + PADDING <= buf.Length
      modifies buf
      ensures buf[src..src + size] == Unmask(old(buf[src..src + size]), mask)
    {
      if mask != [0, 0, 0, 0] {
        if receiveLength == size {
          UnmaskAll(buf, src, size, mask);
        } else {
          UnmaskInplace(buf, src, src + (size / 4 + 1) * 4, mask);
        }
      } else {
        UnmaskZero(buf[src..src + size]);
      }
    }

    lemma ContinuationExpects()
      requires Valid() && fate.Running? && !wantsHead
      ensures Expecting(remainingBytes)
    {
      var stack := opCode[..opStack + 1];
      assert stack[|stack| - 1] == opCode[opStack];
    }

    /** Unmasks the rest of a payload where it lies and hands it on. */
    method TakeLastPart(buf: array<Byte>, src: nat)
      requires Expecting(remainingBytes) && src + remainingBytes <= buf.Length
      modifies this, buf
      ensures Shape() && wantsHead && spill == old(spill) && remainingBytes == old(remainingBytes)
      ensures Boundary() == Deliver(cfg, old(Boundary()), Unmask(old(buf[src..src + remainingBytes]), old(mask)), 0, [])
      ensures forall j :: src + remainingBytes <= j < buf.Length ==> buf[j] == old(buf[j])
    {
      hide Deliver, Unmask;
      if cfg.isServer {
        UnmaskLastPart(buf, src, remainingBytes);
      } else {
        UnmaskZero(buf[src..src + remainingBytes]);
      }
      FinishPayload(buf[src..src + remainingBytes]);
      wantsHead := true;
    }

    /** The rest of a payload whose head came in an earlier read. */
    method ContinueToEnd(buf: array<Byte>, src: nat, length: nat)
      requires Valid() && fate.Running? && !wantsHead && remainingBytes <= length
      requires src + length + PADDING <= buf.Length
      modifies this, buf
      ensures !fate.Running? ==> Valid() && View() == Feed(cfg, old(View()), old(buf[src..src + length]))
      ensures fate.Running? ==>
                && BetweenFrames() && spill == [] && remainingBytes == old(remainingBytes)
                && Feed(cfg, old(View()), old(buf[src..src + length]))
                   == Feed(cfg, Boundary(), buf[src + remainingBytes..src + length])
    {
      hide Deliver, Unmask, Rotate, Feed, Fragment;
      ghost var c, part, rest := View(), buf[src..src + remainingBytes], buf[src + remainingBytes..src + length];
      ghost var after := Deliver(cfg, c, Unmask(part, mask), 0, []);
      ArrayHalves(buf, src, src + remainingBytes, src + length);
      FeedLastPart(cfg, c, part, rest, mask);
      DeliverIgnoresPhase(cfg, c, Head([]), Unmask(part, mask), 0, []);
      ContinuationExpects();
      TakeLastPart(buf, src);
      assert Boundary() == after;
      assert buf[src + remainingBytes..src + length] == rest;
      if !fate.Running? {
        FeedDead(cfg, after, rest);
      }
    }

    /** Unmasks some more of a payload where it lies, hands it on, and turns the mask for what is still to come. */
    method TakeMiddlePart(buf: array<Byte>, src: nat, length: nat)
      requires Expecting(length) && !wantsHead && length < remainingBytes
      requires src + length + PADDING <= buf.Length
      modifies this, buf
      ensures Shape() && !wantsHead && spill == old(spill)
      ensures View() == Deliver(cfg, old(Boundary()), Unmask(old(buf[src..src + length]), old(mask)),
                                old(remainingBytes) - length, Rotate(old(mask), length))
    {
      hide Deliver, Unmask, Rotate, WellFormed;
      ghost var part, next := buf[src..src + length], Rotate(mask, length);
      RotateMod(mask, length);
      RotateNone(mask);
      if cfg.isServer {
        UnmaskMiddlePart(buf, src, length);
      } else {
        UnmaskZero(part);
        ZeroMaskRotates(length);
      }
      remainingBytes := remainingBytes - length;
      var broken := ContinuePayload(buf[src..src + length], next);
      if broken {
        return;
      }
      if cfg.isServer && length % 4 != 0 {
        RotateMask(4 - length % 4);
      }
    }

    /** A read that brings nothing but more of a payload, and not the end of it. */
    method ContinueInTheMiddle(buf: array<Byte>, src: nat, length: nat)
      requires Valid() && fate.Running? && !wantsHead && length < remainingBytes
      requires src + length + PADDING <= buf.Length
      modifies this, buf
      ensures Valid() && View() == Feed(cfg, old(View()), old(buf[src..src + length]))
    {
      hide Deliver, Unmask, Rotate, Feed, Fragment;
      ghost var c, part := View(), buf[src..src + length];
      FeedMiddlePart(cfg, c, part);
      DeliverIgnoresPhase(cfg, c, Head([]), Unmask(part, mask), remainingBytes - length, Rotate(mask, length));
      ContinuationExpects();
      TakeMiddlePart(buf, src, length);
    }

    /** Takes frames for as long as whole heads are there, and keeps the start of an incomplete head. */
    method ParseNext(buf: array<Byte>, start: nat, size: nat)
      requires BetweenFrames() && (size == 0 ==> spill == [])
      requires start + size + PADDING <= buf.Length
      modifies this, buf
      ensures Valid() && View() == Feed(cfg, old(Boundary()), old(buf[start..start + size]))
    {
      hide Feed, BadHead, PayloadLength;
      var src: nat, length: nat := start, size;
      while length >= Short(cfg)
        invariant src + length == start + size
        invariant BetweenFrames() && (length == 0 ==> spill == [])
        invariant Feed(cfg, old(Boundary()), old(buf[start..start + size])) == Feed(cfg, Boundary(), buf[src..src + length])
        decreases length
      {
        ghost var bytes := buf[src..src + length];
        if BadHead(buf[src..src + length]) {
          FeedBadHead(cfg, Boundary(), bytes);
          fate := Refused(ProtocolError);
          return;
        }
        var header := HeadSize(cfg, buf[src..src + length]);
        if length < header {
          break;
        }
        WholeHeadPrefix(cfg, bytes);
        ArrayPrefix(buf, src, src + header, src + length);
        var stop;
        stop, src, length := ConsumeMessage(buf, src, length, header, PayloadLength(buf[src..src + header]));
        if stop {
          return;
        }
      }
      KeepSpill(buf, src, length);
    }

    /** Keeps the start of a head for the next read. */
    method KeepSpill(buf: array<Byte>, src: nat, length: nat)
      requires BetweenFrames() && (length == 0 ==> spill == []) && src + length <= buf.Length
      requires Undecided(cfg, buf[src..src + length])
      modifies `spill
      ensures Valid() && View() == Feed(cfg, old(Boundary()), buf[src..src + length])
    {
      hide Feed, BadHead, PayloadLength;
      FeedPartialHead(cfg, Boundary(), buf[src..src + length]);
      if length > 0 {
        spill := buf[src..src + length];
      }
    }

    /** Puts the spill in front of the bytes of a read. */
    method PrependSpill(buf: array<Byte>, data: nat, size: nat) returns (src: nat, length: nat)
      requires |spill| <= data && data + size <= buf.Length
      modifies buf
      ensures src == data - |spill| && length == |spill| + size
      ensures buf[src..src + length] == spill + old(buf[data..data + size])
    {
      src, length := data, size;
      if |spill| > 0 {
        src := src - |spill|;
        length := length + |spill|;
        forall j | src <= j < data {
          buf[j] := spill[j - src];
        }
      }
      ArrayHalves(buf, src, data, data + size);
    }

    /** One read of `size` bytes at `data`: WebSocketProtocol::consume. */
    method Consume(buf: array<Byte>, data: nat, size: nat)
      requires Valid() && fate.Running?
      requires Long(cfg) - 1 <= data && data + size + PADDING <= buf.Length
      modifies this, buf
      ensures Valid() && View() == Feed(cfg, old(View()), old(buf[data..data + size]))
    {
      hide Feed;
      var src: nat, length: nat := data, size;
      if wantsHead {
        ghost var bytes := buf[data..data + size];
        src, length := PrependSpill(buf, data, size);
        FeedSpill(cfg, Boundary(), spill, bytes);
        ParseNext(buf, src, length);
      } else if remainingBytes <= length {
        var n := remainingBytes;
        ContinueToEnd(buf, src, length);
        if fate.Running? {
          ParseNext(buf, src + n, length - n);
        }
      } else {
        ContinueInTheMiddle(buf, src, length);
      }
    }

    /** The data callback of the event loop: a connection that is over takes no notice of what still comes. */
    method OnData(buf: array<Byte>, data: nat, size: nat)
      requires Valid()
      requires Long(cfg) - 1 <= data && data + size + PADDING <= buf.Length
      modifies this, buf
      ensures Valid() && View() == Feed(cfg, old(View()), old(buf[data..data + size]))
    {
      if fate.Running? {
        Consume(buf, data, size);
      } else {
        FeedDead(cfg, View(), buf[data..data + size]);
      }
    }

    /** The event loop: each read is placed in the receive buffer, behind room for the spill, and handed on.
        However the stream has been cut into reads, the result is that of the whole stream. */
    method ReceiveAll(buf: array<Byte>, segments: seq<seq<Byte>>)
      requires Valid()
      requires forall i :: 0 <= i < |segments| ==> Long(cfg) - 1 + |segments[i]| + PADDING <= buf.Length
      modifies this, buf
      ensures Valid() && View() == Feed(cfg, old(View()), Concat(segments))
    {
      hide Feed, WellFormed;
      ghost var start := View();
      var i := 0;
      assert segments[0..] == segments;
      while i < |segments|
        invariant i <= |segments| && Valid() && WellFormed(cfg, View())
        invariant FeedAll(cfg, View(), segments[i..]) == FeedAll(cfg, start, segments)
      {
        assert segments[i..][0] == segments[i] && segments[i..][1..] == segments[i + 1..];
        var at := Long(cfg) - 1;
        forall j | 0 <= j < |segments[i]| {
          buf[at + j] := segments[i][j];
        }
        assert buf[at..at + |segments[i]|] == segments[i];
        OnData(buf, at, |segments[i]|);
        i := i + 1;
      }
      FeedAllIsFeed(cfg, start, segments);
    }
  }
}
