/** The WebSocket wire format read one byte at a time.

    This is the specification of the receiving side: a machine that takes a single byte per step,
    so that how the bytes were grouped into reads cannot matter to it. The parser class is proved to
    do, for a whole read, what this machine does for the bytes of the read one after another. */
module FrameMachine {
  import opened Bytes
  import opened Utf8

  /** Role and payload limit of one connection; the limit is an unsigned 32-bit setting. */
  datatype Config = Config(isServer: bool, maxPayload: nat)

  datatype Event =
    | Message(op: nat, data: seq<Byte>)
    | Ping(data: seq<Byte>)
    | Pong(data: seq<Byte>)

  datatype Refusal = ProtocolError | TooBig | InvalidText

  datatype Fate =
    | Running
    | Refused(why: Refusal)
    | Ended(code: nat, reason: seq<Byte>)

  const TEXT := 1
  const BINARY := 2
  const CLOSE := 8
  const PING := 9
  const PONG := 10

  // ---------------------------------------------------------------- frame heads

  function Short(cfg: Config): nat { if cfg.isServer then 6 else 2 }
  function Medium(cfg: Config): nat { if cfg.isServer then 8 else 4 }
  function Long(cfg: Config): nat { if cfg.isServer then 14 else 10 }

  predicate Fin(b: Byte) { b / 128 == 1 }
  predicate Rsv1(b: Byte) { b / 64 % 2 == 1 }
  predicate Rsv23(b: Byte) { b / 16 % 4 != 0 }
  function OpCodeOf(b: Byte): nat { b % 16 }
  function ShortLength(b: Byte): nat { b % 128 }

  /** Reserved bits, reserved opcodes, and control frames that are fragmented or too long. Compression
      is never negotiated, so the first reserved bit is an error as well. */
  predicate BadHead(h: seq<Byte>)
    requires |h| >= 2
  {
    || Rsv1(h[0])
    || Rsv23(h[0])
    || 2 < OpCodeOf(h[0]) < 8
    || OpCodeOf(h[0]) > 10
    || (OpCodeOf(h[0]) > 2 && (!Fin(h[0]) || ShortLength(h[1]) > 125))
  }

  function HeadSize(cfg: Config, h: seq<Byte>): nat
    requires |h| >= 2
  {
    if ShortLength(h[1]) < 126 then Short(cfg)
    else if ShortLength(h[1]) == 126 then Medium(cfg)
    else Long(cfg)
  }

  function PayloadLength(h: seq<Byte>): nat
    requires |h| >= 2
    requires ShortLength(h[1]) == 126 ==> |h| >= 4
    requires ShortLength(h[1]) == 127 ==> |h| >= 10
  {
    if ShortLength(h[1]) < 126 then ShortLength(h[1])
    else if ShortLength(h[1]) == 126 then BigEndian(h[2..4])
    else BigEndian(h[2..10])
  }

  /** The last four bytes of a head sent by a client; a server's frames are not masked. */
  function MaskOf(cfg: Config, h: seq<Byte>): (m: seq<Byte>)
    requires |h| >= Short(cfg)
    ensures |m| == 4
  {
    if cfg.isServer then h[|h| - 4..] else [0, 0, 0, 0]
  }

  /** A head of which too little has arrived to decide anything. */
  predicate Undecided(cfg: Config, h: seq<Byte>) {
    |h| < Short(cfg) || (!BadHead(h) && |h| < HeadSize(cfg, h))
  }

  // ---------------------------------------------------------------- masking

  function Rotate(m: seq<Byte>, n: nat): (r: seq<Byte>)
    requires |m| == 4
    ensures |r| == 4
  {
    [m[n % 4], m[(n + 1) % 4], m[(n + 2) % 4], m[(n + 3) % 4]]
  }

  function Unmask(s: seq<Byte>, m: seq<Byte>): (r: seq<Byte>)
    requires |m| == 4
    ensures |r| == |s|
  {
    seq(|s|, i requires 0 <= i < |s| => Xor(s[i], m[i % 4]))
  }

  // ---------------------------------------------------------------- reassembly

  datatype Inbox =
    | Open(events: seq<Event>, message: seq<Byte>, control: seq<Byte>)
    | Closed(fate: Fate, events: seq<Event>)

  function Ascii(s: string): seq<Byte> {
    seq(|s|, i requires 0 <= i < |s| => s[i] as int % 256)
  }

  /** Status code and reason of a close frame; 1005 stands for an empty payload, 1006 for an invalid one. */
  function ParseClose(data: seq<Byte>): (nat, seq<Byte>) {
    if |data| < 2 then (1005, [])
    else
      var code := BigEndian(data[..2]);
      if code < 1000 || code > 4999 || 1011 < code < 4000 || 1004 <= code <= 1006 || !ValidUtf8(data[2..])
      then (1006, Ascii("Received invalid close payload"))
      else (code, data[2..])
  }

  /** A whole message has been put together. */
  function DeliverMessage(ib: Inbox, op: nat): Inbox
    requires ib.Open?
  {
    if op == TEXT && !ValidUtf8(ib.message) then Closed(Refused(InvalidText), ib.events)
    else Open(ib.events + [Message(op, ib.message)], [], ib.control)
  }

  /** A whole control frame has been put together. */
  function DeliverControl(ib: Inbox, op: nat): Inbox
    requires ib.Open?
  {
    if op == CLOSE then
      var (code, reason) := ParseClose(ib.control);
      Closed(Ended(code, reason), ib.events)
    else if op == PING then Open(ib.events + [Ping(ib.control)], ib.message, [])
    else if op == PONG then Open(ib.events + [Pong(ib.control)], ib.message, [])
    else Open(ib.events, ib.message, [])
  }

  /** `data` is the next part of the payload of a frame of which `remaining` bytes are still to come. */
  function Fragment(cfg: Config, ib: Inbox, op: nat, fin: bool, data: seq<Byte>, remaining: nat): Inbox {
    if ib.Closed? then ib
    else if op < 3 then
      if |ib.message| + |data| > cfg.maxPayload then Closed(Refused(TooBig), ib.events)
      else
        var ib' := ib.(message := ib.message + data);
        if remaining == 0 && fin then DeliverMessage(ib', op) else ib'
    else
      var ib' := ib.(control := ib.control + data);
      if remaining == 0 && fin then DeliverControl(ib', op) else ib'
  }

  // ---------------------------------------------------------------- the machine

  datatype Phase =
    | Head(head: seq<Byte>)
    | Payload(remaining: nat, mask: seq<Byte>)

  datatype Conn =
    | Live(inbox: Inbox, phase: Phase, stack: seq<nat>, lastFin: bool)
    | Dead(fate: Fate, events: seq<Event>)

  const FRESH := Live(Open([], [], []), Head([]), [], true)

  function Settle(ib: Inbox, phase: Phase, stack: seq<nat>, lastFin: bool): Conn {
    if ib.Closed? then Dead(ib.fate, ib.events) else Live(ib, phase, stack, lastFin)
  }

  function Refuse(c: Conn, why: Refusal): Conn
    requires c.Live?
  {
    Dead(Refused(why), c.inbox.events)
  }

  /** Some of the payload of the current frame, already unmasked. */
  function Deliver(cfg: Config, c: Conn, data: seq<Byte>, remaining: nat, mask: seq<Byte>): Conn
    requires c.Live? && c.stack != []
  {
    var ib := Fragment(cfg, c.inbox, c.stack[|c.stack| - 1], c.lastFin, data, remaining);
    if remaining > 0 then Settle(ib, Payload(remaining, mask), c.stack, c.lastFin)
    else Settle(ib, Head([]), if c.lastFin then c.stack[..|c.stack| - 1] else c.stack, c.lastFin)
  }

  /** What is wrong with a frame that starts with the head `h` here; `Running` if nothing is. */
  function Objection(cfg: Config, c: Conn, h: seq<Byte>): Fate
    requires c.Live?
    requires |h| >= Short(cfg) && |h| == HeadSize(cfg, h)
  {
    var op := OpCodeOf(h[0]);
    if op != 0 && (|c.stack| == 2 || (!c.lastFin && op < 2)) then Refused(ProtocolError)
    else if op == 0 && c.stack == [] then Refused(ProtocolError)
    else if PayloadLength(h) > cfg.maxPayload then Refused(TooBig)
    else Running
  }

  /** The connection once the head `h` has been taken in. */
  function Started(c: Conn, h: seq<Byte>): Conn
    requires c.Live? && |h| > 0
  {
    var op := OpCodeOf(h[0]);
    c.(stack := if op != 0 then c.stack + [op] else c.stack, lastFin := Fin(h[0]))
  }

  /** The head `h` is complete. */
  function BeginFrame(cfg: Config, c: Conn, h: seq<Byte>): Conn
    requires c.Live?
    requires |h| >= Short(cfg) && |h| == HeadSize(cfg, h)
  {
    var objection := Objection(cfg, c, h);
    if !objection.Running? then Dead(objection, c.inbox.events)
    else if PayloadLength(h) == 0 then Deliver(cfg, Started(c, h), [], 0, [])
    else Started(c, h).(phase := Payload(PayloadLength(h), MaskOf(cfg, h)))
  }

  function TakeHead(cfg: Config, c: Conn, h: seq<Byte>): Conn
    requires c.Live?
    requires |h| > 0 && (|h| == 1 || Undecided(cfg, h[..|h| - 1]))
  {
    if |h| < Short(cfg) then c.(phase := Head(h))
    else if BadHead(h) then Refuse(c, ProtocolError)
    else if |h| < HeadSize(cfg, h) then c.(phase := Head(h))
    else BeginFrame(cfg, c, h)
  }

  predicate WellFormed(cfg: Config, c: Conn) {
    match c
    case Dead(fate, _) => !fate.Running?
    case Live(ib, phase, stack, lastFin) =>
      && ib.Open?
      && |ib.message| <= cfg.maxPayload
      && |stack| <= 2
      && match phase
         case Head(h) =>
           && Undecided(cfg, h)
           && ib.control == []
           && (forall i :: 0 <= i < |stack| ==> 0 < stack[i] < 3)
         case Payload(n, m) =>
           && 0 < n <= cfg.maxPayload
           && |m| == 4
           && stack != []
           && (forall i :: 0 <= i < |stack| - 1 ==> 0 < stack[i] < 3)
           && stack[|stack| - 1] > 0
           && (if stack[|stack| - 1] < 3 then ib.control == [] else lastFin && |ib.control| + n <= 125)
  }

  /** Delivering keeps the connection well formed, whole frame or part of one. */
  lemma DeliverWellFormed(cfg: Config, c: Conn, data: seq<Byte>, n: nat, m: seq<Byte>)
    requires c.Live? && c.inbox.Open? && |c.inbox.message| <= cfg.maxPayload
    requires 0 < |c.stack| <= 2 && c.stack[|c.stack| - 1] > 0
    requires forall i :: 0 <= i < |c.stack| - 1 ==> 0 < c.stack[i] < 3
    requires |m| == 4 || n == 0
    requires n <= cfg.maxPayload
    requires if c.stack[|c.stack| - 1] < 3 then c.inbox.control == []
             else c.lastFin && |c.inbox.control| + |data| + n <= 125
    ensures WellFormed(cfg, Deliver(cfg, c, data, n, m))
  {
  }

  lemma {:induction false} TakeHeadWellFormed(cfg: Config, c: Conn, h: seq<Byte>)
    requires WellFormed(cfg, c) && c.Live? && c.phase.Head?
    requires |h| > 0 && (|h| == 1 || Undecided(cfg, h[..|h| - 1]))
    ensures WellFormed(cfg, TakeHead(cfg, c, h))
  {
    if !Undecided(cfg, h) && !BadHead(h) {
      BeginFrameWellFormed(cfg, c, h);
    }
  }

  lemma {:induction false} BeginFrameWellFormed(cfg: Config, c: Conn, h: seq<Byte>)
    requires WellFormed(cfg, c) && c.Live? && c.phase.Head?
    requires |h| >= Short(cfg) && |h| == HeadSize(cfg, h) && !BadHead(h)
    ensures WellFormed(cfg, BeginFrame(cfg, c, h))
  {
    if Objection(cfg, c, h).Running? && PayloadLength(h) == 0 {
      DeliverWellFormed(cfg, Started(c, h), [], 0, []);
    }
  }

  function Step(cfg: Config, c: Conn, b: Byte): (c': Conn)
    requires WellFormed(cfg, c)
    ensures WellFormed(cfg, c')
  {
    match c
    case Dead(_, _) => c
    case Live(_, phase, _, _) =>
      match phase
      case Head(h) =>
        assert (h + [b])[..|h|] == h;
        TakeHeadWellFormed(cfg, c, h + [b]);
        TakeHead(cfg, c, h + [b])
      case Payload(n, m) =>
        DeliverWellFormed(cfg, c, [Xor(b, m[0])], n - 1, Rotate(m, 1));
        Deliver(cfg, c, [Xor(b, m[0])], n - 1, Rotate(m, 1))
  }

  function Feed(cfg: Config, c: Conn, bs: seq<Byte>): (c': Conn)
    requires WellFormed(cfg, c)
    ensures WellFormed(cfg, c')
    decreases |bs|
  {
    if bs == [] then c else Feed(cfg, Step(cfg, c, bs[0]), bs[1..])
  }
}
