/** Sending frames (WebSocket.h, send) for a socket that is not a subscriber, uncompressed and without TLS,
    and the event loop seen as any sequence of calls on any of its sockets. */
module WebSocket {
  import opened Bytes
  import opened AsyncSocket
  import BP = BackPressure
  import Printer

  datatype SendStatus = Backpressure | Success | Dropped

  const NO_MASK: seq<Byte> := [0, 0, 0, 0]

  function Frame(message: seq<Byte>, op: nat, fin: bool): seq<Byte>
    requires |message| < 0x7FFF_FFFF && op < 16
  {
    Printer.PrintFrame(true, message, op, fin, NO_MASK)
  }

  /** The message is over the limit of unsent bytes, counting those already sent but not yet removed. */
  ghost predicate OverLimit(s: Socket, maxBackpressure: nat)
    reads s, s.pressure
  {
    maxBackpressure != 0 && maxBackpressure < |s.pressure.buffer|
  }

  /** The socket is corked, and a frame of that size fits behind what is corked with nothing waiting ahead. */
  ghost predicate CanStayCorked(s: Socket, size: nat)
    reads s, s.pressure, s.loop
    requires s.pressure.Paid()
  {
    s.pressure.Contents() == [] && s.loop.corkedSocket == s && s.loop.corkOffset + size < 16384
  }

  /** Sends one frame, all of it or nothing. */
  method Send(s: Socket, maxBackpressure: nat, message: seq<Byte>, op: nat, fin: bool) returns (status: SendStatus)
    requires s.Valid() && s.LoopIdle()
    requires |message| < 0x7FFF_FFFF && op < 16
    modifies s, s.pressure, s.loop, s.loop.corkBuffer
    ensures s.Valid() && s.LoopIdle() && s.OthersKept()
    ensures status == Dropped <==> old(OverLimit(s, maxBackpressure))
    ensures s.Outgoing() == old(s.Outgoing()) + if status == Dropped then [] else Frame(message, op, fin)
    ensures status != Dropped ==> (status == Backpressure <==> s.pressure.Contents() != [])
    ensures status == Dropped ==> unchanged(s) && unchanged(s.pressure) && unchanged(s.loop) && unchanged(s.loop.corkBuffer)
    ensures status != Dropped && s.pressure.Contents() != [] ==> s.room == 0
    ensures status != Dropped ==>
              if old(CanStayCorked(s, |Frame(message, op, fin)|)) then unchanged(s) && s.pressure.Contents() == [] else s.Corked() == []
    ensures |s.kernel| + s.room == old(|s.kernel| + s.room)
  {
    hide CorkedBy, Joined, BP.CostsPaid, BP.FewPending, Frame;
    NoneAndAll(s.Outgoing(), []);
    FrameIsLonger(message, op, fin);
    var buffered := s.pressure.TotalLength();
    if maxBackpressure != 0 && maxBackpressure < buffered {
      return Dropped;
    }
    if |message| >= 16 * 1024 && buffered == 0 && s.loop.corkOffset == 0 {
      status := SendLong(s, message, op, fin);
    } else {
      status := SendBuffered(s, message, op, fin);
    }
  }

  lemma FrameSize(message: seq<Byte>, op: nat, fin: bool)
    requires |message| < 0x7FFF_FFFF && op < 16
    ensures |Frame(message, op, fin)| == Printer.MessageFrameSize(|message|)
  {
    hide Printer.PrintFrame;
    Printer.MessageFrameSizeExact(message, op, fin, NO_MASK);
  }

  lemma FrameIsLonger(message: seq<Byte>, op: nat, fin: bool)
    requires |message| < 0x7FFF_FFFF && op < 16
    ensures |Frame(message, op, fin)| > |message|
  {
    hide Printer.FrameHead;
  }

  lemma FrameParts(message: seq<Byte>, op: nat, fin: bool)
    requires |message| < 0x7FFF_FFFF && op < 16
    ensures Frame(message, op, fin) == Printer.FrameHead(true, |message|, op, fin, NO_MASK) + message
  {
    hide Printer.FrameHead;
  }

  /** Long messages go to the kernel straight from the application, the header in front. */
  method SendLong(s: Socket, message: seq<Byte>, op: nat, fin: bool) returns (status: SendStatus)
    requires s.Valid() && s.LoopIdle() && s.pressure.Contents() == [] && s.loop.corkOffset == 0
    requires |message| < 0x7FFF_FFFF && op < 16
    modifies s, s.pressure, s.loop
    ensures s.Valid() && s.LoopIdle() && s.OthersKept()
    ensures s.Outgoing() == old(s.Outgoing()) + Frame(message, op, fin)
    ensures status == if s.pressure.Contents() == [] then Success else Backpressure
    ensures s.pressure.Contents() != [] ==> s.room == 0
    ensures |s.kernel| + s.room == old(|s.kernel| + s.room) && s.Corked() == []
  {
    hide CorkedBy, Joined, BP.CostsPaid, BP.FewPending, Frame, Printer.FrameHead;
    s.CorkedIs();
    var header := Printer.FrameHead(true, |message|, op, fin, NO_MASK);
    FrameParts(message, op, fin);
    var complete := WriteBoth(s, header, message);
    if !complete {
      s.UncorkWithoutSending();
      s.CorkedIs();
      return Backpressure;
    }
    s.CorkedIs();
    return Success;
  }

  /** Buffers what the kernel left of the header or of the message. */
  method BufferUnsent(s: Socket, header: seq<Byte>, message: seq<Byte>, written: nat)
    requires s.pressure.Valid() && written <= |header| + |message|
    modifies s.pressure
    ensures s.pressure.Valid()
    ensures s.pressure.Contents() == old(s.pressure.Contents()) + (header + message)[written..]
  {
    if written > |header| {
      s.pressure.Append(message[written - |header|..]);
      assert (header + message)[written..] == message[written - |header|..];
    } else {
      s.pressure.Append(header[written..]);
      s.pressure.Append(message);
      assert (header + message)[written..] == header[written..] + message;
    }
  }

  /** us_socket_write2. */
  method WriteBoth(s: Socket, header: seq<Byte>, message: seq<Byte>) returns (complete: bool)
    requires s.Valid() && s.pressure.Contents() == [] && s.loop.corkOffset == 0
    modifies s, s.pressure
    ensures s.Valid() && s.Outgoing() == old(s.Outgoing()) + (header + message)
    ensures complete <==> s.pressure.Contents() == []
    ensures !complete ==> s.room == 0
    ensures |s.kernel| + s.room == old(|s.kernel| + s.room)
  {
    hide CorkedBy, Joined, BP.CostsPaid, BP.FewPending;
    ghost var whole, before := header + message, s.kernel;
    s.CorkedIs();
    NoneAndAll(before, whole);
    var written := s.KernelWrite(header + message);
    JoinedKernel(before, whole, written);
    complete := written == |header| + |message|;
    if !complete {
      NoneAndAll(before, whole[written..]);
      BufferUnsent(s, header, message, written);
    }
    s.CorkedIs();
  }

  method SendBuffered(s: Socket, message: seq<Byte>, op: nat, fin: bool) returns (status: SendStatus)
    requires s.Valid() && s.LoopIdle()
    requires |message| < 0x7FFF_FFFF && op < 16
    modifies s, s.pressure, s.loop, s.loop.corkBuffer
    ensures s.Valid() && s.LoopIdle() && s.OthersKept()
    ensures s.Outgoing() == old(s.Outgoing()) + Frame(message, op, fin)
    ensures status == if s.pressure.Contents() == [] then Success else Backpressure
    ensures s.pressure.Contents() != [] ==> s.room == 0
    ensures |s.kernel| + s.room == old(|s.kernel| + s.room)
    ensures if old(CanStayCorked(s, |Frame(message, op, fin)|)) then unchanged(s) && s.pressure.Contents() == [] else s.Corked() == []
  {
    hide CorkedBy, Joined, BP.CostsPaid, BP.FewPending, Frame, Printer.PrintFrame;
    FrameSize(message, op, fin);
    var frame := Frame(message, op, fin);
    var attribute, offset := s.GetSendBuffer(Printer.MessageFrameSize(|message|));
    label asked:
    s.Fill(attribute, offset, frame);
    label filled:
    status := Conclude(s, attribute, offset, |frame|);
  }

  /** The drain or uncork that the kind of the slot asks for. */
  method Conclude(s: Socket, attribute: SendBufferAttribute, ghost offset: nat, ghost size: nat) returns (status: SendStatus)
    requires s.SlotOk(attribute, offset, size) && s.LoopIdle()
    modifies s, s.pressure, s.loop, s.loop.corkBuffer
    ensures s.Valid() && s.LoopIdle() && s.OthersKept() && s.Outgoing() == old(s.Outgoing())
    ensures status == if s.pressure.Contents() == [] then Success else Backpressure
    ensures s.pressure.Contents() != [] ==> s.room == 0
    ensures |s.kernel| + s.room == old(|s.kernel| + s.room)
    ensures if attribute.NeedsNothing? then unchanged(s) && s.pressure.Contents() == [] else s.Corked() == []
  {
    hide CorkedBy, Joined, BP.CostsPaid, BP.FewPending;
    s.CorkedIs();
    NoneAndAll(s.Outgoing(), []);
    if attribute.NeedsDrain? {
      var written, failed := s.Write([], false);
      s.CorkedIs();
      return if failed then Backpressure else Success;
    } else if attribute.NeedsUncork? {
      var written, failed := s.Uncork([], false);
      s.CorkedIs();
      return if failed then Backpressure else Success;
    }
    return Success;
  }

  // ---------------------------------------------------------------- one socket's line

  /** Where the bytes of a socket are: in the kernel, which has room for some more, waiting in its own buffer, whose
      size includes what is still to be removed, or in the cork buffer while the socket is corked. */
  datatype Line = Line(kernel: seq<Byte>, room: nat, waiting: seq<Byte>, buffered: nat, corking: bool, corked: seq<Byte>)

  ghost function LineOf(s: Socket): (l: Line)
    reads s, s.pressure, s.loop, s.loop.corkBuffer
    requires s.Valid()
  {
    Line(s.kernel, s.room, s.pressure.Contents(), |s.pressure.buffer|, s.loop.corkedSocket == s, s.Corked())
  }

  /** All bytes accepted for the socket, in the order they will leave. */
  function Stream(l: Line): seq<Byte> {
    Joined(l.kernel, l.waiting, l.corked)
  }

  /** Nothing waits behind corked bytes, and at most one thirty-second of the buffer is still to be removed. */
  predicate LineOk(l: Line) {
    && (l.corked != [] ==> l.corking && l.waiting == [])
    && |l.waiting| <= l.buffered && 32 * (l.buffered - |l.waiting|) <= l.buffered
  }

  /** The bytes ahead of a write that the kernel has to take before any of it goes there: those waiting, and those
      corked if `length` more do not fit behind them. */
  function AheadOn(l: Line, length: nat): nat {
    |l.waiting| + if l.corking && |l.corked| + length > CORK_BUFFER_SIZE then |l.corked| else 0
  }

  /** How many of `length` bytes to be written stay out of the kernel without being left over: those that are corked. */
  function Kept(l: Line, length: nat): nat {
    if l.corking && |l.corked| + length <= CORK_BUFFER_SIZE then length else 0
  }

  /** What an ordinary write reports: it fails if the kernel does not take all it is given. Even then its bytes are
      accepted, unless they were to go through the cork buffer and that could not be flushed. A write that is
      optional accepts what the kernel takes. */
  predicate WriteReport(l: Line, length: nat, optionally: bool, count: nat, failed: bool) {
    && (failed <==> l.room < AheadOn(l, length) + length - Kept(l, length))
    && count == (if !failed then length
                 else if optionally then (if l.room < AheadOn(l, length) then 0 else l.room - AheadOn(l, length))
                 else if l.corking && |l.corked| > 0 && |l.corked| + length > CORK_BUFFER_SIZE && l.room < |l.corked| then 0
                 else length)
  }

  // ---------------------------------------------------------------- calls

  /** What can happen to a socket of the loop. `TakeSlot` is getSendBuffer with the slot filled in; `KernelRoom` is
      the kernel having room for so many bytes, without anybody being told. */
  datatype Call =
    | SendFrame(socket: nat, message: seq<Byte>, op: nat, fin: bool)
    | WriteBytes(socket: nat, bytes: seq<Byte>, optionally: bool)
    | TakeSlot(socket: nat, bytes: seq<Byte>)
    | CorkSocket(socket: nat)
    | UncorkSocket(socket: nat, bytes: seq<Byte>, optionally: bool)
    | KernelRoom(socket: nat, room: nat)

  predicate CallOk(call: Call, sockets: nat) {
    call.socket < sockets && (call.SendFrame? ==> |call.message| < 0x7FFF_FFFF && call.op < 16)
  }

  /** What a call returns. */
  datatype Report = Sent(status: SendStatus) | Written(count: nat, failed: bool) | Quiet

  predicate Answers(call: Call, report: Report) {
    match call
    case SendFrame(_, message, op, _) => report.Sent? && |message| < 0x7FFF_FFFF && op < 16
    case WriteBytes(_, bytes, _) => report.Written? && report.count <= |bytes|
    case UncorkSocket(_, bytes, _) => report.Written? && report.count <= |bytes|
    case _ => report.Quiet?
  }

  /** What a call has put into the stream of its socket, going by its report. */
  function Contribution(call: Call, report: Report): seq<Byte>
    requires Answers(call, report)
  {
    match call
    case SendFrame(_, message, op, fin) => if report.status == Dropped then [] else Frame(message, op, fin)
    case WriteBytes(_, bytes, _) => bytes[..report.count]
    case UncorkSocket(_, bytes, _) => bytes[..report.count]
    case TakeSlot(_, bytes) => bytes
    case _ => []
  }

  /** What a call on the socket does to its line, and that its report is true. `busy` says that somebody else has
      bytes in the cork buffer. */
  predicate Does(maxBackpressure: nat, busy: bool, l: Line, call: Call, report: Report, m: Line) {
    && Answers(call, report) && LineOk(m)
    && Stream(m) == Stream(l) + Contribution(call, report)
    && (!call.KernelRoom? ==> |m.kernel| + m.room == |l.kernel| + l.room)
    && match call
       case SendFrame(_, _, _, _) =>
         && (report.status == Dropped <==> maxBackpressure != 0 && maxBackpressure < l.buffered)
         && (report.status == Dropped ==> m == l)
         && (report.status == Success ==> m.waiting == [])
         && (report.status == Backpressure ==> m.waiting != [] && m.room == 0)
         && (report.status != Dropped ==>
               if l.waiting == [] && l.corking && |l.corked| + |Contribution(call, report)| < 16384
               then m.kernel == l.kernel && m.waiting == [] else m.corked == [])
       case WriteBytes(_, bytes, optionally) =>
         && WriteReport(l, |bytes|, optionally, report.count, report.failed)
         && (if report.failed then m.room == 0
             else m.waiting == [] && m.room == l.room - (AheadOn(l, |bytes|) + |bytes| - Kept(l, |bytes|)))
         && (report.failed && !optionally ==> m.waiting != [])
       case UncorkSocket(_, bytes, optionally) =>
         if !l.corking then report == Written(0, false) && m == l
         else
           && !m.corking
           && (report.failed <==> l.room < |l.waiting| + |l.corked| + |bytes|)
           && (if report.failed then m.room == 0
               else report.count == |bytes| && m.waiting == [] && m.room == l.room - (|l.waiting| + |l.corked| + |bytes|))
           && (!optionally ==> report.count == if l.room < |l.corked| then 0 else |bytes|)
           && (optionally && report.failed ==>
                 report.count == if l.room < |l.waiting| + |l.corked| then 0 else l.room - |l.waiting| - |l.corked|)
       case TakeSlot(_, _) => m.kernel == l.kernel
       case CorkSocket(_) => m == if busy then l else l.(corking := true)
       case KernelRoom(_, room) => m == l.(room := room)
  }

  /** What a call does to the line of another socket: at most that socket loses an empty cork buffer. */
  predicate Unmoved(l: Line, m: Line) {
    m == l || (l.corked == [] && m == l.(corking := false))
  }

  /** Some socket other than the `k`-th has corked bytes. */
  predicate Busy(lines: seq<Line>, k: nat) {
    exists i :: 0 <= i < |lines| && i != k && lines[i].corked != []
  }

  /** One call, and what it does to the lines of all sockets of the loop. */
  predicate Step(maxBackpressure: nat, before: seq<Line>, call: Call, report: Report, after: seq<Line>) {
    && |before| == |after| && call.socket < |before|
    && Does(maxBackpressure, Busy(before, call.socket), before[call.socket], call, report, after[call.socket])
    && forall i :: 0 <= i < |before| && i != call.socket ==> Unmoved(before[i], after[i])
  }

  // ---------------------------------------------------------------- the objects do so

  /** The sockets of one loop: nothing shared but the loop itself. */
  ghost predicate SocketsOk(loop: LoopData, sockets: seq<Socket>)
    reads loop, loop.corkBuffer, sockets, set s <- sockets :: s.pressure
  {
    && (forall i :: 0 <= i < |sockets| ==> sockets[i].loop == loop && sockets[i].Valid())
    && (forall i, j :: 0 <= i < j < |sockets| ==> sockets[i] != sockets[j] && sockets[i].pressure != sockets[j].pressure)
    && (if loop.corkedSocket == null then loop.corkOffset == 0 else loop.corkedSocket in sockets)
  }

  ghost function LinesOf(loop: LoopData, sockets: seq<Socket>): (lines: seq<Line>)
    reads loop, loop.corkBuffer, sockets, set s <- sockets :: s.pressure
    requires SocketsOk(loop, sockets)
    ensures |lines| == |sockets|
  {
    seq(|sockets|, i requires 0 <= i < |sockets|
                     reads loop, loop.corkBuffer, sockets, set s <- sockets :: s.pressure
                     requires SocketsOk(loop, sockets)
                   => LineOf(sockets[i]))
  }

  lemma LineFacts(s: Socket)
    requires s.Valid()
    ensures var l := LineOf(s);
            && l.kernel == s.kernel && l.room == s.room && l.waiting == s.pressure.Contents()
            && l.buffered == |s.pressure.buffer| && l.corking == (s.loop.corkedSocket == s)
            && |l.corked| == (if l.corking then s.loop.corkOffset else 0)
            && l.corked == s.Corked() && LineOk(l) && Stream(l) == s.Outgoing()
  {
    hide Joined;
  }

  method PerformWrite(s: Socket, maxBackpressure: nat, call: Call, ghost busy: bool) returns (report: Report)
    requires s.Valid() && s.LoopIdle() && call.WriteBytes?
    modifies s, s.pressure, s.loop, s.loop.corkBuffer
    ensures s.Valid() && s.LoopIdle() && s.OthersKept()
    ensures Does(maxBackpressure, busy, old(LineOf(s)), call, report, LineOf(s))
  {
    hide CorkedBy, Joined, BP.CostsPaid, BP.FewPending, LineOf, LineOk, Stream;
    LineFacts(s);
    var count, failed := s.Write(call.bytes, call.optionally);
    LineFacts(s);
    report := Written(count, failed);
  }

  method PerformUncork(s: Socket, maxBackpressure: nat, call: Call, ghost busy: bool) returns (report: Report)
    requires s.Valid() && s.LoopIdle() && call.UncorkSocket?
    modifies s, s.pressure, s.loop, s.loop.corkBuffer
    ensures s.Valid() && s.LoopIdle() && s.OthersKept()
    ensures Does(maxBackpressure, busy, old(LineOf(s)), call, report, LineOf(s))
  {
    hide CorkedBy, Joined, BP.CostsPaid, BP.FewPending, LineOf, LineOk, Stream;
    LineFacts(s);
    var count, failed := s.Uncork(call.bytes, call.optionally);
    LineFacts(s);
    report := Written(count, failed);
  }

  method PerformSend(s: Socket, maxBackpressure: nat, call: Call, ghost busy: bool) returns (report: Report)
    requires s.Valid() && s.LoopIdle() && call.SendFrame? && CallOk(call, call.socket + 1)
    modifies s, s.pressure, s.loop, s.loop.corkBuffer
    ensures s.Valid() && s.LoopIdle() && s.OthersKept()
    ensures Does(maxBackpressure, busy, old(LineOf(s)), call, report, LineOf(s))
  {
    hide CorkedBy, Joined, BP.CostsPaid, BP.FewPending, LineOf, LineOk, Stream, Frame;
    LineFacts(s);
    var status := Send(s, maxBackpressure, call.message, call.op, call.fin);
    LineFacts(s);
    report := Sent(status);
  }

  method PerformSlot(s: Socket, maxBackpressure: nat, call: Call, ghost busy: bool) returns (report: Report)
    requires s.Valid() && s.LoopIdle() && call.TakeSlot?
    modifies s.pressure, s.loop, s.loop.corkBuffer
    ensures s.Valid() && s.LoopIdle() && s.OthersKept()
    ensures Does(maxBackpressure, busy, old(LineOf(s)), call, report, LineOf(s))
  {
    hide CorkedBy, Joined, BP.CostsPaid, BP.FewPending, LineOf, LineOk, Stream;
    LineFacts(s);
    var attribute, offset := s.GetSendBuffer(|call.bytes|);
    label asked:
    s.Fill(attribute, offset, call.bytes);
    LineFacts(s);
    report := Quiet;
  }

  method PerformCork(s: Socket, maxBackpressure: nat, call: Call, ghost busy: bool) returns (report: Report)
    requires s.Valid() && s.LoopIdle() && call.CorkSocket?
    requires busy <==> s.loop.corkOffset > 0 && s.loop.corkedSocket != s
    modifies s.loop
    ensures s.Valid() && s.LoopIdle() && s.OthersKept()
    ensures Does(maxBackpressure, busy, old(LineOf(s)), call, report, LineOf(s))
  {
    hide CorkedBy, Joined, BP.CostsPaid, BP.FewPending, LineOk, Stream;
    LineFacts(s);
    s.CorkedIs();
    if s.loop.corkOffset == 0 || s.loop.corkedSocket == s {
      s.Cork();
    }
    s.CorkedIs();
    LineFacts(s);
    report := Quiet;
  }

  /** One call on one socket. */
  method Perform(s: Socket, maxBackpressure: nat, call: Call, ghost busy: bool) returns (report: Report)
    requires s.Valid() && s.LoopIdle() && CallOk(call, call.socket + 1)
    requires busy <==> s.loop.corkOffset > 0 && s.loop.corkedSocket != s
    modifies s, s.pressure, s.loop, s.loop.corkBuffer
    ensures s.Valid() && s.LoopIdle() && s.OthersKept()
    ensures Does(maxBackpressure, busy, old(LineOf(s)), call, report, LineOf(s))
  {
    if !call.KernelRoom? {
      hide Does, LineOf;
      match call {
        case SendFrame(_, _, _, _) => report := PerformSend(s, maxBackpressure, call, busy);
        case WriteBytes(_, _, _) => report := PerformWrite(s, maxBackpressure, call, busy);
        case TakeSlot(_, _) => report := PerformSlot(s, maxBackpressure, call, busy);
        case CorkSocket(_) => report := PerformCork(s, maxBackpressure, call, busy);
        case UncorkSocket(_, _, _) => report := PerformUncork(s, maxBackpressure, call, busy);
      }
    } else {
      hide Joined, BP.CostsPaid, BP.FewPending;
      LineFacts(s);
      s.room := call.room;
      LineFacts(s);
      report := Quiet;
    }
  }

  lemma BusyIs(loop: LoopData, sockets: seq<Socket>, k: nat)
    requires SocketsOk(loop, sockets) && k < |sockets|
    ensures Busy(LinesOf(loop, sockets), k) <==> loop.corkOffset > 0 && loop.corkedSocket != sockets[k]
  {
    hide Joined, BP.CostsPaid, BP.FewPending;
    if loop.corkOffset > 0 && loop.corkedSocket != sockets[k] {
      var i :| 0 <= i < |sockets| && sockets[i] == loop.corkedSocket;
      assert LinesOf(loop, sockets)[i].corked != [];
    }
  }

  /** One call among many sockets. */
  method PerformAmong(loop: LoopData, sockets: seq<Socket>, maxBackpressure: nat, call: Call) returns (report: Report)
    requires SocketsOk(loop, sockets) && CallOk(call, |sockets|)
    modifies sockets, set s <- sockets :: s.pressure, loop, loop.corkBuffer
    ensures SocketsOk(loop, sockets)
    ensures Step(maxBackpressure, old(LinesOf(loop, sockets)), call, report, LinesOf(loop, sockets))
  {
    hide Does, Busy, CorkedBy, Joined, BP.CostsPaid, BP.FewPending;
    var k := call.socket;
    BusyIs(loop, sockets, k);
    ghost var before := LinesOf(loop, sockets);
    forall i | 0 <= i < |sockets| ensures |before[i].corked| == if before[i].corking then loop.corkOffset else 0 {
      LineFacts(sockets[i]);
    }
    report := Perform(sockets[k], maxBackpressure, call, Busy(before, k));
    forall i | 0 <= i < |sockets| && i != k
      ensures sockets[i].Valid() && sockets[i].Corked() == old(sockets[i].Corked())
    {
      sockets[k].OthersKeepOutgoing(sockets[i]);
    }
    assert SocketsOk(loop, sockets);
    forall i | 0 <= i < |sockets| && i != k ensures Unmoved(before[i], LineOf(sockets[i])) {
    }
  }

  // ---------------------------------------------------------------- every run

  /** The reports are true of a run through these states. */
  predicate Chain(maxBackpressure: nat, states: seq<seq<Line>>, calls: seq<Call>, reports: seq<Report>) {
    && |states| == |calls| + 1 && |reports| == |calls|
    && forall i :: 0 <= i < |calls| ==> Step(maxBackpressure, states[i], calls[i], reports[i], states[i + 1])
  }

  /** What the calls have put into the stream of the `k`-th socket, in the order of the calls. */
  function Transcript(calls: seq<Call>, reports: seq<Report>, k: nat): (bytes: seq<Byte>)
    requires |reports| == |calls| && forall i :: 0 <= i < |calls| ==> Answers(calls[i], reports[i])
  {
    if calls == [] then []
    else
      var n := |calls| - 1;
      Transcript(calls[..n], reports[..n], k) + if calls[n].socket == k then Contribution(calls[n], reports[n]) else []
  }

  lemma StepStreams(maxBackpressure: nat, before: seq<Line>, call: Call, report: Report, after: seq<Line>, k: nat)
    requires Step(maxBackpressure, before, call, report, after) && k < |before|
    ensures Answers(call, report) && |after| == |before|
    ensures Stream(after[k]) == Stream(before[k]) + if call.socket == k then Contribution(call, report) else []
  {
  }

  lemma AllAnswer(maxBackpressure: nat, states: seq<seq<Line>>, calls: seq<Call>, reports: seq<Report>)
    requires Chain(maxBackpressure, states, calls, reports)
    ensures forall i :: 0 <= i < |calls| ==> Answers(calls[i], reports[i])
  {
    forall i | 0 <= i < |calls| ensures Answers(calls[i], reports[i]) {
      assert Step(maxBackpressure, states[i], calls[i], reports[i], states[i + 1]);
    }
  }

  /** Over a run the stream of every socket grows by what its own calls have reported, in order. */
  lemma {:induction false} StreamsGrow(maxBackpressure: nat, states: seq<seq<Line>>, calls: seq<Call>, reports: seq<Report>, k: nat)
    requires Chain(maxBackpressure, states, calls, reports) && k < |states[0]|
    ensures forall i :: 0 <= i < |calls| ==> Answers(calls[i], reports[i])
    ensures |states[|calls|]| == |states[0]|
    ensures Stream(states[|calls|][k]) == Stream(states[0][k]) + Transcript(calls, reports, k)
  {
    hide Step, Stream, Answers, Contribution;
    AllAnswer(maxBackpressure, states, calls, reports);
    if calls != [] {
      var n := |calls| - 1;
      StreamsGrow(maxBackpressure, states[..n + 1], calls[..n], reports[..n], k);
      assert Step(maxBackpressure, states[n], calls[n], reports[n], states[n + 1]);
      StepStreams(maxBackpressure, states[n], calls[n], reports[n], states[n + 1], k);
    }
  }

  /** For every run of calls on any sockets of a loop, and any behaviour of the kernel: the reports are true, and
      kernel bytes, waiting bytes and corked bytes of every socket together are what was there at first and then what
      the calls on this socket have reported as accepted, in order. */
  method Run(loop: LoopData, sockets: seq<Socket>, maxBackpressure: nat, calls: seq<Call>)
    returns (reports: seq<Report>, ghost states: seq<seq<Line>>)
    requires SocketsOk(loop, sockets)
    requires forall call <- calls :: CallOk(call, |sockets|)
    modifies sockets, set s <- sockets :: s.pressure, loop, loop.corkBuffer
    ensures SocketsOk(loop, sockets)
    ensures Chain(maxBackpressure, states, calls, reports)
    ensures states[0] == old(LinesOf(loop, sockets)) && states[|calls|] == LinesOf(loop, sockets)
    ensures forall i :: 0 <= i < |calls| ==> Answers(calls[i], reports[i])
    ensures forall k :: 0 <= k < |sockets| ==>
              sockets[k].Outgoing() == old(sockets[k].Outgoing()) + Transcript(calls, reports, k)
  {
    hide SocketsOk, Step, Does, Answers, LineOf, Stream, Contribution;
    Streams(loop, sockets);
    reports, states := [], [LinesOf(loop, sockets)];
    var n := 0;
    while n < |calls|
      invariant n <= |calls| && SocketsOk(loop, sockets)
      invariant Chain(maxBackpressure, states, calls[..n], reports)
      invariant states[0] == old(LinesOf(loop, sockets)) && states[n] == LinesOf(loop, sockets)
    {
      assert CallOk(calls[n], |sockets|);
      var report := PerformAmong(loop, sockets, maxBackpressure, calls[n]);
      assert calls[..n + 1] == calls[..n] + [calls[n]];
      reports, states := reports + [report], states + [LinesOf(loop, sockets)];
      n := n + 1;
    }
    assert calls[..n] == calls;
    Streams(loop, sockets);
    forall k | 0 <= k < |sockets|
      ensures forall i :: 0 <= i < |calls| ==> Answers(calls[i], reports[i])
      ensures Stream(LinesOf(loop, sockets)[k]) == Stream(states[0][k]) + Transcript(calls, reports, k)
    {
      StreamsGrow(maxBackpressure, states, calls, reports, k);
    }
    AllAnswer(maxBackpressure, states, calls, reports);
  }

  lemma Streams(loop: LoopData, sockets: seq<Socket>)
    requires SocketsOk(loop, sockets)
    ensures forall k :: 0 <= k < |sockets| ==> sockets[k].Valid() && Stream(LinesOf(loop, sockets)[k]) == sockets[k].Outgoing()
  {
    forall k | 0 <= k < |sockets| ensures Stream(LinesOf(loop, sockets)[k]) == sockets[k].Outgoing() {
      LineFacts(sockets[k]);
    }
  }

  const UNUSED := Line([], 0, [], 0, false, [])

  /** Not every byte of a write that is not optional is accepted: with one byte corked and a kernel that takes
      nothing, a full buffer's worth of new bytes is lost, and the count says so. */
  lemma LostWrite(maxBackpressure: nat, states: seq<seq<Line>>, reports: seq<Report>, chunk: seq<Byte>)
    requires |chunk| == CORK_BUFFER_SIZE
    requires Chain(maxBackpressure, states, [CorkSocket(0), WriteBytes(0, [0], false), WriteBytes(0, chunk, false)], reports)
    requires states[0] == [UNUSED]
    ensures reports == [Quiet, Written(1, false), Written(0, true)] && |states[3]| == 1 && Stream(states[3][0]) == [0]
  {
    hide Frame, Unmoved;
    var calls := [CorkSocket(0), WriteBytes(0, [0], false), WriteBytes(0, chunk, false)];
    assert Step(maxBackpressure, states[0], calls[0], reports[0], states[1]);
    assert Step(maxBackpressure, states[1], calls[1], reports[1], states[2]);
    assert Stream(states[2][0]) == [0];
    assert states[2][0].corked == [0];
    assert Step(maxBackpressure, states[2], calls[2], reports[2], states[3]);
  }

  lemma FreshLine(s: Socket)
    requires s.Valid() && s.kernel == [] && s.room == 0 && s.pressure.Contents() == [] && s.loop.corkedSocket != s
    ensures LineOf(s) == UNUSED
  {
    LineFacts(s);
  }

  /** It does happen, on a fresh socket. */
  method FlushFailureLosesWrite(chunk: seq<Byte>) returns (s: Socket, reports: seq<Report>, ghost states: seq<seq<Line>>)
    requires |chunk| == CORK_BUFFER_SIZE
    ensures Chain(0, states, [CorkSocket(0), WriteBytes(0, [0], false), WriteBytes(0, chunk, false)], reports)
    ensures states[0] == [UNUSED] && reports[2] == Written(0, true)
    ensures s.Valid() && s.Outgoing() == [0]
  {
    hide Joined, BP.CostsPaid, BP.FewPending, CorkedBy, Chain, Step, Does, Transcript, Stream, Answers, LineOf, LineOk;
    var loop := new LoopData();
    s := new Socket(loop);
    FreshLine(s);
    assert LinesOf(loop, [s]) == [UNUSED];
    reports, states := Run(loop, [s], 0, [CorkSocket(0), WriteBytes(0, [0], false), WriteBytes(0, chunk, false)]);
    LostWrite(0, states, reports, chunk);
    Streams(loop, [s]);
  }
}
