/** Both ends of a connection together: what is sent on a socket, over any run of its loop, is what a client reads. */
module Delivery {
  import opened Bytes
  import opened Utf8
  import opened FrameMachine
  import opened FrameFeed
  import opened Conversation
  import opened Printer
  import W = WebSocket

  /** A frame that says all by itself, as its reader sees it. */
  function ItemOf(message: seq<Byte>, op: nat): Item {
    if op == PING || op == PONG then Alone(Control(op == PING, message, W.NO_MASK))
    else Fragmented(op, message, W.NO_MASK, [])
  }

  /** Whole messages, pings and pongs that the reader accepts; no other call puts out bytes of its own. */
  predicate Whole(cfg: Config, call: W.Call) {
    match call
    case SendFrame(_, message, op, fin) => fin && |message| < 0x7FFF_FFFF && ItemOk(cfg, ItemOf(message, op))
    case WriteBytes(_, bytes, _) => bytes == []
    case TakeSlot(_, bytes) => bytes == []
    case UncorkSocket(_, bytes, _) => bytes == []
    case _ => true
  }

  /** Among the frames that count are text that is UTF-8, binary data, and pings and pongs of up to 125 bytes. */
  lemma WholeIs(cfg: Config, k: nat, message: seq<Byte>, op: nat, fin: bool)
    requires op in {1, 2, 9, 10}
    ensures Whole(cfg, W.SendFrame(k, message, op, fin)) <==>
              && fin && |message| < 0x7FFF_FFFF && |message| <= cfg.maxPayload
              && (op >= 9 ==> |message| <= 125) && (op == 1 ==> ValidUtf8(message))
  {
    hide ValidUtf8;
    assert PartData([]) == [] && message + [] == message;
  }

  /** What the `k`-th socket has been given to send and has not dropped. */
  function NotDropped(calls: seq<W.Call>, reports: seq<W.Report>, k: nat): (items: seq<Item>)
    requires |reports| == |calls|
  {
    if calls == [] then []
    else
      var n := |calls| - 1;
      NotDropped(calls[..n], reports[..n], k)
      + if calls[n].SendFrame? && calls[n].socket == k && reports[n] != W.Sent(W.Dropped)
        then [ItemOf(calls[n].message, calls[n].op)] else []
  }

  lemma {:induction false} PrintMore(cfg: Config, items: seq<Item>, item: Item)
    requires ItemsOk(cfg, items) && ItemOk(cfg, item) && cfg.maxPayload < 0x1_0000_0000
    ensures Print(cfg, items + [item]) == Print(cfg, items) + PrintItem(cfg, item)
  {
    hide PrintItem, ItemOk;
    if items == [] {
      assert [item][1..] == [] && Print(cfg, []) == [];
    } else {
      PrintMore(cfg, items[1..], item);
      assert (items + [item])[1..] == items[1..] + [item];
    }
  }

  /** The frame of a whole message is what is printed for it. */
  lemma FrameIsItem(cfg: Config, message: seq<Byte>, op: nat)
    requires !cfg.isServer && cfg.maxPayload < 0x1_0000_0000
    requires |message| < 0x7FFF_FFFF && ItemOk(cfg, ItemOf(message, op))
    ensures op < 16 && W.Frame(message, op, true) == PrintItem(cfg, ItemOf(message, op))
  {
    hide PrintFrame;
    assert PrintParts(cfg, []) == [];
  }

  lemma {:induction false} TranscriptIsPrinted(cfg: Config, calls: seq<W.Call>, reports: seq<W.Report>, k: nat)
    requires !cfg.isServer && cfg.maxPayload < 0x1_0000_0000 && |reports| == |calls|
    requires forall i :: 0 <= i < |calls| ==> W.Answers(calls[i], reports[i])
    requires forall i :: 0 <= i < |calls| && calls[i].socket == k ==> Whole(cfg, calls[i])
    ensures ItemsOk(cfg, NotDropped(calls, reports, k))
    ensures W.Transcript(calls, reports, k) == Print(cfg, NotDropped(calls, reports, k))
  {
    hide PrintItem, ItemOk, W.Frame, Print, ItemOf;
    if calls == [] {
      PrintNothing(cfg);
    } else {
      var n := |calls| - 1;
      var items := NotDropped(calls[..n], reports[..n], k);
      TranscriptIsPrinted(cfg, calls[..n], reports[..n], k);
      assert W.Answers(calls[n], reports[n]);
      if calls[n].SendFrame? && calls[n].socket == k && reports[n] != W.Sent(W.Dropped) {
        FrameIsItem(cfg, calls[n].message, calls[n].op);
        PrintMore(cfg, items, ItemOf(calls[n].message, calls[n].op));
      } else {
        assert items + [] == items && Print(cfg, items) + [] == Print(cfg, items);
      }
    }
  }

  lemma PrintNothing(cfg: Config)
    requires cfg.maxPayload < 0x1_0000_0000
    ensures Print(cfg, []) == []
  {
  }

  /** Whatever happened on the way, to this socket and others, corking, partial writes and drops included: a client that
      reads a socket's stream, cut anywhere, gets exactly the messages that were not dropped, in order. */
  lemma SentIsRead(cfg: Config, maxBackpressure: nat, states: seq<seq<W.Line>>, calls: seq<W.Call>, reports: seq<W.Report>,
                   k: nat, segments: seq<seq<Byte>>)
    requires !cfg.isServer && cfg.maxPayload < 0x1_0000_0000
    requires W.Chain(maxBackpressure, states, calls, reports) && k < |states[0]| && W.Stream(states[0][k]) == []
    requires forall i :: 0 <= i < |calls| && calls[i].socket == k ==> Whole(cfg, calls[i])
    requires k < |states[|calls|]| && Concat(segments) == W.Stream(states[|calls|][k])
    ensures FeedAll(cfg, FRESH, segments) == Resting(Events(NotDropped(calls, reports, k)), [], [], true)
  {
    hide Print, Events, ItemsOk, W.Step, W.Stream, W.Transcript, Whole;
    W.StreamsGrow(maxBackpressure, states, calls, reports, k);
    TranscriptIsPrinted(cfg, calls, reports, k);
    var items := NotDropped(calls, reports, k);
    assert [] + Print(cfg, items) == Print(cfg, items);
    ConversationRoundTrip(cfg, items, segments);
  }
}
