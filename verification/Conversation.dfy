/** Whole conversations: what one side prints, the other side reads back.

    A message is a first fragment and any number of further ones (RFC 6455 section 5.4), and pings and
    pongs may stand before each further fragment (section 5.5). Every frame carries its own mask. */
module Conversation {
  import opened Bytes
  import opened Utf8
  import opened FrameMachine
  import opened FrameFeed
  import opened Printer

  datatype Control = Control(isPing: bool, data: seq<Byte>, mask: seq<Byte>)
  datatype Part = Part(before: seq<Control>, data: seq<Byte>, mask: seq<Byte>)
  datatype Item =
    | Alone(control: Control)
    | Fragmented(op: nat, first: seq<Byte>, mask: seq<Byte>, more: seq<Part>)

  // ---------------------------------------------------------------- what is said

  function ControlEvent(c: Control): Event {
    if c.isPing then Ping(c.data) else Pong(c.data)
  }

  function ControlEvents(cs: seq<Control>): seq<Event> {
    if cs == [] then [] else [ControlEvent(cs[0])] + ControlEvents(cs[1..])
  }

  function PartEvents(ps: seq<Part>): seq<Event> {
    if ps == [] then [] else ControlEvents(ps[0].before) + PartEvents(ps[1..])
  }

  function PartData(ps: seq<Part>): seq<Byte> {
    if ps == [] then [] else ps[0].data + PartData(ps[1..])
  }

  function ItemEvents(item: Item): seq<Event> {
    match item
    case Alone(c) => [ControlEvent(c)]
    case Fragmented(op, first, _, more) => PartEvents(more) + [Message(op, first + PartData(more))]
  }

  function Events(items: seq<Item>): seq<Event> {
    if items == [] then [] else ItemEvents(items[0]) + Events(items[1..])
  }

  // ---------------------------------------------------------------- what may be said

  predicate ControlOk(cfg: Config, c: Control) { |c.data| <= 125 && |c.data| <= cfg.maxPayload && |c.mask| == 4 }
  predicate ControlsOk(cfg: Config, cs: seq<Control>) { forall c <- cs :: ControlOk(cfg, c) }
  predicate PartOk(cfg: Config, p: Part) { ControlsOk(cfg, p.before) && |p.mask| == 4 }
  predicate PartsOk(cfg: Config, ps: seq<Part>) { forall p <- ps :: PartOk(cfg, p) }

  predicate ItemOk(cfg: Config, item: Item) {
    match item
    case Alone(c) => ControlOk(cfg, c)
    case Fragmented(op, first, mask, more) =>
      && (op == TEXT || op == BINARY)
      && |mask| == 4 && PartsOk(cfg, more)
      && |first + PartData(more)| <= cfg.maxPayload
      && (op == TEXT ==> ValidUtf8(first + PartData(more)))
  }

  predicate ItemsOk(cfg: Config, items: seq<Item>) { forall i <- items :: ItemOk(cfg, i) }

  /** Anything within the limit may be said: pings and pongs of up to 125 bytes, binary messages, and text that is UTF-8,
      in any number of parts with any pings and pongs in between. */
  lemma ItemOkIs(cfg: Config, item: Item)
    ensures item.Alone? ==>
              (ItemOk(cfg, item) <==> |item.control.data| <= 125 && |item.control.data| <= cfg.maxPayload && |item.control.mask| == 4)
    ensures item.Fragmented? ==>
              (ItemOk(cfg, item) <==>
                && (item.op == 2 || (item.op == 1 && ValidUtf8(item.first + PartData(item.more))))
                && |item.first + PartData(item.more)| <= cfg.maxPayload && |item.mask| == 4
                && forall p <- item.more :: |p.mask| == 4
                     && forall c <- p.before :: |c.data| <= 125 && |c.data| <= cfg.maxPayload && |c.mask| == 4)
  {
    hide ValidUtf8, PartData;
  }

  // ---------------------------------------------------------------- how it is printed

  function PrintControl(cfg: Config, c: Control): seq<Byte>
    requires ControlOk(cfg, c)
  {
    PrintFrame(!cfg.isServer, c.data, if c.isPing then PING else PONG, true, c.mask)
  }

  function PrintControls(cfg: Config, cs: seq<Control>): seq<Byte>
    requires ControlsOk(cfg, cs)
  {
    if cs == [] then [] else PrintControl(cfg, cs[0]) + PrintControls(cfg, cs[1..])
  }

  function PrintParts(cfg: Config, ps: seq<Part>): seq<Byte>
    requires PartsOk(cfg, ps) && |PartData(ps)| < 0x1_0000_0000_0000_0000
  {
    if ps == [] then []
    else
      assert PartOk(cfg, ps[0]);
      PrintControls(cfg, ps[0].before)
      + PrintFrame(!cfg.isServer, ps[0].data, 0, |ps| == 1, ps[0].mask)
      + PrintParts(cfg, ps[1..])
  }

  function PrintItem(cfg: Config, item: Item): seq<Byte>
    requires ItemOk(cfg, item) && cfg.maxPayload < 0x1_0000_0000
  {
    match item
    case Alone(c) => PrintControl(cfg, c)
    case Fragmented(op, first, mask, more) =>
      PrintFrame(!cfg.isServer, first, op, more == [], mask) + PrintParts(cfg, more)
  }

  function Print(cfg: Config, items: seq<Item>): seq<Byte>
    requires ItemsOk(cfg, items) && cfg.maxPayload < 0x1_0000_0000
  {
    if items == [] then [] else PrintItem(cfg, items[0]) + Print(cfg, items[1..])
  }

  // ---------------------------------------------------------------- how it is read

  /** A connection at rest: `open` holds the opcode of an unfinished message, if there is one. */
  function Resting(events: seq<Event>, message: seq<Byte>, open: seq<nat>, lastFin: bool): Conn {
    Live(Open(events, message, []), Head([]), open, lastFin)
  }

  predicate RestingOk(cfg: Config, message: seq<Byte>, open: seq<nat>) {
    |message| <= cfg.maxPayload && (open == [] || open == [TEXT] || open == [BINARY])
  }

  lemma {:induction false} ReadControl(cfg: Config, ev: seq<Event>, msg: seq<Byte>, open: seq<nat>, lastFin: bool, c: Control,
                    rest: seq<Byte>)
    requires RestingOk(cfg, msg, open) && ControlOk(cfg, c)
    ensures Feed(cfg, Resting(ev, msg, open, lastFin), PrintControl(cfg, c) + rest)
            == Feed(cfg, Resting(ev + [ControlEvent(c)], msg, open, true), rest)
  {
    hide Feed, FrameHead, PrintFrame;
    var conn := Resting(ev, msg, open, lastFin);
    var op := if c.isPing then PING else PONG;
    PrintedHead(cfg, |c.data|, op, true, c.mask);
    ReadFrame(cfg, conn, c.data, op, true, c.mask, rest);
    assert [] + c.data == c.data;
    assert (open + [op])[..|open|] == open;
  }

  lemma Regroup<T>(a: seq<T>, b: seq<T>, c: seq<T>, d: seq<T>)
    ensures a + b + c + d == a + (b + (c + d))
    ensures c == [] ==> a + b + d == a + (b + d)
    ensures d == [] ==> a + b + c == a + (b + c)
  {
  }

  lemma {:induction false} ReadControls(cfg: Config, ev: seq<Event>, msg: seq<Byte>, open: seq<nat>, lastFin: bool,
                                        cs: seq<Control>, rest: seq<Byte>)
    requires RestingOk(cfg, msg, open) && ControlsOk(cfg, cs)
    ensures Feed(cfg, Resting(ev, msg, open, lastFin), PrintControls(cfg, cs) + rest)
            == Feed(cfg, Resting(ev + ControlEvents(cs), msg, open, lastFin || cs != []), rest)
    decreases |cs|
  {
    hide Feed, PrintControl;
    if cs == [] {
      assert PrintControls(cfg, cs) + rest == rest;
      assert ev + ControlEvents(cs) == ev;
    } else {
      var more := PrintControls(cfg, cs[1..]);
      Regroup(PrintControl(cfg, cs[0]), more, [], rest);
      Regroup(ev, [ControlEvent(cs[0])], ControlEvents(cs[1..]), []);
      ReadControl(cfg, ev, msg, open, lastFin, cs[0], more + rest);
      ReadControls(cfg, ev + [ControlEvent(cs[0])], msg, open, true, cs[1..], rest);
    }
  }

  /** A data frame: the first of a message, or one that continues it. */
  lemma ReadData(cfg: Config, ev: seq<Event>, msg: seq<Byte>, op: nat, isFirst: bool, lastFin: bool,
                 data: seq<Byte>, fin: bool, mask: seq<Byte>, rest: seq<Byte>)
    requires op == TEXT || op == BINARY
    requires cfg.maxPayload < 0x1_0000_0000 && |msg + data| <= cfg.maxPayload && |mask| == 4
    requires isFirst ==> msg == [] && lastFin
    requires fin && op == TEXT ==> ValidUtf8(msg + data)
    ensures Feed(cfg, Resting(ev, msg, if isFirst then [] else [op], lastFin),
                 PrintFrame(!cfg.isServer, data, if isFirst then op else 0, fin, mask) + rest)
            == Feed(cfg, if fin then Resting(ev + [Message(op, msg + data)], [], [], true)
                         else Resting(ev, msg + data, [op], false), rest)
  {
    hide Feed, FrameHead, PrintFrame, ValidUtf8;
    var conn := Resting(ev, msg, if isFirst then [] else [op], lastFin);
    var wire := if isFirst then op else 0;
    PrintedHead(cfg, |data|, wire, fin, mask);
    ReadFrame(cfg, conn, data, wire, fin, mask, rest);
    assert [] + [op] == [op] && [op][..0] == [];
  }

  lemma {:induction false} ReadParts(cfg: Config, ev: seq<Event>, msg: seq<Byte>, op: nat, lastFin: bool,
                                     ps: seq<Part>, rest: seq<Byte>)
    requires op == TEXT || op == BINARY
    requires cfg.maxPayload < 0x1_0000_0000 && |msg + PartData(ps)| <= cfg.maxPayload
    requires PartsOk(cfg, ps) && ps != []
    requires op == TEXT ==> ValidUtf8(msg + PartData(ps))
    ensures Feed(cfg, Resting(ev, msg, [op], lastFin), PrintParts(cfg, ps) + rest)
            == Feed(cfg, Resting(ev + PartEvents(ps) + [Message(op, msg + PartData(ps))], [], [], true), rest)
    decreases |ps|
  {
    hide Feed, PrintControls, PrintFrame, ValidUtf8, ControlEvents;
    assert PartOk(cfg, ps[0]);
    var Part(before, data, mask) := ps[0];
    var last, more := |ps| == 1, PrintParts(cfg, ps[1..]);
    var frame := PrintFrame(!cfg.isServer, data, 0, last, mask);
    var ev' := ev + ControlEvents(before);
    Regroup(PrintControls(cfg, before), frame, more, rest);
    ReadControls(cfg, ev, msg, [op], lastFin, before, frame + (more + rest));
    assert msg + PartData(ps) == msg + data + PartData(ps[1..]);
    if last {
      assert PartData(ps) == data && more + rest == rest;
      assert PartEvents(ps) == ControlEvents(before);
      ReadData(cfg, ev', msg, op, false, lastFin || before != [], data, true, mask, more + rest);
    } else {
      ReadData(cfg, ev', msg, op, false, lastFin || before != [], data, false, mask, more + rest);
      ReadParts(cfg, ev', msg + data, op, false, ps[1..], rest);
      Regroup(ev, ControlEvents(before), PartEvents(ps[1..]), []);
    }
  }

  lemma ReadItem(cfg: Config, ev: seq<Event>, item: Item, rest: seq<Byte>)
    requires cfg.maxPayload < 0x1_0000_0000 && ItemOk(cfg, item)
    ensures Feed(cfg, Resting(ev, [], [], true), PrintItem(cfg, item) + rest)
            == Feed(cfg, Resting(ev + ItemEvents(item), [], [], true), rest)
  {
    hide Feed, PrintControl, PrintFrame, ValidUtf8;
    match item {
      case Alone(c) =>
        ReadControl(cfg, ev, [], [], true, c, rest);
      case Fragmented(op, first, mask, more) =>
        var frame := PrintFrame(!cfg.isServer, first, op, more == [], mask);
        assert PrintItem(cfg, item) + rest == frame + (PrintParts(cfg, more) + rest);
        assert [] + first == first;
        if more == [] {
          assert PrintParts(cfg, more) + rest == rest && first + PartData(more) == first;
          assert PartEvents(more) == [];
          ReadData(cfg, ev, [], op, true, true, first, true, mask, rest);
          assert ItemEvents(item) == [Message(op, first)];
        } else {
          ReadData(cfg, ev, [], op, true, true, first, false, mask, PrintParts(cfg, more) + rest);
          ReadParts(cfg, ev, first, op, false, more, rest);
          assert ev + PartEvents(more) + [Message(op, first + PartData(more))] == ev + ItemEvents(item);
        }
    }
  }

  lemma {:induction false} ReadItems(cfg: Config, ev: seq<Event>, items: seq<Item>, rest: seq<Byte>)
    requires cfg.maxPayload < 0x1_0000_0000 && ItemsOk(cfg, items)
    ensures Feed(cfg, Resting(ev, [], [], true), Print(cfg, items) + rest)
            == Feed(cfg, Resting(ev + Events(items), [], [], true), rest)
    decreases |items|
  {
    hide Feed, PrintItem, ItemEvents;
    if items == [] {
      assert Print(cfg, items) + rest == rest && ev + Events(items) == ev;
    } else {
      var more := Print(cfg, items[1..]);
      assert Print(cfg, items) + rest == PrintItem(cfg, items[0]) + (more + rest);
      assert ItemOk(cfg, items[0]);
      ReadItem(cfg, ev, items[0], more + rest);
      ReadItems(cfg, ev + ItemEvents(items[0]), items[1..], rest);
      assert ev + ItemEvents(items[0]) + Events(items[1..]) == ev + Events(items);
    }
  }

  /** Whatever is said, in either direction and with whatever masks, is heard: the same messages with the
      opcode of their first frame, and the same control frames, in the same order; in any number of reads.
      `segments` is any way of cutting up what was printed. */
  lemma {:induction false} ConversationRoundTrip(cfg: Config, items: seq<Item>, segments: seq<seq<Byte>>)
    requires cfg.maxPayload < 0x1_0000_0000 && ItemsOk(cfg, items)
    requires Concat(segments) == Print(cfg, items)
    ensures FeedAll(cfg, FRESH, segments) == Resting(Events(items), [], [], true)
  {
    hide Feed, Print, Events;
    ReadItems(cfg, [], items, []);
    assert Print(cfg, items) + [] == Print(cfg, items) && [] + Events(items) == Events(items);
    FeedAllIsFeed(cfg, FRESH, segments);
    FeedNothing(cfg, Resting(Events(items), [], [], true));
  }

  lemma FeedNothing(cfg: Config, c: Conn)
    requires WellFormed(cfg, c)
    ensures Feed(cfg, c, []) == c
  {
  }

  /** A close frame ends the connection with its code and reason, and nothing after it is looked at. */
  lemma CloseEnds(cfg: Config, items: seq<Item>, code: nat, reason: seq<Byte>, mask: seq<Byte>, after: seq<Byte>)
    requires cfg.maxPayload < 0x1_0000_0000 && ItemsOk(cfg, items)
    requires 1000 <= code <= 1003 || 1007 <= code <= 1011 || 4000 <= code <= 4999
    requires ValidUtf8(reason) && |reason| <= 123 && |reason| + 2 <= cfg.maxPayload && |mask| == 4
    ensures Feed(cfg, FRESH, Print(cfg, items) + (PrintFrame(!cfg.isServer, FormatClose(code, reason), CLOSE, true, mask) + after))
            == Dead(Ended(code, reason), Events(items))
  {
    hide Feed, Print, Events, PrintFrame, FrameHead, ValidUtf8, FormatClose, ParseClose;
    var payload := FormatClose(code, reason);
    CloseSize(code, reason);
    var wire := PrintFrame(!cfg.isServer, payload, CLOSE, true, mask);
    ReadItems(cfg, [], items, wire + after);
    assert [] + Events(items) == Events(items);
    var conn := Resting(Events(items), [], [], true);
    PrintedHead(cfg, |payload|, CLOSE, true, mask);
    ReadFrame(cfg, conn, payload, CLOSE, true, mask, after);
    CloseRoundTrip(code, reason);
    assert [] + payload == payload;
    FeedDead(cfg, Dead(Ended(code, reason), Events(items)), after);
  }

  lemma CloseSize(code: nat, reason: seq<Byte>)
    requires code < 0x10000
    ensures |FormatClose(code, reason)| <= |reason| + 2
  {
  }
}
