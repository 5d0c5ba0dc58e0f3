/** Publish and subscribe (TopicTree.h): messages are kept once in a palette, subscribers hold 16-bit
    indices into it, and those with something pending form an intrusive doubly linked list. */
module TopicTree {
  import opened Bytes
  import opened Options

  datatype Message = Message(data: seq<Byte>, opCode: nat, compress: bool)

  const UINT16_MAX := 65535
  const MAX_INDICES := 32

  function Resolve(indices: seq<nat>, palette: seq<Message>): (messages: seq<Message>)
    requires forall i :: 0 <= i < |indices| ==> indices[i] < |palette|
    ensures |messages| == |indices|
  {
    seq(|indices|, i requires 0 <= i < |indices| => palette[indices[i]])
  }

  predicate Increasing(indices: seq<nat>) {
    forall i, j :: 0 <= i < j < |indices| ==> indices[i] < indices[j]
  }

  /** Taking the element at `k` out of a list without repetitions. */
  lemma Without<T>(list: seq<T>, k: nat)
    requires k < |list| && forall i, j :: 0 <= i < j < |list| ==> list[i] != list[j]
    ensures var rest := list[..k] + list[k + 1..];
            && (forall t :: t in rest <==> t in list && t != list[k])
            && (forall i, j :: 0 <= i < j < |rest| ==> rest[i] != rest[j])
  {
    var rest := list[..k] + list[k + 1..];
    assert list == list[..k] + [list[k]] + list[k + 1..];
    assert forall i :: 0 <= i < |rest| ==> rest[i] == list[if i < k then i else i + 1];
  }

  class Subscriber {
    var prev: Subscriber?
    var next: Subscriber?
    var messageIndices: seq<nat>
    var numMessageIndices: nat
    var topics: set<string>
    /** What the drain callback has been called with. */
    var delivered: seq<Message>

    constructor ()
      ensures |messageIndices| == MAX_INDICES == 32 && numMessageIndices == 0
      ensures topics == {} && delivered == []
    {
      prev, next := null, null;
      messageIndices := seq(MAX_INDICES, _ => 0);
      numMessageIndices := 0;
      topics := {};
      delivered := [];
    }

    /** Pending indices are below `size`, and strictly increasing as long as none has wrapped around. */
    ghost predicate Fits(size: nat)
      reads `messageIndices, `numMessageIndices
    {
      && |messageIndices| == MAX_INDICES && numMessageIndices <= MAX_INDICES
      && (forall i :: 0 <= i < numMessageIndices ==> messageIndices[i] < size)
      && (size <= UINT16_MAX + 1 ==> Increasing(messageIndices[..numMessageIndices]))
    }

    /** All that has been or will be delivered, in order: pending messages are taken from `palette`. */
    ghost function Log(palette: seq<Message>): seq<Message>
      reads `delivered, `messageIndices, `numMessageIndices
      requires Fits(|palette|)
    {
      delivered + Resolve(messageIndices[..numMessageIndices], palette)
    }

    method PushIndex(index: nat, ghost palette: seq<Message>)
      requires Fits(|palette|) && numMessageIndices < MAX_INDICES && index < |palette|
      requires |palette| <= UINT16_MAX + 1 ==> forall i :: 0 <= i < numMessageIndices ==> messageIndices[i] < index
      modifies this`messageIndices, this`numMessageIndices
      ensures Fits(|palette|) && numMessageIndices == old(numMessageIndices) + 1
      ensures Log(palette) == old(Log(palette)) + [palette[index]]
    {
      messageIndices := messageIndices[numMessageIndices := index];
      numMessageIndices := numMessageIndices + 1;
      assert messageIndices[..numMessageIndices] == old(messageIndices[..numMessageIndices]) + [index];
    }

    lemma IdleLog(palette: seq<Message>)
      requires |messageIndices| == MAX_INDICES && numMessageIndices == 0
      ensures Fits(|palette|) && Log(palette) == delivered
    {
    }

    lemma SameLog(palette: seq<Message>, more: seq<Message>)
      requires Fits(|palette|)
      ensures Fits(|palette + more|) && Log(palette + more) == Log(palette)
    {
    }
  }

  class TopicTree {
    var topics: map<string, set<Subscriber>>
    var drainableSubscribers: Subscriber?
    var outgoingMessages: seq<Message>

    /** All subscribers not freed, and the linked list from its head. */
    ghost var subscribers: set<Subscriber>
    ghost var list: seq<Subscriber>

    constructor ()
      ensures Valid() && subscribers == {} && outgoingMessages == [] && topics == map[]
    {
      topics := map[];
      drainableSubscribers := null;
      outgoingMessages := [];
      subscribers, list := {}, [];
    }

    /** prev and next are inverse, the list ends, and nobody is in it twice. */
    ghost predicate Linked()
      reads `list, `drainableSubscribers, `subscribers, subscribers`prev, subscribers`next
    {
      && (forall i :: 0 <= i < |list| ==> list[i] in subscribers)
      && (forall i, j :: 0 <= i < j < |list| ==> list[i] != list[j])
      && drainableSubscribers == (if list == [] then null else list[0])
      && (list != [] ==> list[0].prev == null && list[|list| - 1].next == null)
      && (forall i, j :: 0 <= i < j < |list| && j == i + 1 ==> list[i].next == list[j] && list[j].prev == list[i])
    }

    /** Exactly those with pending indices are listed, and all indices are below `size`. */
    ghost predicate Indexed(size: nat)
      reads `list, `subscribers, subscribers`messageIndices, subscribers`numMessageIndices
    {
      && (forall s <- subscribers :: s.Fits(size))
      && (forall s <- subscribers :: s.numMessageIndices > 0 <==> s in list)
    }

    /** Membership is recorded on both sides, and no topic without a subscriber is kept. */
    ghost predicate Membership()
      reads `topics, `subscribers, subscribers`topics
    {
      && (forall t <- topics :: topics[t] != {} && topics[t] <= subscribers)
      && (forall s <- subscribers, t <- s.topics :: t in topics && s in topics[t])
      && (forall t <- topics, s <- topics[t] :: t in s.topics)
    }

    ghost predicate Valid()
      reads this, subscribers
    {
      Linked() && Indexed(|outgoingMessages|) && Membership()
    }

    /** The list is linked both ways, ends, and holds each subscriber with something pending once and nobody else; pending
        indices lie in the palette and, unless it is longer than they can count, increase; and membership is recorded
        on both sides, with no topic kept that nobody holds. */
    lemma Invariants()
      requires Valid()
      ensures forall i :: 0 <= i < |list| ==>
                && list[i].prev == (if i == 0 then null else list[i - 1])
                && list[i].next == (if i == |list| - 1 then null else list[i + 1])
      ensures drainableSubscribers == (if list == [] then null else list[0])
      ensures forall i, j :: 0 <= i < j < |list| ==> list[i] != list[j]
      ensures forall s :: s in list <==> s in subscribers && s.numMessageIndices > 0
      ensures forall s <- subscribers :: |s.messageIndices| == 32 && s.numMessageIndices <= 32
      ensures forall s <- subscribers, i | 0 <= i < s.numMessageIndices :: s.messageIndices[i] < |outgoingMessages|
      ensures |outgoingMessages| <= 65536 ==>
                forall s <- subscribers, i, j | 0 <= i < j < s.numMessageIndices :: s.messageIndices[i] < s.messageIndices[j]
      ensures forall t <- topics :: topics[t] != {} && topics[t] <= subscribers
      ensures forall s <- subscribers, t :: t in s.topics <==> t in topics && s in topics[t]
    {
      forall i | 0 <= i < |list|
        ensures list[i].prev == (if i == 0 then null else list[i - 1])
        ensures list[i].next == (if i == |list| - 1 then null else list[i + 1])
      {
        assert i > 0 ==> list[i - 1].next == list[i];
      }
      forall s <- subscribers, i, j | |outgoingMessages| <= 65536 && 0 <= i < j < s.numMessageIndices
        ensures s.messageIndices[i] < s.messageIndices[j]
      {
        assert s.Fits(|outgoingMessages|);
        assert s.messageIndices[..s.numMessageIndices][i] < s.messageIndices[..s.numMessageIndices][j];
      }
    }

    /** Nothing is kept for nobody: the palette is empty when nothing is pending, and never too long. */
    ghost predicate Tight()
      reads `list, `outgoingMessages
    {
      (list == [] ==> outgoingMessages == []) && |outgoingMessages| <= UINT16_MAX
    }

    method UnlinkDrainableSubscriber(s: Subscriber)
      requires Linked() && s in list
      modifies this`drainableSubscribers, this`list, subscribers`prev, subscribers`next
      ensures Linked()
      ensures forall t :: t in list <==> t in old(list) && t != s
    {
      ghost var k :| 0 <= k < |list| && list[k] == s;
      ghost var before := list;
      NoRepetition();
      Without(before, k);
      hide Linked;
      UnlinkAt(s, k);
    }

    lemma LinkedHead()
      requires Linked()
      ensures drainableSubscribers == null <==> list == []
    {
    }

    lemma NoRepetition()
      requires Linked()
      ensures forall i, j :: 0 <= i < j < |list| ==> list[i] != list[j]
    {
    }

    /** The subscriber at place `k` of the list. */
    method UnlinkAt(s: Subscriber, ghost k: nat)
      requires Linked() && k < |list| && list[k] == s
      modifies this`drainableSubscribers, this`list, subscribers`prev, subscribers`next
      ensures Linked() && list == old(list)[..k] + old(list)[k + 1..]
    {
      ghost var before := list;
      assert s.prev == if k == 0 then null else list[k - 1];
      assert s.next == if k == |list| - 1 then null else list[k + 1];
      if s.prev != null {
        s.prev.next := s.next;
      }
      if s.next != null {
        s.next.prev := s.prev;
      }
      if drainableSubscribers == s {
        drainableSubscribers := s.next;
      }
      list := list[..k] + list[k + 1..];
      assert forall i :: 0 <= i < |list| ==> list[i] == if i < k then before[i] else before[i + 1];
      forall i, j | 0 <= i < j < |list| && j == i + 1
        ensures list[i].next == list[j] && list[j].prev == list[i]
      {
        if i == k - 1 {
          assert list[i] == before[k - 1] && list[j] == before[k + 1];
        } else {
          var i' := if i < k then i else i + 1;
          assert list[i] == before[i'] && list[j] == before[i' + 1];
        }
      }
    }

    /** Hands the pending messages of `s` to the callback. Does not touch the list. */
    method DrainImpl(s: Subscriber)
      requires s.Fits(|outgoingMessages|)
      modifies s`numMessageIndices, s`delivered
      ensures s.numMessageIndices == 0
      ensures s.delivered == old(s.Log(outgoingMessages))
    {
      hide Increasing;
      var n := s.numMessageIndices;
      ghost var pending := Resolve(s.messageIndices[..n], outgoingMessages);
      ghost var before := s.delivered;
      s.numMessageIndices := 0;
      var i := 0;
      while i < n
        invariant i <= n && s.numMessageIndices == 0
        invariant s.delivered == before + pending[..i]
      {
        s.delivered := s.delivered + [outgoingMessages[s.messageIndices[i]]];
        i := i + 1;
      }
    }

    /** Drains one subscriber. The palette goes with the last one to be drained; `extra` is what the caller
        is about to add to the palette and others may already hold an index to. */
    method DrainOne(s: Subscriber, ghost extra: seq<Message>)
      requires s in subscribers && Linked() && Indexed(|outgoingMessages + extra|)
      requires s.Fits(|outgoingMessages|)
      modifies this`drainableSubscribers, this`list, this`outgoingMessages
      modifies subscribers`prev, subscribers`next, s`numMessageIndices, s`delivered
      ensures Linked() && Indexed(|outgoingMessages + extra|)
      ensures s.numMessageIndices == 0 && s.Fits(|outgoingMessages|)
      ensures forall t <- subscribers :: t.Log(outgoingMessages + extra) == old(t.Log(outgoingMessages + extra))
      ensures outgoingMessages == old(outgoingMessages) || (outgoingMessages == [] && list == [])
      ensures list == [] ==> outgoingMessages == [] || old(list) == []
    {
      hide Resolve, Increasing, Linked;
      if s.numMessageIndices > 0 {
        s.SameLog(outgoingMessages, extra);
        UnlinkDrainableSubscriber(s);
        DrainImpl(s);
        LinkedHead();
        if drainableSubscribers == null {
          outgoingMessages := [];
        }
        s.IdleLog(outgoingMessages);
        s.IdleLog(outgoingMessages + extra);
      }
    }

    /** Drains everybody on the list, one after another, and leaves the list as it is. */
    method DrainList()
      requires Linked() && Indexed(|outgoingMessages|)
      modifies subscribers`numMessageIndices, subscribers`delivered
      ensures forall t <- subscribers :: t.numMessageIndices == 0 && t.delivered == old(t.Log(outgoingMessages))
    {
      hide Resolve, Increasing;
      var s := drainableSubscribers;
      ghost var k, drained: set<Subscriber> := 0, {};
      while s != null
        invariant k <= |list| && s == if k == |list| then null else list[k]
        invariant forall i :: 0 <= i < |list| ==> (list[i] in drained <==> i < k)
        invariant drained <= subscribers
        invariant forall t <- drained :: t.numMessageIndices == 0 && t.delivered == old(t.Log(outgoingMessages))
        invariant forall t <- subscribers - drained ::
                    t.numMessageIndices == old(t.numMessageIndices) && t.delivered == old(t.delivered)
        decreases |list| - k
      {
        assert old(s.Fits(|outgoingMessages|)) && s !in drained;
        DrainImpl(s);
        drained := drained + {s};
        s := s.next;
        k := k + 1;
      }
      forall t <- subscribers
        ensures t.numMessageIndices == 0 && t.delivered == old(t.Log(outgoingMessages))
      {
        if t !in drained {
          t.IdleLog(outgoingMessages);
        }
      }
    }

    /** Drains everybody and starts a new palette. */
    method Drain()
      requires Valid()
      modifies this`drainableSubscribers, this`list, this`outgoingMessages
      modifies subscribers`numMessageIndices, subscribers`delivered
      ensures Valid() && list == [] && View() == old(View())
      ensures outgoingMessages == if old(list) == [] then old(outgoingMessages) else []
      ensures old(Tight()) ==> Tight()
    {
      hide Resolve, Increasing, Membership, Linked;
      ghost var before := Logs();
      LinkedHead();
      DrainList();
      if drainableSubscribers != null {
        drainableSubscribers := null;
        list := [];
        outgoingMessages := [];
        EmptyListIsLinked();
      }
      AllIdle();
      hide Indexed;
      assert Logs() == before;
    }

    lemma AllIdle()
      requires list == [] && forall t <- subscribers :: |t.messageIndices| == MAX_INDICES && t.numMessageIndices == 0
      ensures Indexed(|outgoingMessages|) && forall t <- subscribers :: Logs()[t] == t.delivered
    {
      hide Resolve, Increasing;
      forall t <- subscribers ensures t.Fits(|outgoingMessages|) && t.Log(outgoingMessages) == t.delivered {
        t.IdleLog(outgoingMessages);
      }
    }

    lemma EmptyListIsLinked()
      requires drainableSubscribers == null && list == []
      ensures Linked()
    {
    }

    /** Drains one subscriber. */
    method DrainSubscriber(s: Subscriber)
      requires Valid() && s in subscribers
      modifies this`drainableSubscribers, this`list, this`outgoingMessages
      modifies subscribers`prev, subscribers`next, s`numMessageIndices, s`delivered
      ensures Valid() && View() == old(View())
      ensures s.numMessageIndices == 0
      ensures outgoingMessages == old(outgoingMessages) || outgoingMessages == []
      ensures old(Tight()) ==> Tight()
    {
      hide Resolve, Increasing;
      ghost var before := Logs();
      assert outgoingMessages + [] == outgoingMessages;
      DrainOne(s, []);
      assert outgoingMessages + [] == outgoingMessages;
      hide Indexed, Linked, Membership;
      assert Logs() == before;
    }

    /** Puts `s` at the head of the list. */
    method LinkAtHead(s: Subscriber)
      requires Linked() && s in subscribers && s !in list
      modifies this`drainableSubscribers, this`list, subscribers`prev, subscribers`next
      ensures Linked() && list == [s] + old(list)
    {
      s.next := drainableSubscribers;
      s.prev := null;
      if s.next != null {
        s.next.prev := s;
      }
      drainableSubscribers := s;
      list := [s] + list;
      assert forall i :: 0 < i < |list| ==> list[i] == old(list)[i - 1];
    }

    /** The palette as it will be once `message` has been pushed, and the entry the next index points to. */
    ghost function Next(message: Message): Message
      reads `outgoingMessages
    {
      (outgoingMessages + [message])[|outgoingMessages| % (UINT16_MAX + 1)]
    }

    /** Notes for `s`, which has room, that the message about to be pushed is for it. */
    method NoteIndex(s: Subscriber, ghost message: Message)
      requires s in subscribers && Linked() && Indexed(|outgoingMessages| + 1)
      requires s.numMessageIndices < MAX_INDICES && s.Fits(|outgoingMessages|)
      modifies this`drainableSubscribers, this`list
      modifies subscribers`prev, subscribers`next, s`numMessageIndices, s`messageIndices
      ensures Linked() && Indexed(|outgoingMessages| + 1)
      ensures s.Log(outgoingMessages + [message]) == old(s.Log(outgoingMessages + [message])) + [Next(message)]
      ensures list == (if old(s.numMessageIndices) == 0 then [s] + old(list) else old(list)) && s in list
      ensures s.numMessageIndices == old(s.numMessageIndices) + 1
    {
      hide Resolve, Increasing;
      var index := |outgoingMessages| % (UINT16_MAX + 1);
      assert index == |outgoingMessages| || |outgoingMessages + [message]| > UINT16_MAX + 1;
      assert index <= |outgoingMessages| && Next(message) == (outgoingMessages + [message])[index];
      hide Next;
      s.PushIndex(index, outgoingMessages + [message]);
      if s.numMessageIndices == 1 {
        LinkAtHead(s);
      }
    }

    /** Notes for `s` that the message about to be pushed is for it, draining it first if it is full. */
    method AddIndex(s: Subscriber, ghost message: Message)
      requires s in subscribers && Linked() && Indexed(|outgoingMessages| + 1) && s.Fits(|outgoingMessages|)
      modifies this`drainableSubscribers, this`list, this`outgoingMessages
      modifies subscribers`prev, subscribers`next, s`numMessageIndices, s`delivered, s`messageIndices
      ensures Linked() && Indexed(|outgoingMessages| + 1)
      ensures s.Log(outgoingMessages + [message]) == old(s.Log(outgoingMessages + [message])) + [Next(message)]
      ensures forall t <- subscribers - {s} ::
                t.Log(outgoingMessages + [message]) == old(t.Log(outgoingMessages + [message]))
      ensures outgoingMessages == old(outgoingMessages)
              || (outgoingMessages == [] && list == [s] && old(s.numMessageIndices) == 32)
      ensures s in list
      ensures if old(s.numMessageIndices) == 32 then s.numMessageIndices == 1
              else s.numMessageIndices == old(s.numMessageIndices) + 1 && s.delivered == old(s.delivered)
    {
      hide Resolve, Increasing, Next, Linked, Indexed;
      if s.numMessageIndices == MAX_INDICES {
        DrainOne(s, [message]);
      }
      NoteIndex(s, message);
    }

    /** What every subscriber gets, with the palette as it is now. */
    ghost function Logs(): (logs: map<Subscriber, seq<Message>>)
      reads `list, `outgoingMessages, `subscribers
      reads subscribers`messageIndices, subscribers`numMessageIndices, subscribers`delivered
      requires Indexed(|outgoingMessages|)
      ensures logs.Keys == subscribers
    {
      map s | s in subscribers :: s.Log(outgoingMessages)
    }

    /** The queues this tree stands for. */
    ghost function View(): Queues
      reads this, subscribers
      requires Indexed(|outgoingMessages|)
    {
      Queues(topics, Logs())
    }

    /** The state inside `publish` when the subscribers in `noted` have been given an index to `message`, which
        points to `entry`. */
    ghost predicate Publishing(before: map<Subscriber, seq<Message>>, noted: set<Subscriber>, message: Message, entry: Message)
      reads this, subscribers
    {
      && Linked() && Indexed(|outgoingMessages| + 1) && before.Keys == subscribers && noted <= subscribers
      && (forall s <- noted :: s in list)
      && (forall s <- subscribers - noted :: s.Fits(|outgoingMessages|))
      && (forall s <- subscribers ::
            s.Log(outgoingMessages + [message]) == before[s] + if s in noted then [entry] else [])
    }

    /** One subscriber more. Should this clear the palette then nobody had been given an index before. */
    method NoteOne(s: Subscriber, ghost before: map<Subscriber, seq<Message>>, ghost noted: set<Subscriber>,
                   ghost message: Message)
      requires Publishing(before, noted, message, Next(message)) && s in subscribers - noted
      modifies this`drainableSubscribers, this`list, this`outgoingMessages
      modifies subscribers`prev, subscribers`next, s`numMessageIndices, s`delivered, s`messageIndices
      ensures Publishing(before, noted + {s}, message, Next(message))
      ensures outgoingMessages == old(outgoingMessages)
              || (outgoingMessages == [] && noted == {} && old(s.numMessageIndices) == MAX_INDICES)
    {
      hide Resolve, Increasing, Next, Linked;
      AddIndex(s, message);
      forall t <- subscribers - (noted + {s})
        ensures t.Fits(|outgoingMessages|)
      {
        assert old(t.Fits(|outgoingMessages|));
        if t.numMessageIndices == 0 {
          t.IdleLog(outgoingMessages);
        }
      }
    }

    lemma StartPublishing(message: Message)
      requires Linked() && Indexed(|outgoingMessages|)
      ensures Publishing(Logs(), {}, message, Next(message))
    {
      hide Resolve, Increasing;
      forall s <- subscribers
        ensures s.Fits(|outgoingMessages| + 1) && s.Log(outgoingMessages + [message]) == s.Log(outgoingMessages)
      {
        s.SameLog(outgoingMessages, [message]);
      }
    }

    /** Nobody among `targets` has as many indices as there is room for. */
    ghost predicate RoomFor(targets: set<Subscriber>)
      reads targets`numMessageIndices
    {
      forall s <- targets :: s.numMessageIndices < MAX_INDICES
    }

    /** Gives everybody in `targets` an index to the message about to be pushed. */
    method NoteAll(targets: set<Subscriber>, ghost message: Message)
      requires Linked() && Indexed(|outgoingMessages|) && targets <= subscribers
      modifies this`drainableSubscribers, this`list, this`outgoingMessages
      modifies subscribers`prev, subscribers`next, subscribers`numMessageIndices, subscribers`delivered, subscribers`messageIndices
      ensures Publishing(old(Logs()), targets, message, Next(message))
      ensures outgoingMessages == old(outgoingMessages) || outgoingMessages == []
      ensures old(RoomFor(targets)) ==> outgoingMessages == old(outgoingMessages)
      ensures targets == {} ==> outgoingMessages == old(outgoingMessages) && list == old(list)
    {
      hide Publishing, Logs, Linked, Indexed, Membership, Next, Resolve, Increasing;
      ghost var before, palette, room := Logs(), outgoingMessages, RoomFor(targets);
      StartPublishing(message);
      var rest := targets;
      assert targets - rest == {};
      while rest != {}
        invariant rest <= targets
        invariant Publishing(before, targets - rest, message, Next(message))
        invariant outgoingMessages == palette || outgoingMessages == []
        invariant room ==> RoomFor(rest) && outgoingMessages == palette
        invariant rest == targets ==> outgoingMessages == palette && list == old(list)
        decreases rest
      {
        var s :| s in rest;
        NoteOne(s, before, targets - rest, message);
        assert targets - (rest - {s}) == targets - rest + {s};
        rest := rest - {s};
      }
      assert targets - {} == targets;
    }

    /** The entry that the index given out last points to. */
    ghost function Latest(): Message
      reads `outgoingMessages
      requires outgoingMessages != []
    {
      outgoingMessages[(|outgoingMessages| - 1) % (UINT16_MAX + 1)]
    }

    /** Publishes `message`; true if somebody wants it. Everybody who wants it gets the entry its index points to,
        which is the message as long as the palette has no more than 65536 entries. It gets longer just when a
        message is published while nothing is pending and the palette is full of what nobody waits for. */
    method Publish(sender: Subscriber?, topic: string, message: Message) returns (ok: bool)
      requires Valid()
      modifies this`drainableSubscribers, this`list, this`outgoingMessages
      modifies subscribers`prev, subscribers`next, subscribers`numMessageIndices, subscribers`delivered, subscribers`messageIndices
      ensures Valid() && (ok <==> Wanted(old(View()), sender, topic))
      ensures ok <==> topic in topics && exists s <- topics[topic] :: s != sender
      ensures !ok ==> View() == old(View()) && (outgoingMessages == old(outgoingMessages) || outgoingMessages == [])
      ensures ok ==> outgoingMessages == old(outgoingMessages) + [message] || outgoingMessages == [message]
      ensures ok ==> View() == Published(old(View()), sender, topic, Latest())
      ensures View() == Published(old(View()), sender, topic, message) <==> !ok || Latest() == message
      ensures old(|outgoingMessages|) <= UINT16_MAX ==> View() == Published(old(View()), sender, topic, message)
      ensures ok && old(RoomFor(topics[topic]) && (|outgoingMessages| == UINT16_MAX ==> list == [])) ==>
                outgoingMessages == old(outgoingMessages) + [message]
      ensures old(|outgoingMessages|) <= UINT16_MAX ==>
                (|outgoingMessages| > UINT16_MAX <==> ok && old(list == [] && |outgoingMessages| == UINT16_MAX))
      ensures old(Tight()) ==> Tight()
    {
      hide Resolve, Increasing, Published, Publishing, Linked;
      ghost var was := View();
      if topic !in topics {
        NobodyWants(sender, topic, message);
        return false;
      }
      SubscribersOf(topic);
      hide Indexed, Membership, Logs, RoomFor, Wanted, Latest;
      ok := PublishWithRoom(sender, topic, message);
      if ok {
        OneMessage(was, sender, topic, message, Latest());
        LatestIs(message);
      } else {
        NobodyWants(sender, topic, message);
      }
    }

    /** The same for a topic there is. */
    method PublishWithRoom(sender: Subscriber?, topic: string, message: Message) returns (ok: bool)
      requires Valid() && topic in topics
      modifies this`drainableSubscribers, this`list, this`outgoingMessages
      modifies subscribers`prev, subscribers`next, subscribers`numMessageIndices, subscribers`delivered, subscribers`messageIndices
      ensures Valid() && (ok <==> Wanted(old(View()), sender, topic))
      ensures !ok ==> View() == old(View()) && (outgoingMessages == old(outgoingMessages) || outgoingMessages == [])
      ensures ok ==> outgoingMessages == old(outgoingMessages) + [message] || outgoingMessages == [message]
      ensures ok ==> View() == Published(old(View()), sender, topic, Latest())
      ensures ok && old(RoomFor(topics[topic]) && (|outgoingMessages| == UINT16_MAX ==> list == [])) ==>
                outgoingMessages == old(outgoingMessages) + [message]
      ensures ok && old(list) == [] ==> outgoingMessages == old(outgoingMessages) + [message]
      ensures |outgoingMessages| == UINT16_MAX + 1 && old(|outgoingMessages|) <= UINT16_MAX ==> old(list) == []
      ensures old(Tight()) ==> Tight()
    {
      hide Resolve, Increasing, Published, Publishing, Linked, Wanted, Latest;
      SubscribersOf(topic);
      MakeRoom();
      assert old(RoomFor(topics[topic])) ==> RoomFor(topics[topic]);
      assert old(list) == [] ==> RoomFor(topics[topic]);
      hide Indexed, Membership, Logs, RoomFor;
      ok := PublishTo(sender, topic, message);
    }

    lemma LatestIs(message: Message)
      requires outgoingMessages != [] && outgoingMessages[|outgoingMessages| - 1] == message
      ensures |outgoingMessages| <= UINT16_MAX + 1 ==> Latest() == message
    {
    }

    /** A full palette is drained away, unless it is full of messages nobody is waiting for any more. */
    method MakeRoom()
      requires Valid()
      modifies this`drainableSubscribers, this`list, this`outgoingMessages
      modifies subscribers`numMessageIndices, subscribers`delivered
      ensures Valid() && View() == old(View())
      ensures outgoingMessages == if old(|outgoingMessages|) == UINT16_MAX && old(list) != [] then [] else old(outgoingMessages)
      ensures list == if old(|outgoingMessages|) == UINT16_MAX then [] else old(list)
      ensures forall s <- subscribers :: s.numMessageIndices <= old(s.numMessageIndices)
    {
      hide Resolve, Increasing;
      if |outgoingMessages| == UINT16_MAX {
        Drain();
      }
    }

    /** The loop over the topic, and the push. */
    method PublishTo(sender: Subscriber?, topic: string, message: Message) returns (ok: bool)
      requires Valid() && topic in topics
      modifies this`drainableSubscribers, this`list, this`outgoingMessages
      modifies subscribers`prev, subscribers`next, subscribers`numMessageIndices, subscribers`delivered, subscribers`messageIndices
      ensures Valid() && (ok <==> Wanted(old(View()), sender, topic))
      ensures if ok then list != [] else list == old(list) && outgoingMessages == old(outgoingMessages)
      ensures ok ==> outgoingMessages == old(outgoingMessages) + [message] || outgoingMessages == [message]
      ensures ok && old(RoomFor(topics[topic])) ==> outgoingMessages == old(outgoingMessages) + [message]
      ensures ok ==> View() == Published(old(View()), sender, topic, Latest())
      ensures !ok ==> View() == old(View())
    {
      hide Resolve, Increasing, Published, Publishing, Linked, Next;
      ghost var was, before := View(), Logs();
      SubscribersOf(topic);
      hide Membership, Indexed;
      var targets: set<Subscriber> := set s | s in topics[topic] && s != sender;
      NoteAll(targets, message);
      ghost var entry := Next(message);
      ok := Push(targets, message, before, entry);
      ViewPublished(was, before, targets, sender, topic, entry);
    }

    lemma SubscribersOf(topic: string)
      requires Membership() && topic in topics
      ensures topics[topic] <= subscribers
    {
    }

    /** Pushes the message if somebody holds an index to it. */
    method Push(targets: set<Subscriber>, message: Message, ghost before: map<Subscriber, seq<Message>>, ghost entry: Message)
      returns (wanted: bool)
      requires Publishing(before, targets, message, entry) && Membership()
      modifies this`outgoingMessages
      ensures Valid() && (wanted <==> targets != {}) && (wanted ==> list != [])
      ensures forall s <- subscribers :: s.Log(outgoingMessages) == before[s] + if s in targets then [entry] else []
      ensures outgoingMessages == if wanted then old(outgoingMessages) + [message] else old(outgoingMessages)
      ensures wanted ==> Latest() == old(Next(message))
    {
      hide Resolve, Increasing;
      wanted := targets != {};
      if wanted {
        outgoingMessages := outgoingMessages + [message];
      } else {
        forall s <- subscribers ensures s.Log(outgoingMessages) == before[s] {
          s.SameLog(outgoingMessages, [message]);
        }
      }
    }

    lemma NobodyWants(sender: Subscriber?, topic: string, message: Message)
      requires Indexed(|outgoingMessages|) && !Wanted(View(), sender, topic)
      ensures View() == Published(View(), sender, topic, message)
    {
      assert forall s <- subscribers :: Logs()[s] + [] == Logs()[s];
    }

    lemma ViewPublished(was: Queues, before: map<Subscriber, seq<Message>>, targets: set<Subscriber>,
                        sender: Subscriber?, topic: string, entry: Message)
      requires Indexed(|outgoingMessages|) && was == Queues(topics, before) && before.Keys == subscribers
      requires topic in topics && targets == set s | s in topics[topic] && s != sender
      requires forall s <- subscribers :: s.Log(outgoingMessages) == before[s] + if s in targets then [entry] else []
      ensures Wanted(was, sender, topic) <==> targets != {}
      ensures View() == Published(was, sender, topic, entry) && (targets == {} ==> View() == was)
    {
      hide Resolve, Increasing;
      var then_ := Published(was, sender, topic, entry);
      assert Logs().Keys == then_.logs.Keys;
      forall s <- subscribers ensures Logs()[s] == then_.logs[s] {
      }
      assert Logs() == then_.logs;
      if targets == {} {
        assert forall s <- topics[topic] :: s != sender ==> s in targets;
        assert forall s <- subscribers :: before[s] + [] == before[s];
        assert then_.logs == before;
      } else {
        var s :| s in targets;
        assert s in topics[topic] && s != sender;
      }
    }

    method CreateSubscriber() returns (s: Subscriber)
      requires Valid()
      modifies this`subscribers
      ensures Valid() && fresh(s) && subscribers == old(subscribers) + {s}
      ensures s.topics == {} && s.numMessageIndices == 0 && s.Log(outgoingMessages) == []
      ensures View() == Joined(old(View()), s)
    {
      hide Linked, Indexed, Membership, Logs, Resolve, Increasing;
      s := new Subscriber();
      s.IdleLog(outgoingMessages);
      Admit(s);
    }

    /** Counts a new subscriber among those of this tree. */
    ghost method Admit(s: Subscriber)
      requires Valid() && s !in subscribers
      requires |s.messageIndices| == MAX_INDICES && s.numMessageIndices == 0 && s.topics == {} && s.delivered == []
      modifies this`subscribers
      ensures Valid() && subscribers == old(subscribers) + {s}
      ensures View() == Joined(old(View()), s)
    {
      hide Resolve, Increasing;
      var was := Logs();
      s.IdleLog(outgoingMessages);
      subscribers := subscribers + {s};
      assert Linked() by { hide Indexed, Membership, Logs; }
      assert Indexed(|outgoingMessages|) by { hide Membership, Logs; }
      assert Membership() by { hide Linked, Indexed, Logs; }
      hide Linked, Indexed, Membership;
      assert Logs() == was[s := []];
    }

    /** False if `s` holds the topic already. */
    method Subscribe(s: Subscriber, topic: string) returns (ok: bool)
      requires Valid() && s in subscribers
      modifies this`topics, s`topics
      ensures Valid() && View() == Subscribed(old(View()), s, topic)
      ensures ok <==> topic !in old(s.topics)
      ensures s.topics == old(s.topics) + {topic}
    {
      hide Resolve, Increasing, Linked, Indexed, Logs;
      ghost var logs := Logs();
      var members := if topic in topics then topics[topic] else {};
      ok := topic !in s.topics;
      if ok {
        topics := topics[topic := members + {s}];
        s.topics := s.topics + {topic};
      }
      assert Logs() == logs;
      assert ok || topics[topic] == members + {s};
      assert topics == old(topics)[topic := members + {s}];
    }

    /** Whether `s` held the topic, whether it holds none any more, and how many others hold this one. */
    method Unsubscribe(s: Subscriber, topic: string) returns (ok: bool, last: bool, newCount: int)
      requires Valid() && s in subscribers
      modifies this`topics, s`topics
      ensures Valid() && View() == Unsubscribed(old(View()), s, topic)
      ensures ok <==> topic in old(s.topics)
      ensures s.topics == old(s.topics) - {topic}
      ensures ok ==> (last <==> s.topics == {}) && newCount == |old(topics[topic]) - {s}|
      ensures !ok ==> !last && newCount == -1
    {
      hide Resolve, Increasing, Linked, Indexed, Logs;
      ghost var logs := Logs();
      if topic !in topics || topic !in s.topics {
        assert topic in topics ==> s !in topics[topic];
        return false, false, -1;
      }
      s.topics := s.topics - {topic};
      var members := topics[topic] - {s};
      if members == {} {
        topics := topics - {topic};
      } else {
        topics := topics[topic := members];
      }
      assert Logs() == logs;
      return true, s.topics == {}, |members|;
    }

    /** Ends a subscriber: out of all its topics and off the list. The palette stays as it is. */
    method FreeSubscriber(s: Subscriber)
      requires Valid() && s in subscribers
      modifies this, subscribers`prev, subscribers`next
      ensures Valid() && subscribers == old(subscribers) - {s}
      ensures View() == Left(old(View()), s)
      ensures old(s.numMessageIndices) == 0 ==> list == old(list)
      ensures outgoingMessages == old(outgoingMessages)
      ensures old(Tight() && s.numMessageIndices == 0) ==> Tight()
    {
      hide Resolve, Increasing, Linked, Indexed, Logs;
      LeaveTopics(s);
      Forget(s);
    }

    /** Takes `s` off the list if it is on it. */
    method Forget(s: Subscriber)
      requires Linked() && Indexed(|outgoingMessages|) && s in subscribers
      modifies this`drainableSubscribers, this`list, this`subscribers, subscribers`prev, subscribers`next
      ensures Linked() && Indexed(|outgoingMessages|)
      ensures subscribers == old(subscribers) - {s} && Logs() == old(Logs()) - {s}
      ensures old(s.numMessageIndices) == 0 ==> list == old(list)
    {
      hide Resolve, Increasing, Linked;
      if s.numMessageIndices > 0 {
        UnlinkDrainableSubscriber(s);
      }
      Dismiss(s);
    }

    /** Counts `s`, which is not on the list any more, out. */
    ghost method Dismiss(s: Subscriber)
      requires Linked() && s !in list
      requires forall t <- subscribers :: t.Fits(|outgoingMessages|) && (t != s ==> (t.numMessageIndices > 0 <==> t in list))
      modifies this`subscribers
      ensures Linked() && Indexed(|outgoingMessages|) && subscribers == old(subscribers) - {s}
      ensures Logs() == map t | t in subscribers :: old(t.Log(outgoingMessages))
    {
      hide Resolve, Increasing;
      subscribers := subscribers - {s};
      assert Linked() by { hide Indexed, Logs; }
    }

    /** Takes `s` out of all its topics. */
    method LeaveTopics(s: Subscriber)
      requires Membership() && s in subscribers
      modifies this`topics
      ensures topics == map t | t in old(topics) && old(topics[t]) != {s} :: old(topics[t]) - {s}
    {
      var held := s.topics;
      while held != {}
        invariant held <= s.topics
        invariant forall t <- held :: t in topics && t in old(topics) && topics[t] == old(topics[t])
        invariant forall t :: t in topics <==> t in old(topics) && (t in held || old(topics[t]) != {s})
        invariant forall t <- topics :: t !in held ==> topics[t] == old(topics[t]) - {s}
        modifies this`topics
        decreases held
      {
        var t :| t in held;
        if topics[t] == {s} {
          topics := topics - {t};
        } else {
          topics := topics[t := topics[t] - {s}];
        }
        held := held - {t};
      }
    }

    /** One call of a run. */
    method Perform(call: Op<nat>, names: seq<Subscriber>, ghost gone: set<nat>) returns (named: seq<Subscriber>)
      requires Valid() && |outgoingMessages| <= UINT16_MAX
      requires NamesOk(names, gone) && CallOk(call, |names|, gone)
      modifies this, subscribers
      ensures Valid() && forall s <- subscribers :: s in old(subscribers) || fresh(s)
      ensures if call.Create? then |named| == |names| + 1 && named[..|names|] == names && fresh(named[|names|]) else named == names
      ensures NamesOk(named, gone + FreedBy(call))
      ensures OpOk(old(View()), Named(call, named)) && View() == After(old(View()), Named(call, named))
      ensures !(call.Publish? && old(Overflows(Named(call, names)))) ==> |outgoingMessages| <= UINT16_MAX
      ensures old(Tight()) && (call.Free? ==> old(names[call.s].numMessageIndices) == 0) ==> Tight()
      ensures JustDrained(call, named)
    {
      hide Linked, Indexed, Membership, Logs, Wanted, RoomFor, Latest, Resolve, Increasing, Tight;
      ViewKeys();
      hide View, Published, Joined, Subscribed, Unsubscribed, Left;
      named := names;
      match call {
        case Publish(sender, topic, message) =>
          var _ := Publish(if sender.None? then null else names[sender.value], topic, message);
        case Subscribe(k, topic) =>
          var _ := Subscribe(names[k], topic);
        case Unsubscribe(k, topic) =>
          var _, _, _ := Unsubscribe(names[k], topic);
        case DrainOne(k) =>
          DrainSubscriber(names[k]);
        case DrainAll =>
          Drain();
        case Create(_) =>
          var s := CreateSubscriber();
          named := names + [s];
        case Free(k) =>
          FreeSubscriber(names[k]);
      }
    }

    /** The publish that makes the palette longer than 16 bits can count: nothing is pending, and it is full. */
    ghost predicate Overflows(op: Op<Subscriber>)
      reads this, subscribers
      requires Indexed(|outgoingMessages|)
    {
      op.Publish? && Wanted(View(), SenderOf(op.sender), op.topic) && list == [] && |outgoingMessages| == UINT16_MAX
    }

    /** Different numbers are different subscribers, and those not in `gone` have not been freed. */
    ghost predicate NamesOk(names: seq<Subscriber>, gone: set<nat>)
      reads `subscribers
    {
      Distinct(names) && forall k :: 0 <= k < |names| && k !in gone ==> names[k] in subscribers
    }

    /** Any run keeps the tree in step with one plain queue per subscriber, however many indices a subscriber
        collects, whenever the palette fills up and is cleared, and whatever is pending for those who are freed:
        to its end, or up to the first publish that overflows the palette. There is none if nobody is freed with
        something pending. */
    method Run(calls: seq<Op<nat>>, names: seq<Subscriber>) returns (n: nat, named: seq<Subscriber>)
      requires Valid() && |outgoingMessages| <= UINT16_MAX && NamesOk(names, {}) && CallsOk(calls, |names|, {})
      modifies this, subscribers
      ensures Valid() && |outgoingMessages| <= UINT16_MAX && n <= |calls| && Distinct(named)
      ensures names <= named && forall k :: |names| <= k < |named| ==> fresh(named[k])
      ensures forall s <- subscribers :: s in old(subscribers) || fresh(s)
      ensures forall k :: 0 <= k < |named| && Free(k) !in calls[..n] ==> named[k] in subscribers
      ensures forall call <- calls[..n] :: InRange(call, |named|)
      ensures RunOk(old(View()), Ops(calls[..n], named))
      ensures View() == AfterAll(old(View()), Ops(calls[..n], named))
      ensures n < |calls| ==> InRange(calls[n], |named|) && Overflows(Named(calls[n], named))
      ensures old(Tight()) && DrainedFirst(calls) ==> n == |calls|
    {
      hide Linked, Indexed, Membership, Logs, View, After, OpOk, Tight, AfterAll, RunOk, Named, Overflows;
      hide InRange, Published, Distinct, CallsOk, CallOk, FreedBy;
      ghost var start, mine, gone: set<nat> := View(), subscribers, {};
      ghost var tight := Tight() && DrainedFirst(calls);
      n, named := 0, names;
      assert calls[0..] == calls;
      NoOps(start);
      while n < |calls|
        invariant n <= |calls| && Valid() && |outgoingMessages| <= UINT16_MAX
        invariant forall s <- subscribers :: s in mine || fresh(s)
        invariant names <= named && forall k :: |names| <= k < |named| ==> fresh(named[k])
        invariant NamesOk(named, gone) && CallsOk(calls[n..], |named|, gone)
        invariant forall k <- gone :: Free(k) in calls[..n]
        invariant forall call <- calls[..n] :: InRange(call, |named|)
        invariant RunOk(start, Ops(calls[..n], named)) && View() == AfterAll(start, Ops(calls[..n], named))
        invariant tight ==> Tight() && (n > 0 ==> JustDrained(calls[n - 1], named))
      {
        NextCall(calls, n, |named|, gone);
        var over := WouldOverflow(calls[n], named);
        if over {
          TightIsSafe(calls[n], named);
          return;
        }
        assert tight && calls[n].Free? ==> JustDrained(Op.DrainOne(calls[n].s), named);
        ghost var before := named;
        named := Perform(calls[n], named, gone);
        OneMoreOp(start, calls, n, before, named);
        gone := gone + FreedBy(calls[n]);
        n := n + 1;
      }
    }

    lemma TightIsSafe(call: Op<nat>, names: seq<Subscriber>)
      requires Indexed(|outgoingMessages|) && InRange(call, |names|)
      ensures Tight() ==> !Overflows(Named(call, names))
    {
    }

    ghost predicate JustDrained(call: Op<nat>, names: seq<Subscriber>)
      reads names`numMessageIndices
    {
      call.DrainOne? ==> call.s < |names| && names[call.s].numMessageIndices == 0
    }

    method WouldOverflow(call: Op<nat>, names: seq<Subscriber>) returns (over: bool)
      requires Linked() && Indexed(|outgoingMessages|) && (call.Publish? ==> InRange(call, |names|))
      ensures over <==> call.Publish? && Overflows(Named(call, names))
    {
      hide Indexed, Logs;
      over := call.Publish? && drainableSubscribers == null && |outgoingMessages| == UINT16_MAX && call.topic in topics
              && exists s <- topics[call.topic] :: s != if call.sender.None? then null else names[call.sender.value];
    }

    /** A run, as far as it goes, and a final drain: everybody who has not been freed has been delivered exactly what
        was due to it, behind what it had or was waiting for before. */
    method RunAndDrain(calls: seq<Op<nat>>, names: seq<Subscriber>) returns (n: nat, named: seq<Subscriber>)
      requires Valid() && |outgoingMessages| <= UINT16_MAX && NamesOk(names, {}) && CallsOk(calls, |names|, {})
      modifies this, subscribers
      ensures Valid() && n <= |calls| && names <= named
      ensures forall k :: 0 <= k < |named| && Free(k) !in calls[..n] ==>
                && named[k] in subscribers
                && named[k].delivered
                   == (if k < |names| then old(names[k].Log(outgoingMessages)) else [])
                      + Due(calls[..n], k, if k < |names| then TopicsOf(old(View()), names[k]) else iset{})
      ensures n < |calls| ==> InRange(calls[n], |named|) && Overflows(Named(calls[n], named))
      ensures old(Tight()) && DrainedFirst(calls) ==> n == |calls|
    {
      hide Linked, Membership, After, OpOk, Resolve, Increasing, Due, TopicsOf, AfterAll, RunOk, Wanted, Tight;
      ghost var start, mine := View(), subscribers;
      ProperView();
      forall k | 0 <= k < |names| ensures LogOf(start, names[k]) == names[k].Log(outgoingMessages) {
        LogIn(names[k]);
      }
      n, named := Run(calls, names);
      ghost var ran := View();
      Drain();
      forall k | |names| <= k < |named| ensures LogOf(start, named[k]) == [] && TopicsOf(start, named[k]) == iset{} {
        Strangers(start, named[k]);
      }
      forall k | 0 <= k < |named| && Free(k) !in calls[..n]
        ensures named[k].delivered == LogOf(start, named[k]) + Due(calls[..n], k, TopicsOf(start, named[k]))
      {
        NamedDue(calls[..n], named, k, TopicsOf(start, named[k]));
        EverybodyGetsWhatIsDue(start, Ops(calls[..n], named), named[k]);
        assert LogOf(ran, named[k]) == named[k].Log(outgoingMessages) by { LogIn(named[k]); }
        named[k].IdleLog(outgoingMessages);
      }
    }

    lemma ViewKeys()
      requires Indexed(|outgoingMessages|)
      ensures View().logs.Keys == subscribers
    {
    }

    lemma LogIn(s: Subscriber)
      requires Indexed(|outgoingMessages|) && s in subscribers
      ensures s in View().logs && s.Fits(|outgoingMessages|) && View().logs[s] == s.Log(outgoingMessages)
    {
    }

    lemma ProperView()
      requires Indexed(|outgoingMessages|) && Membership()
      ensures Proper(View())
    {
    }

    /** Somebody comes, subscribes to a topic of its own, and a message is published there. */
    method NewcomerGets(topic: string, message: Message) returns (s: Subscriber)
      requires Valid() && topic !in topics && (|outgoingMessages| == UINT16_MAX ==> list == [])
      modifies this, subscribers
      ensures Valid() && fresh(s) && subscribers == old(subscribers) + {s}
      ensures outgoingMessages == old(outgoingMessages) + [message]
      ensures s.topics == {topic} && s.Log(outgoingMessages) == [Latest()]
    {
      hide Linked, Indexed, Membership, Resolve, Increasing, Logs, Latest;
      s := CreateSubscriber();
      var ok := Subscribe(s, topic);
      assert topics[topic] == {s};
      ghost var was := View();
      ok := Publish(null, topic, message);
      assert Published(was, null, topic, Latest()).logs[s] == [Latest()];
      LogIn(s);
    }

    lemma NobodyThere()
      requires Valid() && subscribers == {}
      ensures topics == map[] && list == []
    {
      assert forall t <- topics :: topics[t] == {};
    }

    /** Somebody comes, has a message published for it, and is freed before that is drained. */
    method GuestLeaves(topic: string, message: Message)
      requires Valid() && subscribers == {}
      modifies this, subscribers
      ensures Valid() && subscribers == {} && outgoingMessages == old(outgoingMessages) + [message]
    {
      hide Linked, Indexed, Membership, Resolve, Increasing;
      NobodyThere();
      var guest := NewcomerGets(topic, message);
      FreeSubscriber(guest);
    }

    /** After any publish that overflows the palette, the next message for somebody who has nothing pending is
        replaced by the oldest one in it. */
    method OverflowMisleads(sender: Subscriber?, topic: string, message: Message, own: string, last: Message)
      returns (s: Subscriber)
      requires Valid() && list == [] && |outgoingMessages| == UINT16_MAX && Wanted(View(), sender, topic) && own !in topics
      modifies this, subscribers
      ensures Valid() && s in subscribers && s.topics == {own}
      ensures outgoingMessages == old(outgoingMessages) + [message, last]
      ensures s.Log(outgoingMessages) == [old(outgoingMessages)[0]]
    {
      hide Linked, Indexed, Membership, Resolve, Increasing, Logs, RoomFor, Wanted;
      var ok := Publish(sender, topic, message);
      s := NewcomerGets(own, last);
    }
  }

  // ---------------------------------------------------------------- what it stands for

  /** One plain queue per subscriber. */
  datatype Queues = Queues(members: map<string, set<Subscriber>>, logs: map<Subscriber, seq<Message>>)

  predicate Wants(q: Queues, s: Subscriber, sender: Subscriber?, topic: string) {
    topic in q.members && s in q.members[topic] && s != sender
  }

  predicate Wanted(q: Queues, sender: Subscriber?, topic: string) {
    topic in q.members && exists s <- q.members[topic] :: s != sender
  }

  function Published(q: Queues, sender: Subscriber?, topic: string, message: Message): Queues {
    q.(logs := map s | s in q.logs :: q.logs[s] + if Wants(q, s, sender, topic) then [message] else [])
  }

  /** Publishing gives the message to those in the topic, the sender excepted, and to nobody else. */
  lemma PublishedIs(q: Queues, sender: Subscriber?, topic: string, message: Message, s: Subscriber)
    requires s in q.logs
    ensures var r := Published(q, sender, topic, message);
            && r.members == q.members && r.logs.Keys == q.logs.Keys
            && r.logs[s] == if topic in q.members && s in q.members[topic] && s != sender then q.logs[s] + [message] else q.logs[s]
  {
  }

  /** The other calls change who is in which topic, and no message. */
  lemma MembersAre(q: Queues, s: Subscriber, topic: string, t: string, other: Subscriber)
    ensures Subscribed(q, s, topic).logs == q.logs && Unsubscribed(q, s, topic).logs == q.logs
    ensures Holds(Subscribed(q, s, topic), other, t) <==> Holds(q, other, t) || (other == s && t == topic)
    ensures Holds(Unsubscribed(q, s, topic), other, t) <==> Holds(q, other, t) && !(other == s && t == topic)
    ensures Holds(Left(q, s), other, t) <==> Holds(q, other, t) && other != s
    ensures Left(q, s).logs == q.logs - {s} && Joined(q, s).members == q.members && Joined(q, s).logs == q.logs[s := []]
  {
  }

  predicate Holds(q: Queues, s: Subscriber, topic: string) {
    topic in q.members && s in q.members[topic]
  }

  lemma OneMessage(q: Queues, sender: Subscriber?, topic: string, a: Message, b: Message)
    requires Wanted(q, sender, topic) && q.members[topic] <= q.logs.Keys
    ensures Published(q, sender, topic, a) == Published(q, sender, topic, b) <==> a == b
  {
    var s :| s in q.members[topic] && s != sender;
    assert Published(q, sender, topic, a).logs[s] == q.logs[s] + [a];
    assert Published(q, sender, topic, b).logs[s] == q.logs[s] + [b];
    assert (q.logs[s] + [a])[|q.logs[s]|] == a && (q.logs[s] + [b])[|q.logs[s]|] == b;
  }

  function Joined(q: Queues, s: Subscriber): Queues {
    q.(logs := q.logs[s := []])
  }

  function Subscribed(q: Queues, s: Subscriber, topic: string): Queues {
    q.(members := q.members[topic := (if topic in q.members then q.members[topic] else {}) + {s}])
  }

  function Unsubscribed(q: Queues, s: Subscriber, topic: string): Queues {
    if topic !in q.members || s !in q.members[topic] then q
    else if q.members[topic] == {s} then q.(members := q.members - {topic})
    else q.(members := q.members[topic := q.members[topic] - {s}])
  }

  function Left(q: Queues, s: Subscriber): Queues {
    Queues(map t | t in q.members && q.members[t] != {s} :: q.members[t] - {s}, q.logs - {s})
  }

  // ---------------------------------------------------------------- runs

  /** A call. Calls are made for subscribers `S`: objects, or numbers given in the order of creation. */
  datatype Op<S> =
    | Publish(sender: Option<S>, topic: string, message: Message)
    | Subscribe(s: S, topic: string)
    | Unsubscribe(s: S, topic: string)
    | DrainOne(s: S)
    | DrainAll
    | Create(s: S)
    | Free(s: S)

  predicate InRange(call: Op<nat>, count: nat) {
    match call
    case Publish(sender, _, _) => sender.Some? ==> sender.value < count
    case DrainAll => true
    case _ => call.s < count
  }

  /** A new subscriber gets the next number, and no call is made for one that has been freed. */
  predicate CallOk(call: Op<nat>, count: nat, gone: set<nat>) {
    if call.Create? then call.s == count
    else InRange(call, count) && (call.Publish? ==> call.sender.Some? ==> call.sender.value !in gone)
         && (!call.Publish? && !call.DrainAll? ==> call.s !in gone)
  }

  function FreedBy(call: Op<nat>): set<nat> {
    if call.Free? then {call.s} else {}
  }

  predicate CallsOk(calls: seq<Op<nat>>, count: nat, gone: set<nat>)
    decreases |calls|
  {
    calls == []
    || (CallOk(calls[0], count, gone)
        && CallsOk(calls[1..], if calls[0].Create? then count + 1 else count, gone + FreedBy(calls[0])))
  }

  lemma NextCall(calls: seq<Op<nat>>, n: nat, count: nat, gone: set<nat>)
    requires n < |calls| && CallsOk(calls[n..], count, gone)
    ensures CallOk(calls[n], count, gone) && (calls[n].Publish? ==> InRange(calls[n], count))
    ensures CallsOk(calls[n + 1..], if calls[n].Create? then count + 1 else count, gone + FreedBy(calls[n]))
    ensures InRange(calls[n], if calls[n].Create? then count + 1 else count)
    ensures forall k <- FreedBy(calls[n]) :: calls[n] == Free(k)
  {
    assert calls[n..][0] == calls[n] && calls[n..][1..] == calls[n + 1..];
  }

  /** Whoever is freed has been drained just before. */
  predicate DrainedFirst(calls: seq<Op<nat>>) {
    forall i :: 0 <= i < |calls| && calls[i].Free? ==> i > 0 && calls[i - 1] == DrainOne(calls[i].s)
  }

  predicate Distinct(names: seq<Subscriber>) {
    forall i, j :: 0 <= i < j < |names| ==> names[i] != names[j]
  }

  /** The call with subscribers for their numbers. */
  function Named(call: Op<nat>, names: seq<Subscriber>): (op: Op<Subscriber>)
    requires InRange(call, |names|)
  {
    match call
    case Publish(sender, topic, message) =>
      Publish(if sender.None? then None else Some(names[sender.value]), topic, message)
    case Subscribe(k, topic) => Subscribe(names[k], topic)
    case Unsubscribe(k, topic) => Unsubscribe(names[k], topic)
    case DrainOne(k) => DrainOne(names[k])
    case DrainAll => DrainAll
    case Create(k) => Create(names[k])
    case Free(k) => Free(names[k])
  }

  function Ops(calls: seq<Op<nat>>, names: seq<Subscriber>): (ops: seq<Op<Subscriber>>)
    requires forall call <- calls :: InRange(call, |names|)
    ensures |ops| == |calls|
  {
    seq(|calls|, i requires 0 <= i < |calls| => Named(calls[i], names))
  }

  function SenderOf(sender: Option<Subscriber>): Subscriber? {
    if sender.None? then null else sender.value
  }

  /** No call is made for a subscriber that is not there. */
  predicate OpOk(q: Queues, op: Op<Subscriber>) {
    op.Publish? || op.DrainAll? || (op.s in q.logs <==> !op.Create?)
  }

  function After(q: Queues, op: Op<Subscriber>): Queues {
    match op
    case Publish(sender, topic, message) => Published(q, SenderOf(sender), topic, message)
    case Subscribe(s, topic) => Subscribed(q, s, topic)
    case Unsubscribe(s, topic) => Unsubscribed(q, s, topic)
    case DrainOne(_) => q
    case DrainAll => q
    case Create(s) => Joined(q, s)
    case Free(s) => Left(q, s)
  }

  function AfterAll(q: Queues, ops: seq<Op<Subscriber>>): Queues {
    if ops == [] then q else After(AfterAll(q, ops[..|ops| - 1]), ops[|ops| - 1])
  }

  predicate RunOk(q: Queues, ops: seq<Op<Subscriber>>) {
    ops == [] || (RunOk(q, ops[..|ops| - 1]) && OpOk(AfterAll(q, ops[..|ops| - 1]), ops[|ops| - 1]))
  }

  lemma NoOps(q: Queues)
    ensures AfterAll(q, []) == q && RunOk(q, [])
  {
  }

  /** One call more, perhaps with a newcomer behind the names so far. */
  lemma OneMoreOp(q: Queues, calls: seq<Op<nat>>, n: nat, before: seq<Subscriber>, named: seq<Subscriber>)
    requires n < |calls| && before <= named && forall call <- calls[..n] :: InRange(call, |before|)
    requires InRange(calls[n], |named|)
    ensures forall call <- calls[..n + 1] :: InRange(call, |named|)
    ensures Ops(calls[..n], named) == Ops(calls[..n], before)
    ensures var ran, op := Ops(calls[..n], before), Named(calls[n], named);
            && AfterAll(q, Ops(calls[..n + 1], named)) == After(AfterAll(q, ran), op)
            && (RunOk(q, Ops(calls[..n + 1], named)) <==> RunOk(q, ran) && OpOk(AfterAll(q, ran), op))
  {
    assert calls[..n + 1] == calls[..n] + [calls[n]];
    forall i | 0 <= i < n ensures InRange(calls[i], |before|) && Named(calls[i], before) == Named(calls[i], named) {
      assert calls[i] in calls[..n];
    }
    assert Ops(calls[..n + 1], named) == Ops(calls[..n], before) + [Named(calls[n], named)];
    assert Ops(calls[..n + 1], named)[..n] == Ops(calls[..n], before);
  }

  /** What one call entitles a subscriber holding the topics `held` to, and what it holds after. */
  function Owed<S(==)>(op: Op<S>, s: S, held: iset<string>): seq<Message> {
    if op.Publish? && op.topic in held && op.sender != Some(s) then [op.message] else []
  }

  function HeldAfter<S(==)>(op: Op<S>, s: S, held: iset<string>): iset<string> {
    if op.Subscribe? && op.s == s then held + iset{op.topic}
    else if op.Unsubscribe? && op.s == s then held - iset{op.topic}
    else held
  }

  function Held<S(==)>(ops: seq<Op<S>>, s: S, held: iset<string>): iset<string> {
    if ops == [] then held else HeldAfter(ops[|ops| - 1], s, Held(ops[..|ops| - 1], s, held))
  }

  /** What `s`, holding `held` at first, has a right to in a run: each message published by somebody else to a topic
      it holds at that moment, once and in order. */
  function Due<S(==)>(ops: seq<Op<S>>, s: S, held: iset<string>): (messages: seq<Message>) {
    if ops == [] then []
    else Due(ops[..|ops| - 1], s, held) + Owed(ops[|ops| - 1], s, Held(ops[..|ops| - 1], s, held))
  }

  lemma NamedCall(call: Op<nat>, names: seq<Subscriber>, k: nat, held: iset<string>)
    requires Distinct(names) && k < |names| && InRange(call, |names|)
    ensures Owed(Named(call, names), names[k], held) == Owed(call, k, held)
    ensures HeldAfter(Named(call, names), names[k], held) == HeldAfter(call, k, held)
    ensures Named(call, names) == Free(names[k]) ==> call == Free(k)
  {
  }

  /** A topic is held if it was subscribed to, or held at first, and not unsubscribed from since. */
  lemma {:induction false} HeldIs<S>(ops: seq<Op<S>>, s: S, held: iset<string>, t: string)
    ensures t in Held(ops, s, held) <==>
              || (t in held && forall j :: 0 <= j < |ops| ==> ops[j] != Unsubscribe(s, t))
              || exists i :: 0 <= i < |ops| && ops[i] == Subscribe(s, t)
                   && forall j :: i < j < |ops| ==> ops[j] != Unsubscribe(s, t)
  {
    if ops != [] {
      var n := |ops| - 1;
      var front := ops[..n];
      HeldIs(front, s, held, t);
      assert forall i :: 0 <= i < n ==> ops[i] == front[i];
    }
  }

  /** What is due grows by a message that somebody else publishes to a topic that is held, and by nothing else. */
  lemma DueOneMore<S>(ops: seq<Op<S>>, op: Op<S>, s: S, held: iset<string>)
    ensures Due(ops + [op], s, held)
         == Due(ops, s, held) + if op.Publish? && op.sender != Some(s) && op.topic in Held(ops, s, held) then [op.message] else []
  {
    assert (ops + [op])[..|ops|] == ops;
  }

  /** Numbers or the subscribers they stand for: it makes no difference to what is due. */
  lemma {:induction false} NamedDue(calls: seq<Op<nat>>, names: seq<Subscriber>, k: nat, held: iset<string>)
    requires Distinct(names) && k < |names| && forall call <- calls :: InRange(call, |names|)
    ensures Due(Ops(calls, names), names[k], held) == Due(calls, k, held)
    ensures Held(Ops(calls, names), names[k], held) == Held(calls, k, held)
    ensures Free(names[k]) in Ops(calls, names) ==> Free(k) in calls
  {
    hide Named, Owed, HeldAfter, InRange, Distinct;
    if calls != [] {
      var n := |calls| - 1;
      assert InRange(calls[n], |names|);
      NamedDue(calls[..n], names, k, held);
      NamedCall(calls[n], names, k, Held(calls[..n], k, held));
      var ops := Ops(calls, names);
      assert ops[..n] == Ops(calls[..n], names) && ops[n] == Named(calls[n], names);
      if Free(names[k]) in ops {
        var i :| 0 <= i < |ops| && ops[i] == Free(names[k]);
        assert calls[i] in calls;
        NamedCall(calls[i], names, k, held);
      }
    }
  }

  function TopicsOf(q: Queues, s: Subscriber): iset<string> {
    iset t | t in q.members && s in q.members[t]
  }

  function LogOf(q: Queues, s: Subscriber): seq<Message> {
    if s in q.logs then q.logs[s] else []
  }

  /** Only subscribers there are hold topics. */
  predicate Proper(q: Queues) {
    forall t <- q.members :: q.members[t] <= q.logs.Keys
  }

  lemma Strangers(q: Queues, s: Subscriber)
    requires Proper(q) && s !in q.logs
    ensures LogOf(q, s) == [] && TopicsOf(q, s) == iset{}
  {
  }

  lemma OneCall(q: Queues, op: Op<Subscriber>, s: Subscriber)
    requires Proper(q) && OpOk(q, op) && op != Free(s)
    ensures Proper(After(q, op)) && LogOf(After(q, op), s) == LogOf(q, s) + Owed(op, s, TopicsOf(q, s))
    ensures TopicsOf(After(q, op), s) == HeldAfter(op, s, TopicsOf(q, s))
  {
  }

  /** Over a whole run every subscriber that is not freed gets exactly what is due to it; one that is created in
      the run held nothing and got nothing before. */
  lemma {:induction false} EverybodyGetsWhatIsDue(q: Queues, ops: seq<Op<Subscriber>>, s: Subscriber)
    requires Proper(q) && RunOk(q, ops) && Free(s) !in ops
    ensures Proper(AfterAll(q, ops)) && LogOf(AfterAll(q, ops), s) == LogOf(q, s) + Due(ops, s, TopicsOf(q, s))
    ensures TopicsOf(AfterAll(q, ops), s) == Held(ops, s, TopicsOf(q, s))
  {
    hide After, OpOk, Owed, HeldAfter, TopicsOf, LogOf, Proper;
    if ops != [] {
      var n := |ops| - 1;
      assert ops[n] != Free(s);
      EverybodyGetsWhatIsDue(q, ops[..n], s);
      OneCall(AfterAll(q, ops[..n]), ops[n], s);
    }
  }

  /** Subscribers that leave with something pending leave it in the palette. After 65536 of them the next index
      wraps, and whoever is then subscribed is given the very first message instead of the one published. */
  method FreedSubscribersFillThePalette(stale: Message, message: Message) returns (tree: TopicTree, s: Subscriber)
    ensures tree.Valid() && tree.subscribers == {s} && s.topics == {"t"}
    ensures tree.outgoingMessages == seq(65536, _ => stale) + [message]
    ensures s.Log(tree.outgoingMessages) == [stale]
  {
    hide TopicTree.Linked, TopicTree.Indexed, TopicTree.Membership;
    tree := new TopicTree();
    var n := 0;
    while n <= UINT16_MAX
      invariant n <= UINT16_MAX + 1 && fresh(tree) && tree.Valid()
      invariant tree.subscribers == {} && tree.outgoingMessages == seq(n, _ => stale)
    {
      tree.GuestLeaves("t", stale);
      n := n + 1;
    }
    tree.NobodyThere();
    s := tree.NewcomerGets("t", message);
  }
}
