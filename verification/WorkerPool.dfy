/** Pinning sockets to workers (server.cpp) and the worker loop (message_processor.cpp), one step at a time. */
module WorkerPool {
  import opened Options
  import opened ThreadSafeQueue

  type Socket = nat

  datatype Packet = Packet(ws: Socket, data: string)

  /** `hash` is any function of the socket's address. */
  function WorkerIndexFor(ws: Socket, hash: Socket -> nat, workers: nat): (i: nat)
    requires workers > 0
    ensures i < workers
  {
    hash(ws) % workers
  }

  /** Two sockets share a worker exactly if their hashes are congruent. */
  lemma SharedWorker(a: Socket, b: Socket, hash: Socket -> nat, workers: nat)
    requires workers > 0
    ensures WorkerIndexFor(a, hash, workers) == WorkerIndexFor(b, hash, workers) <==> hash(a) % workers == hash(b) % workers
  {
  }

  datatype Worker = Worker(queue: seq<Packet>, stopped: bool, inHand: Option<Packet>, handled: seq<Packet>, exited: bool)

  /** All workers, and all packets received so far. */
  datatype Pool = Pool(workers: seq<Worker>, received: seq<Packet>)

  datatype Step =
    | Receive(packet: Packet)
    | Pop(worker: nat)
    | Handle(worker: nat)
    | StopWorker(worker: nat)
    | Exit(worker: nat)

  const FRESH := Worker([], false, None, [], false)

  function Started(n: nat): Pool {
    Pool(seq(n, _ => FRESH), [])
  }

  /** A worker pops when it has nothing in hand, and leaves its loop when that finds the queue stopped and empty. */
  predicate Enabled(p: Pool, step: Step) {
    match step
    case Receive(_) => p.workers != []
    case Pop(i) => i < |p.workers| && var w := p.workers[i]; !w.exited && w.inHand.None? && Looks(w.queue, w.stopped).Took?
    case Handle(i) => i < |p.workers| && p.workers[i].inHand.Some?
    case StopWorker(i) => i < |p.workers|
    case Exit(i) => i < |p.workers| && var w := p.workers[i]; !w.exited && w.inHand.None? && Looks(w.queue, w.stopped).Ended?
  }

  function After(p: Pool, step: Step, hash: Socket -> nat): Pool
    requires Enabled(p, step)
  {
    match step
    case Receive(packet) =>
      var i := WorkerIndexFor(packet.ws, hash, |p.workers|);
      Pool(p.workers[i := p.workers[i].(queue := p.workers[i].queue + [packet])], p.received + [packet])
    case Pop(i) =>
      var w := p.workers[i];
      p.(workers := p.workers[i := w.(queue := Remaining(w.queue), inHand := Some(w.queue[0]))])
    case Handle(i) =>
      var w := p.workers[i];
      p.(workers := p.workers[i := w.(inHand := None, handled := w.handled + [w.inHand.value])])
    case StopWorker(i) => p.(workers := p.workers[i := p.workers[i].(stopped := true)])
    case Exit(i) => p.(workers := p.workers[i := p.workers[i].(exited := true)])
  }

  /** Everything a worker has been given, in order. */
  function Given(w: Worker): seq<Packet> {
    w.handled + (if w.inHand.Some? then [w.inHand.value] else []) + w.queue
  }

  /** The packets pinned to a worker, in the order they came in. */
  function PinnedTo(received: seq<Packet>, i: nat, hash: Socket -> nat, workers: nat): (packets: seq<Packet>)
    requires workers > 0
  {
    if received == [] then []
    else
      var last := received[|received| - 1];
      PinnedTo(received[..|received| - 1], i, hash, workers) + if WorkerIndexFor(last.ws, hash, workers) == i then [last] else []
  }

  function Of(packets: seq<Packet>, ws: Socket): (mine: seq<Packet>) {
    if packets == [] then []
    else
      var last := packets[|packets| - 1];
      Of(packets[..|packets| - 1], ws) + if last.ws == ws then [last] else []
  }

  /** Each worker has been given exactly the packets pinned to it. */
  predicate Inv(p: Pool, hash: Socket -> nat) {
    forall i :: 0 <= i < |p.workers| ==> Given(p.workers[i]) == PinnedTo(p.received, i, hash, |p.workers|)
  }

  /** What a worker has been given changes when a packet comes in for it, and at no other step. */
  lemma GivenAfter(p: Pool, step: Step, hash: Socket -> nat, i: nat)
    requires Enabled(p, step) && i < |p.workers|
    ensures var q := After(p, step, hash);
            |q.workers| == |p.workers|
            && Given(q.workers[i]) == Given(p.workers[i])
               + if step.Receive? && WorkerIndexFor(step.packet.ws, hash, |p.workers|) == i then [step.packet] else []
  {
    var w := p.workers[i];
    assert Given(w) + [] == Given(w);
    if step.Pop? && step.worker == i {
      assert w.queue == [w.queue[0]] + Remaining(w.queue);
    }
  }

  lemma PinnedMore(received: seq<Packet>, packet: Packet, i: nat, hash: Socket -> nat, workers: nat)
    requires workers > 0
    ensures PinnedTo(received + [packet], i, hash, workers)
            == PinnedTo(received, i, hash, workers) + if WorkerIndexFor(packet.ws, hash, workers) == i then [packet] else []
  {
    assert (received + [packet])[..|received|] == received;
  }

  lemma {:induction false} StepKeepsInv(p: Pool, step: Step, hash: Socket -> nat)
    requires Inv(p, hash) && Enabled(p, step)
    ensures Inv(After(p, step, hash), hash) && |After(p, step, hash).workers| == |p.workers|
  {
    hide Given, PinnedTo, WorkerIndexFor;
    var q := After(p, step, hash);
    forall i | 0 <= i < |q.workers| ensures Given(q.workers[i]) == PinnedTo(q.received, i, hash, |q.workers|) {
      GivenAfter(p, step, hash, i);
      if step.Receive? {
        PinnedMore(p.received, step.packet, i, hash, |p.workers|);
      }
    }
  }

  lemma {:induction false} PinnedOf(received: seq<Packet>, i: nat, hash: Socket -> nat, workers: nat, ws: Socket)
    requires workers > 0
    ensures Of(PinnedTo(received, i, hash, workers), ws) == if WorkerIndexFor(ws, hash, workers) == i then Of(received, ws) else []
  {
    if received != [] {
      var before, last := received[..|received| - 1], received[|received| - 1];
      PinnedOf(before, i, hash, workers, ws);
      var mine := PinnedTo(before, i, hash, workers);
      OfOneMore(mine, last, ws);
      assert mine + [] == mine && Of(received, ws) == Of(before, ws) + if last.ws == ws then [last] else [];
    }
  }

  lemma OfOneMore(packets: seq<Packet>, last: Packet, ws: Socket)
    ensures Of(packets + [last], ws) == Of(packets, ws) + if last.ws == ws then [last] else []
  {
    assert (packets + [last])[..|packets|] == packets;
  }

  // ---------------------------------------------------------------- runs

  predicate Allowed(p: Pool, steps: seq<Step>, hash: Socket -> nat)
    decreases |steps|
  {
    steps == [] || (Enabled(p, steps[0]) && Allowed(After(p, steps[0], hash), steps[1..], hash))
  }

  function AfterAll(p: Pool, steps: seq<Step>, hash: Socket -> nat): Pool
    requires Allowed(p, steps, hash)
    decreases |steps|
  {
    if steps == [] then p else AfterAll(After(p, steps[0], hash), steps[1..], hash)
  }

  lemma {:induction false} RunKeepsInv(p: Pool, steps: seq<Step>, hash: Socket -> nat)
    requires Inv(p, hash) && Allowed(p, steps, hash)
    ensures Inv(AfterAll(p, steps, hash), hash) && |AfterAll(p, steps, hash).workers| == |p.workers|
    decreases |steps|
  {
    hide Inv, After;
    if steps != [] {
      StepKeepsInv(p, steps[0], hash);
      RunKeepsInv(After(p, steps[0], hash), steps[1..], hash);
    }
  }

  /** In every interleaving what is handled, in hand and queued for a socket, at the one worker it is pinned to,
      is what has been received from it, in order; no other worker ever has anything of it. */
  lemma SocketsStayInOrder(n: nat, steps: seq<Step>, hash: Socket -> nat, ws: Socket, i: nat)
    requires Allowed(Started(n), steps, hash) && i < n
    ensures var p := AfterAll(Started(n), steps, hash);
            i < |p.workers| == n
            && Of(Given(p.workers[i]), ws) == if WorkerIndexFor(ws, hash, n) == i then Of(p.received, ws) else []
  {
    assert Inv(Started(n), hash);
    RunKeepsInv(Started(n), steps, hash);
    PinnedOf(AfterAll(Started(n), steps, hash).received, i, hash, n, ws);
  }

  /** The loop that receives has ended before workers are stopped. */
  predicate ReceivesFirst(p: Pool, steps: seq<Step>, hash: Socket -> nat)
    requires Allowed(p, steps, hash)
    decreases |steps|
  {
    steps == []
    || ((steps[0].Receive? ==> forall i :: 0 <= i < |p.workers| ==> !p.workers[i].stopped)
        && ReceivesFirst(After(p, steps[0], hash), steps[1..], hash))
  }

  /** Whoever has left its loop was stopped and has nothing left to do. */
  predicate LeftIdle(p: Pool) {
    forall i :: 0 <= i < |p.workers| && p.workers[i].exited ==>
      p.workers[i].stopped && p.workers[i].queue == [] && p.workers[i].inHand.None?
  }

  lemma {:induction false} RunLeavesIdle(p: Pool, steps: seq<Step>, hash: Socket -> nat)
    requires LeftIdle(p) && Allowed(p, steps, hash) && ReceivesFirst(p, steps, hash)
    ensures LeftIdle(AfterAll(p, steps, hash))
    decreases |steps|
  {
    if steps != [] {
      RunLeavesIdle(After(p, steps[0], hash), steps[1..], hash);
    }
  }

  /** After an orderly shutdown all that was received has been handled, each socket's packets in order. */
  lemma ShutdownHandlesAll(n: nat, steps: seq<Step>, hash: Socket -> nat, ws: Socket)
    requires Allowed(Started(n), steps, hash) && ReceivesFirst(Started(n), steps, hash) && n > 0
    requires var p := AfterAll(Started(n), steps, hash); forall i :: 0 <= i < |p.workers| ==> p.workers[i].exited
    ensures var p := AfterAll(Started(n), steps, hash);
            |p.workers| == n && Of(p.workers[WorkerIndexFor(ws, hash, n)].handled, ws) == Of(p.received, ws)
  {
    var i := WorkerIndexFor(ws, hash, n);
    RunLeavesIdle(Started(n), steps, hash);
    SocketsStayInOrder(n, steps, hash, ws, i);
    var w := AfterAll(Started(n), steps, hash).workers[i];
    assert w.exited;
    assert Given(w) == w.handled;
  }

  /** A worker that leaves its loop has handled all it has been given. */
  lemma NothingIsLostOnExit(n: nat, steps: seq<Step>, hash: Socket -> nat, i: nat)
    requires Allowed(Started(n), steps, hash) && Enabled(AfterAll(Started(n), steps, hash), Exit(i))
    ensures var p := AfterAll(Started(n), steps, hash);
            i < |p.workers| == n && p.workers[i].stopped && p.workers[i].handled == PinnedTo(p.received, i, hash, n)
  {
    assert Inv(Started(n), hash);
    RunKeepsInv(Started(n), steps, hash);
  }

  // ---------------------------------------------------------------- shutdown ends

  /** A step a worker takes by itself. */
  predicate Own(step: Step) {
    step.Pop? || step.Handle? || step.Exit?
  }

  predicate AllStopped(p: Pool) {
    forall w <- p.workers :: w.stopped
  }

  /** The steps a stopped worker still has before it: two for each packet queued, one for one in hand, and leaving. */
  function Load(w: Worker): nat {
    if w.exited then 0 else 2 * |w.queue| + (if w.inHand.Some? then 1 else 0) + 1
  }

  function Work(workers: seq<Worker>): (steps: nat) {
    if workers == [] then 0 else Load(workers[0]) + Work(workers[1..])
  }

  lemma {:induction false} WorkOf(workers: seq<Worker>, i: nat, w: Worker)
    requires i < |workers|
    ensures Work(workers[i := w]) + Load(workers[i]) == Work(workers) + Load(w)
  {
    if i > 0 {
      WorkOf(workers[1..], i - 1, w);
      assert workers[i := w][1..] == workers[1..][i - 1 := w];
    } else {
      assert workers[i := w][1..] == workers[1..];
    }
  }

  lemma OwnStepWorks(p: Pool, step: Step, hash: Socket -> nat)
    requires LeftIdle(p) && AllStopped(p) && Own(step) && Enabled(p, step)
    ensures var q := After(p, step, hash);
            LeftIdle(q) && AllStopped(q) && q.received == p.received && Work(q.workers) + 1 == Work(p.workers)
  {
    var q := After(p, step, hash);
    WorkOf(p.workers, step.worker, q.workers[step.worker]);
  }

  /** Somebody can go on as long as not everybody has left. */
  lemma {:induction false} SomebodyCan(p: Pool, from: nat) returns (step: Step)
    requires LeftIdle(p) && AllStopped(p) && from <= |p.workers|
    requires exists i :: from <= i < |p.workers| && !p.workers[i].exited
    ensures Own(step) && Enabled(p, step)
    decreases |p.workers| - from
  {
    var w := p.workers[from];
    assert w.stopped;
    if w.exited {
      step := SomebodyCan(p, from + 1);
    } else if w.inHand.Some? {
      step := Handle(from);
    } else if w.queue == [] {
      step := Exit(from);
    } else {
      step := Pop(from);
    }
  }

  lemma NobodyCan(p: Pool)
    requires LeftIdle(p) && forall w <- p.workers :: w.exited
    ensures forall step :: Own(step) ==> !Enabled(p, step)
  {
  }

  lemma {:induction false} NoWorkLeft(workers: seq<Worker>)
    ensures Work(workers) == 0 <==> forall i :: 0 <= i < |workers| ==> workers[i].exited
  {
    if workers != [] {
      NoWorkLeft(workers[1..]);
      assert forall i :: 0 < i < |workers| ==> workers[i] == workers[1..][i - 1];
    }
  }

  lemma {:induction false} OwnStepsWork(p: Pool, steps: seq<Step>, hash: Socket -> nat)
    requires LeftIdle(p) && AllStopped(p) && Allowed(p, steps, hash) && forall step <- steps :: Own(step)
    ensures var q := AfterAll(p, steps, hash);
            LeftIdle(q) && AllStopped(q) && q.received == p.received && Work(q.workers) + |steps| == Work(p.workers)
    decreases |steps|
  {
    hide After, Enabled, LeftIdle, AllStopped, Own;
    if steps != [] {
      assert Own(steps[0]);
      OwnStepWorks(p, steps[0], hash);
      OwnStepsWork(After(p, steps[0], hash), steps[1..], hash);
    }
  }

  /** Once all workers have been stopped, and nothing comes in any more, whatever order they go on in: they can go on
      until all have left, which takes a number of steps known from the start, and then all is handled. */
  lemma ShutdownEnds(n: nat, steps: seq<Step>, own: seq<Step>, hash: Socket -> nat, ws: Socket)
    requires n > 0 && Allowed(Started(n), steps, hash) && ReceivesFirst(Started(n), steps, hash)
    requires var p := AfterAll(Started(n), steps, hash);
             AllStopped(p) && Allowed(p, own, hash) && forall step <- own :: Own(step)
    ensures var p := AfterAll(Started(n), steps, hash); var q := AfterAll(p, own, hash);
            && |own| <= Work(p.workers) && |q.workers| == n
            && (|own| < Work(p.workers) <==> exists step :: Own(step) && Enabled(q, step))
            && (|own| == Work(p.workers) <==> forall i :: 0 <= i < n ==> q.workers[i].exited)
            && (|own| == Work(p.workers) ==> Of(q.workers[WorkerIndexFor(ws, hash, n)].handled, ws) == Of(p.received, ws))
  {
    var p := AfterAll(Started(n), steps, hash);
    var q, i := AfterAll(p, own, hash), WorkerIndexFor(ws, hash, n);
    assert Inv(Started(n), hash);
    RunKeepsInv(Started(n), steps, hash);
    RunKeepsInv(p, own, hash);
    RunLeavesIdle(Started(n), steps, hash);
    OwnStepsWork(p, own, hash);
    NoWorkLeft(q.workers);
    if |own| < Work(p.workers) {
      var step := SomebodyCan(q, 0);
    } else {
      assert q.workers[i].exited;
      assert Given(q.workers[i]) == q.workers[i].handled;
      PinnedOf(q.received, i, hash, n, ws);
      NobodyCan(q);
    }
  }

  // ---------------------------------------------------------------- one worker's own code

  /** A worker with its queue. `handled` is what the handlers were called with; what they throw is caught. */
  class MessageProcessor {
    const queue: Guarded<Packet>
    var packet: Packet
    var handled: seq<Packet>

    constructor ()
      ensures fresh(queue) && queue.items == [] && !queue.stopped && handled == []
    {
      queue := new Guarded();
      packet, handled := Packet(0, ""), [];
    }

    method Enqueue(data: Packet)
      modifies queue`items
      ensures queue.items == old(queue.items) + [data]
    {
      queue.Push(data);
    }

    /** The worker loop from the time its queue has been stopped on: it ends, and only when all is handled. */
    method Process()
      requires queue.stopped
      modifies queue`items, this`packet, this`handled
      ensures queue.items == [] && handled == old(handled + queue.items)
    {
      var v := queue.TryPop();
      while v.Took?
        invariant handled + (if v.Took? then [v.item] else []) + queue.items == old(handled + queue.items)
        invariant v.Ended? ==> queue.items == []
        invariant !v.Sleeps?
        decreases |queue.items|, v.Took?
      {
        packet := v.item;
        handled := handled + [packet];
        v := queue.TryPop();
      }
    }

    /** The destructor: stops the queue and waits for the loop to end. */
    method Destroy()
      modifies queue, this`packet, this`handled
      ensures queue.stopped && queue.items == [] && handled == old(handled + queue.items)
    {
      queue.Stop();
      Process();
    }
  }
}
