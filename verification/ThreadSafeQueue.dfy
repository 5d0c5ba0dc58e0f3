/** The blocking queue (thread_safe_queue.h): what each operation does under the lock, and all interleavings of
    producers, consumers and a condition variable with spurious wake-ups. */
module ThreadSafeQueue {

  /** What a consumer finds when it holds the lock. */
  datatype Verdict<T> = Sleeps | Ended | Took(item: T)

  function Looks<T>(items: seq<T>, stopped: bool): (v: Verdict<T>) {
    if items != [] then Took(items[0]) else if stopped then Ended else Sleeps
  }

  function Remaining<T>(items: seq<T>): (rest: seq<T>) {
    if items == [] then [] else items[1..]
  }

  /** The state the lock guards, and the bodies of the locked sections. */
  class Guarded<T(==)> {
    var items: seq<T>
    var stopped: bool

    constructor ()
      ensures items == [] && !stopped
    {
      items, stopped := [], false;
    }

    method Push(data: T)
      modifies `items
      ensures items == old(items) + [data]
    {
      items := items + [data];
    }

    /** One evaluation of the wait predicate, and the pop if it holds. */
    method TryPop() returns (v: Verdict<T>)
      modifies `items
      ensures v == Looks(old(items), stopped) && items == Remaining(old(items))
      ensures if old(items) != [] then v == Took(old(items)[0]) && items == old(items)[1..]
              else items == [] && v == if stopped then Ended else Sleeps
    {
      if |items| == 0 && !stopped {
        return Sleeps;
      }
      if |items| == 0 {
        return Ended;
      }
      v := Took(items[0]);
      items := items[1..];
    }

    method Stop()
      modifies `stopped
      ensures stopped
    {
      stopped := true;
    }
  }

  // ---------------------------------------------------------------- interleavings

  datatype Consumer = Away | Awake | Asleep

  /** Items and flag under the lock; pushes and stops that have yet to notify; and, to speak about, whether a
      stop has notified and all items ever pushed and taken. */
  datatype State<T> = State(items: seq<T>, stopped: bool, consumers: seq<Consumer>, notifying: nat, stopping: nat,
                            stopNotified: bool, pushed: seq<T>, taken: seq<T>)

  datatype Step<T> =
    | Push(item: T)
    /** To one sleeping consumer, if there is one. */
    | NotifyOne(wakes: nat)
    | Stop
    | NotifyAll
    | CallWait(consumer: nat)
    /** A consumer gets the lock and looks. */
    | Look(consumer: nat)
    | WakeSpuriously(consumer: nat)

  function Initial<T>(n: nat): State<T> {
    State([], false, seq(n, _ => Away), 0, 0, false, [], [])
  }

  predicate Is<T>(s: State<T>, consumer: nat, where_: Consumer) {
    consumer < |s.consumers| && s.consumers[consumer] == where_
  }

  predicate SomebodySleeps<T>(s: State<T>) {
    exists i :: 0 <= i < |s.consumers| && s.consumers[i] == Asleep
  }

  predicate Enabled<T>(s: State<T>, step: Step<T>) {
    match step
    case Push(_) => true
    case NotifyOne(wakes) => s.notifying > 0 && (SomebodySleeps(s) ==> Is(s, wakes, Asleep))
    case Stop => true
    case NotifyAll => s.stopping > 0
    case CallWait(i) => Is(s, i, Away)
    case Look(i) => Is(s, i, Awake)
    case WakeSpuriously(i) => Is(s, i, Asleep)
  }

  function WakeAll(consumers: seq<Consumer>): (r: seq<Consumer>) {
    seq(|consumers|, i requires 0 <= i < |consumers| => if consumers[i] == Asleep then Awake else consumers[i])
  }

  function After<T>(s: State<T>, step: Step<T>): State<T>
    requires Enabled(s, step)
  {
    match step
    case Push(item) => s.(items := s.items + [item], notifying := s.notifying + 1, pushed := s.pushed + [item])
    case NotifyOne(wakes) =>
      s.(notifying := s.notifying - 1, consumers := if SomebodySleeps(s) then s.consumers[wakes := Awake] else s.consumers)
    case Stop => s.(stopped := true, stopping := s.stopping + 1)
    case NotifyAll => s.(stopping := s.stopping - 1, stopNotified := true, consumers := WakeAll(s.consumers))
    case CallWait(i) => s.(consumers := s.consumers[i := Awake])
    case Look(i) =>
      (match Looks(s.items, s.stopped)
       case Sleeps => s.(consumers := s.consumers[i := Asleep])
       case Ended => s.(consumers := s.consumers[i := Away])
       case Took(item) => s.(items := Remaining(s.items), taken := s.taken + [item], consumers := s.consumers[i := Away]))
    case WakeSpuriously(i) => s.(consumers := s.consumers[i := Awake])
  }

  function CountAwake(consumers: seq<Consumer>): (n: nat) {
    if consumers == [] then 0 else (if consumers[0] == Awake then 1 else 0) + CountAwake(consumers[1..])
  }

  /** It is how many are awake. */
  lemma {:induction false} CountAwakeIs(consumers: seq<Consumer>)
    ensures CountAwake(consumers) == |set i | 0 <= i < |consumers| && consumers[i] == Awake|
  {
    var awake := set i | 0 <= i < |consumers| && consumers[i] == Awake;
    if consumers == [] {
      assert awake == {};
    } else {
      CountAwakeIs(consumers[..|consumers| - 1]);
      CountLast(consumers);
      AwakeLast(consumers);
    }
  }

  lemma AwakeLast(consumers: seq<Consumer>)
    requires consumers != []
    ensures var front := consumers[..|consumers| - 1];
            |set i | 0 <= i < |consumers| && consumers[i] == Awake|
            == |set i | 0 <= i < |front| && front[i] == Awake| + if consumers[|consumers| - 1] == Awake then 1 else 0
  {
    var n, front := |consumers| - 1, consumers[..|consumers| - 1];
    assert (set i | 0 <= i < |consumers| && consumers[i] == Awake)
        == (set i | 0 <= i < |front| && front[i] == Awake) + if consumers[n] == Awake then {n} else {};
  }

  lemma {:induction false} CountLast(consumers: seq<Consumer>)
    requires consumers != []
    ensures CountAwake(consumers)
         == CountAwake(consumers[..|consumers| - 1]) + if consumers[|consumers| - 1] == Awake then 1 else 0
  {
    if |consumers| > 1 {
      CountLast(consumers[1..]);
      assert consumers[..|consumers| - 1][1..] == consumers[1..][..|consumers| - 2];
    }
  }

  lemma {:induction false} CountUpdated(consumers: seq<Consumer>, i: nat, c: Consumer)
    requires i < |consumers|
    ensures CountAwake(consumers[i := c])
         == CountAwake(consumers) - (if consumers[i] == Awake then 1 else 0) + (if c == Awake then 1 else 0)
  {
    if i > 0 {
      assert consumers[i := c][1..] == consumers[1..][i - 1 := c];
      CountUpdated(consumers[1..], i - 1, c);
    } else {
      assert consumers[i := c][1..] == consumers[1..];
    }
  }

  /** While somebody sleeps, each item has a notification under way or a consumer about to look; sleepers of a
      stopped queue are about to be woken, and once that has happened there are none. */
  ghost predicate Inv<T>(s: State<T>) {
    && (SomebodySleeps(s) ==> |s.items| <= s.notifying + CountAwake(s.consumers))
    && (s.stopped && SomebodySleeps(s) ==> s.stopping > 0)
    && (s.stopNotified ==> !SomebodySleeps(s))
    && (s.stopNotified || s.stopping > 0 ==> s.stopped)
    && s.taken + s.items == s.pushed
  }

  lemma InitialInv<T>(n: nat)
    ensures Inv(Initial<T>(n))
  {
  }

  lemma StepKeepsInv<T>(s: State<T>, step: Step<T>)
    requires Inv(s) && Enabled(s, step)
    ensures Inv(After(s, step))
  {
    hide CountAwake;
    var t := After(s, step);
    match step {
      case Push(_) =>
      case NotifyOne(wakes) =>
        if SomebodySleeps(s) {
          CountUpdated(s.consumers, wakes, Awake);
          StillAsleep(s, t, wakes);
        }
      case Stop =>
      case NotifyAll =>
      case CallWait(i) =>
        CountUpdated(s.consumers, i, Awake);
        StillAsleep(s, t, i);
      case Look(i) =>
        CountUpdated(s.consumers, i, t.consumers[i]);
        if !Looks(s.items, s.stopped).Sleeps? {
          StillAsleep(s, t, i);
        }
      case WakeSpuriously(i) =>
        CountUpdated(s.consumers, i, Awake);
        StillAsleep(s, t, i);
    }
  }

  /** Whoever sleeps afterwards slept before, unless it is the one that moved. */
  lemma StillAsleep<T>(s: State<T>, t: State<T>, i: nat)
    requires i < |s.consumers| == |t.consumers| && t.consumers == s.consumers[i := t.consumers[i]]
    requires t.consumers[i] != Asleep
    ensures SomebodySleeps(t) ==> SomebodySleeps(s)
  {
    if SomebodySleeps(t) {
      var k :| 0 <= k < |t.consumers| && t.consumers[k] == Asleep;
      assert s.consumers[k] == Asleep;
    }
  }

  // ---------------------------------------------------------------- runs

  predicate Allowed<T>(s: State<T>, steps: seq<Step<T>>)
    decreases |steps|
  {
    steps == [] || (Enabled(s, steps[0]) && Allowed(After(s, steps[0]), steps[1..]))
  }

  function AfterAll<T>(s: State<T>, steps: seq<Step<T>>): State<T>
    requires Allowed(s, steps)
    decreases |steps|
  {
    if steps == [] then s else AfterAll(After(s, steps[0]), steps[1..])
  }

  lemma {:induction false} RunKeepsInv<T>(s: State<T>, steps: seq<Step<T>>)
    requires Inv(s) && Allowed(s, steps)
    ensures Inv(AfterAll(s, steps))
    decreases |steps|
  {
    hide Inv;
    if steps != [] {
      StepKeepsInv(s, steps[0]);
      RunKeepsInv(After(s, steps[0]), steps[1..]);
    }
  }

  /** What one step does to the notifications under way: a push brings one and a stop one, and each is sent once. */
  lemma StepCounts<T>(s: State<T>, step: Step<T>)
    requires Enabled(s, step)
    ensures After(s, step).notifying == s.notifying + (if step.Push? then 1 else 0) - if step.NotifyOne? then 1 else 0
    ensures After(s, step).stopping == s.stopping + (if step.Stop? then 1 else 0) - if step.NotifyAll? then 1 else 0
    ensures After(s, step).pushed == s.pushed + if step.Push? then [step.item] else []
  {
  }

  /** Over a run every push has sent its notification or has it under way. */
  lemma {:induction false} RunCounts<T>(s: State<T>, steps: seq<Step<T>>)
    requires Allowed(s, steps)
    ensures var t := AfterAll(s, steps);
            t.notifying + |set i | 0 <= i < |steps| && steps[i].NotifyOne?| + |s.pushed| == s.notifying + |t.pushed|
    decreases |steps|
  {
    hide Enabled, After;
    if steps != [] {
      StepCounts(s, steps[0]);
      RunCounts(After(s, steps[0]), steps[1..]);
      SentFirst(steps);
    }
  }

  lemma SentFirst<T>(steps: seq<Step<T>>)
    requires steps != []
    ensures |set i | 0 <= i < |steps| && steps[i].NotifyOne?|
         == (if steps[0].NotifyOne? then 1 else 0) + |set i | 0 <= i < |steps[1..]| && steps[1..][i].NotifyOne?|
  {
    var all, later := set i | 0 <= i < |steps| && steps[i].NotifyOne?, set i | 1 <= i < |steps| && steps[i].NotifyOne?;
    SentLater(steps, |steps|);
    assert all == later + if steps[0].NotifyOne? then {0} else {};
  }

  lemma {:induction false} SentLater<T>(steps: seq<Step<T>>, n: nat)
    requires 1 <= n <= |steps|
    ensures |set i | 1 <= i < n && steps[i].NotifyOne?| == |set i | 0 <= i < n - 1 && steps[1..][i].NotifyOne?|
  {
    var later, shifted := set i | 1 <= i < n && steps[i].NotifyOne?, set i | 0 <= i < n - 1 && steps[1..][i].NotifyOne?;
    if n == 1 {
      assert later == {} && shifted == {};
    } else {
      SentLater(steps, n - 1);
      SentLast(steps, 1, n - 1);
      SentLast(steps[1..], 0, n - 2);
      assert steps[1..][n - 2] == steps[n - 1];
    }
  }

  lemma SentLast<T>(steps: seq<Step<T>>, from: nat, n: nat)
    requires from <= n < |steps|
    ensures |set i | from <= i < n + 1 && steps[i].NotifyOne?|
         == |set i | from <= i < n && steps[i].NotifyOne?| + if steps[n].NotifyOne? then 1 else 0
  {
    assert (set i | from <= i < n + 1 && steps[i].NotifyOne?)
        == (set i | from <= i < n && steps[i].NotifyOne?) + if steps[n].NotifyOne? then {n} else {};
  }

  /** No wake-up is lost, in any run of any number of producers and consumers: what was pushed is taken in order
      and once; while somebody sleeps each item has a notification or an awake consumer coming to it; and after a
      stop has notified nobody sleeps any more. */
  lemma NoLostWakeUp<T>(n: nat, steps: seq<Step<T>>)
    requires Allowed(Initial<T>(n), steps)
    ensures var s := AfterAll(Initial<T>(n), steps);
            && s.taken + s.items == s.pushed
            && s.notifying + |set i | 0 <= i < |steps| && steps[i].NotifyOne?| == |s.pushed|
            && ((exists i :: 0 <= i < |s.consumers| && s.consumers[i] == Asleep) ==>
                  |s.items| <= s.notifying + |set i | 0 <= i < |s.consumers| && s.consumers[i] == Awake|)
            && (s.stopNotified ==> forall i :: 0 <= i < |s.consumers| ==> s.consumers[i] != Asleep)
  {
    CountAwakeIs(AfterAll(Initial<T>(n), steps).consumers);
    RunCounts(Initial<T>(n), steps);
    InitialInv<T>(n);
    RunKeepsInv(Initial<T>(n), steps);
  }

  /** Once a stop has notified, no consumer goes to sleep again. */
  lemma StoppedStaysAwake<T>(s: State<T>, step: Step<T>)
    requires Inv(s) && Enabled(s, step) && s.stopNotified
    ensures After(s, step).stopNotified && !SomebodySleeps(After(s, step))
  {
    StepKeepsInv(s, step);
  }

  lemma {:induction false} SomeAwake(consumers: seq<Consumer>) returns (i: nat)
    requires CountAwake(consumers) > 0
    ensures i < |consumers| && consumers[i] == Awake
  {
    if consumers[0] == Awake {
      i := 0;
    } else {
      i := SomeAwake(consumers[1..]);
      i := i + 1;
    }
  }

  /** A step that needs neither a producer nor luck. */
  predicate Driven<T>(step: Step<T>) {
    step.NotifyOne? || step.NotifyAll? || step.Look?
  }

  /** An item never waits behind a sleeper: while somebody sleeps and there is an item, at most two steps of
      notifications under way and consumers awake have it taken, without another push and without luck. */
  lemma ItemIsTaken<T>(s: State<T>) returns (steps: seq<Step<T>>)
    requires Inv(s) && SomebodySleeps(s) && s.items != []
    ensures |steps| <= 2 && (forall step <- steps :: Driven(step)) && Allowed(s, steps)
    ensures AfterAll(s, steps).taken == s.taken + [s.items[0]]
  {
    if s.notifying > 0 {
      var k :| 0 <= k < |s.consumers| && s.consumers[k] == Asleep;
      var t, rest: seq<Step<T>> := After(s, NotifyOne(k)), [Look(k)];
      steps := [NotifyOne(k)] + rest;
      assert steps[1..] == rest && rest[1..] == [];
      assert After(t, Look(k)).taken == s.taken + [s.items[0]];
      assert AfterAll(t, rest) == After(t, Look(k));
    } else {
      var i := SomeAwake(s.consumers);
      steps := [Look(i)];
      assert steps[1..] == [];
    }
  }

  /** And a stopped queue lets everybody go: a sleeper has a notification coming to it. */
  lemma StopIsHeard<T>(s: State<T>) returns (steps: seq<Step<T>>)
    requires Inv(s) && SomebodySleeps(s) && s.stopped
    ensures |steps| == 1 && Driven(steps[0]) && Allowed(s, steps) && !SomebodySleeps(AfterAll(s, steps))
  {
    steps := [NotifyAll];
    assert steps[1..] == [];
  }
}
