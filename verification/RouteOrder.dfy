/** In which order a request meets the routes of its method, in terms of the characters of their paths. */
module RouteOrder {
  import opened Options
  import opened RouteTree
  import opened RouteUpdate
  import opened RouteTable

  /** `a` comes before `b`: the same path and a smaller entry, a shorter path, or paths that differ first where `a` has
      a plain name, or both have a parameter or a wildcard or `b` a wildcard. */
  predicate Precedes(a: Route, b: Route) {
    || (a.path == b.path && a.entry < b.entry)
    || (|a.path| < |b.path| && a.path == b.path[..|a.path|])
    || exists k :: 0 <= k < |a.path| && k < |b.path| && Differ(a.path, b.path, k)
  }

  predicate Differ(a: seq<string>, b: seq<string>, k: nat)
    requires k < |a| && k < |b|
  {
    && a[..k] == b[..k] && a[k] != b[k]
    && (IsParameter(a[k]) ==> IsParameter(b[k]) || IsWildcard(b[k]))
    && (IsWildcard(a[k]) ==> IsWildcard(b[k]))
  }

  predicate Ordered(routes: seq<Route>) {
    forall i, j :: 0 <= i < j < |routes| ==> Precedes(routes[i], routes[j])
  }

  lemma OrderedConcat(a: seq<Route>, b: seq<Route>)
    requires Ordered(a) && Ordered(b) && forall x <- a, y <- b :: Precedes(x, y)
    ensures Ordered(a + b)
  {
    hide Precedes;
    forall i, j | 0 <= i < j < |a + b| ensures Precedes((a + b)[i], (a + b)[j]) {
      if i < |a| <= j {
        assert (a + b)[i] == a[i] && (a + b)[j] == b[j - |a|] && a[i] in a && b[j - |a|] in b;
      }
    }
  }

  lemma PrecedesBelow(name: string, a: Route, b: Route)
    requires Precedes(a, b)
    ensures Precedes(Route([name] + a.path, a.entry), Route([name] + b.path, b.entry))
  {
    var p, q := [name] + a.path, [name] + b.path;
    if k :| 0 <= k < |a.path| && k < |b.path| && Differ(a.path, b.path, k) {
      assert p[..k + 1] == [name] + a.path[..k] && q[..k + 1] == [name] + b.path[..k];
      assert Differ(p, q, k + 1);
    } else if |a.path| < |b.path| && a.path == b.path[..|a.path|] {
      assert q[..|p|] == [name] + b.path[..|a.path|];
    }
  }

  lemma OrderedBelow(name: string, routes: seq<Route>)
    requires Ordered(routes)
    ensures Ordered(Below(name, routes))
  {
    hide Precedes;
    forall i, j | 0 <= i < j < |routes| ensures Precedes(Below(name, routes)[i], Below(name, routes)[j]) {
      PrecedesBelow(name, routes[i], routes[j]);
    }
  }

  lemma OwnOrdered(entries: seq<nat>)
    requires Increasing(entries)
    ensures Ordered(Own(entries))
  {
  }

  lemma OwnFirst(a: Route, b: Route)
    requires a.path == [] && b.path != []
    ensures Precedes(a, b)
  {
    assert b.path[..0] == [];
  }

  lemma NamesDiffer(a: Route, b: Route, c: Node, d: Node)
    requires a.path != [] && b.path != [] && a.path[0] == c.name && b.path[0] == d.name
    requires c.name != d.name && c.high == d.high && Rank(c.name, c.high) <= Rank(d.name, d.high)
    ensures Precedes(a, b)
  {
    assert a.path[..0] == b.path[..0];
    assert Differ(a.path, b.path, 0);
  }

  /** Below nodes of one kind. */
  lemma {:induction false} ChildrenOrdered(children: seq<Node>)
    requires Apart(children) && Ranked(children)
    requires forall c <- children :: Ordered(Flat(c))
    requires forall c, d | c in children && d in children :: c.high == d.high
    ensures Ordered(FlatAll(children))
  {
    hide Flat, Precedes, Rank;
    if children != [] {
      var c, rest := children[0], children[1..];
      assert forall d <- rest :: d in children;
      TailTidy(children);
      ChildrenOrdered(rest);
      OrderedBelow(c.name, Flat(c));
      forall x <- Below(c.name, Flat(c)), y <- FlatAll(rest) ensures Precedes(x, y) {
        LaterChild(children, x, y);
      }
      OrderedConcat(Below(c.name, Flat(c)), FlatAll(rest));
    }
  }

  lemma TailTidy(children: seq<Node>)
    requires Apart(children) && Ranked(children) && children != []
    ensures Apart(children[1..]) && Ranked(children[1..])
  {
  }

  /** A route of the first child and one of another. */
  lemma LaterChild(children: seq<Node>, x: Route, y: Route)
    requires Apart(children) && Ranked(children) && children != []
    requires x in Below(children[0].name, Flat(children[0])) && y in FlatAll(children[1..])
    ensures exists d <- children[1..] ::
              && y.path != [] && y.path[0] == d.name && Route(y.path[1..], y.entry) in Flat(d)
              && (children[0].high == d.high ==> Precedes(x, y)) && (d.high ==> children[0].high)
    ensures x.path != [] && x.path[0] == children[0].name && Route(x.path[1..], x.entry) in Flat(children[0])
  {
    hide Flat, Precedes;
    var c := children[0];
    assert x == Route(x.path, x.entry) && y == Route(y.path, y.entry);
    BelowMember(c.name, Flat(c), x.path, x.entry);
    FlatAllMember(children[1..], y.path, y.entry);
    var k :| 0 <= k < |children[1..]| && children[1..][k].name == y.path[0] && Route(y.path[1..], y.entry) in Flat(children[1..][k]);
    var d := children[k + 1];
    assert d == children[1..][k];
    assert Ranks(children)[0] <= Ranks(children)[k + 1];
    if c.high == d.high {
      assert c.name != d.name;
      NamesDiffer(x, y, c, d);
    }
  }

  /** Below a node all of one kind. */
  lemma {:induction false} FlatOrdered(node: Node)
    requires Tidy(node) && Uniform(node) && forall p :: Increasing(Entries(node, p, node.high))
    ensures Ordered(Flat(node))
  {
    hide FlatAll, Precedes;
    forall c <- node.children ensures Ordered(Flat(c)) {
      forall p ensures Increasing(Entries(c, p, c.high)) {
        EntriesOfChild(node, c, p, c.high);
      }
      FlatOrdered(c);
    }
    ChildrenOrdered(node.children);
    assert Increasing(Entries(node, [], node.high));
    OwnOrdered(node.handlers);
    OwnBeforeChildren(node);
    OrderedConcat(Own(node.handlers), FlatAll(node.children));
  }

  lemma OwnBeforeChildren(node: Node)
    ensures forall x <- Own(node.handlers), y <- FlatAll(node.children) :: x.path == [] && y.path != [] && Precedes(x, y)
    ensures forall k :: 0 <= k < |Own(node.handlers)| ==> Own(node.handlers)[k].path == []
    ensures forall k :: 0 <= k < |FlatAll(node.children)| ==> FlatAll(node.children)[k].path != []
  {
    hide FlatAll, Precedes;
    forall k | 0 <= k < |FlatAll(node.children)| ensures FlatAll(node.children)[k].path != [] {
      var y := FlatAll(node.children)[k];
      assert y in FlatAll(node.children) && y == Route(y.path, y.entry);
      FlatAllMember(node.children, y.path, y.entry);
    }
    forall x <- Own(node.handlers), y <- FlatAll(node.children) ensures x.path == [] && y.path != [] && Precedes(x, y) {
      assert y == Route(y.path, y.entry);
      FlatAllMember(node.children, y.path, y.entry);
      OwnFirst(x, y);
    }
  }

  // ---------------------------------------------------------------- both kinds

  predicate High(r: Route) {
    Priority(r.entry) == HIGH_PRIORITY
  }

  predicate KindsOrdered(routes: seq<Route>) {
    forall i, j :: 0 <= i < j < |routes| ==> KindsPrecede(routes[i], routes[j])
  }

  predicate KindsPrecede(a: Route, b: Route) {
    (High(b) ==> High(a)) && ((High(a) <==> High(b)) ==> Precedes(a, b))
  }

  /** Routes below a high node are those of high priority. */
  ghost predicate KindsTell(children: seq<Node>) {
    forall c <- children, p, e :: Route(p, e) in Flat(c) ==> (c.high <==> Priority(e) == HIGH_PRIORITY)
  }

  lemma {:induction false} ChildrenByKind(children: seq<Node>)
    requires Apart(children) && Ranked(children) && KindsTell(children)
    requires forall c <- children :: Ordered(Flat(c))
    ensures KindsOrdered(FlatAll(children))
  {
    hide Flat, Precedes, Rank, Priority;
    if children != [] {
      var c, rest := children[0], children[1..];
      assert forall d <- rest :: d in children;
      TailTidy(children);
      ChildrenByKind(rest);
      FirstByKind(children);
      forall x <- Below(c.name, Flat(c)), y <- FlatAll(rest) ensures KindsPrecede(x, y) {
        LaterChild(children, x, y);
      }
      hide KindsPrecede;
      KindsConcat(Below(c.name, Flat(c)), FlatAll(rest));
    }
  }

  lemma FirstByKind(children: seq<Node>)
    requires children != [] && KindsTell(children) && Ordered(Flat(children[0]))
    ensures KindsOrdered(Below(children[0].name, Flat(children[0])))
  {
    hide Flat, Precedes;
    var c := children[0];
    var below := Below(c.name, Flat(c));
    OrderedBelow(c.name, Flat(c));
    forall i | 0 <= i < |below| ensures High(below[i]) <==> c.high {
      assert Flat(c)[i] == Route(Flat(c)[i].path, Flat(c)[i].entry) && Flat(c)[i] in Flat(c);
    }
  }

  lemma KindsConcat(a: seq<Route>, b: seq<Route>)
    requires KindsOrdered(a) && KindsOrdered(b) && forall x <- a, y <- b :: KindsPrecede(x, y)
    ensures KindsOrdered(a + b)
  {
    hide KindsPrecede;
    forall i, j | 0 <= i < j < |a + b| ensures KindsPrecede((a + b)[i], (a + b)[j]) {
      if i < |a| <= j {
        assert (a + b)[i] == a[i] && (a + b)[j] == b[j - |a|] && a[i] in a && b[j - |a|] in b;
      }
    }
  }

  /** All routes of a method: of those with a path, the high ones first. */
  lemma MethodOrdered(methods: seq<Node>, keys: seq<Key>, node: Node)
    requires TableOk(methods, keys) && node in methods
    ensures KindsOrdered(FlatAll(node.children)) && Increasing(node.handlers)
  {
    hide Flat, FlatAll, Entries, Precedes;
    LookupOnly(methods, node);
    forall p, hi ensures At(methods, node.name, p, hi) == Entries(node, p, hi) && Increasing(Entries(node, p, hi)) {
      assert Increasing(At(methods, node.name, p, hi));
    }
    forall c <- node.children ensures Ordered(Flat(c)) {
      forall p ensures Increasing(Entries(c, p, c.high)) {
        EntriesOfChild(node, c, p, c.high);
      }
      FlatOrdered(c);
    }
    forall c <- node.children, p, e | Route(p, e) in Flat(c) ensures c.high <==> Priority(e) == HIGH_PRIORITY {
      FlatEntries(c, p, e);
      EntriesOfChild(node, c, p, c.high);
      assert e in At(methods, node.name, [c.name] + p, c.high) <==> Listed(keys, node.name, [c.name] + p, c.high, e);
    }
    ChildrenByKind(node.children);
    assert Increasing(Entries(node, [], false)) && Entries(node, [], false) == node.handlers by { OwnEntries(node); }
  }

  lemma OwnEntries(node: Node)
    ensures Entries(node, [], false) == node.handlers
  {
  }

  // ---------------------------------------------------------------- what a request meets first

  lemma PrefixCannotMatch(a: seq<string>, b: seq<string>, segments: seq<string>)
    requires |a| < |b| && a == b[..|a|] && Matches(a, segments)
    ensures !Matches(b, segments)
  {
    if a != [] {
      assert a[0] == b[0] && a[1..] == b[1..][..|a| - 1];
      if segments != [] && !IsWildcard(a[0]) && Matches(a[1..], segments[1..]) {
        PrefixCannotMatch(a[1..], b[1..], segments[1..]);
      }
    }
  }

  /** Of two routes of one method that match a request, the later one is of high priority only if the earlier one is. Of
      two that both are, or both are not, with the same path the earlier one has the smaller priority; with different
      paths, where they first differ, the earlier one has no ':' in front unless the later one has ':' or '*', and no
      '*' unless the later one has. */
  lemma MetInOrder(methods: seq<Node>, keys: seq<Key>, verb: string, segments: seq<string>, i: nat, j: nat)
    requires TableOk(methods, keys)
    requires var routes := RoutesOf(methods, verb);
             i < j < |routes| && Matches(routes[i].path, segments) && Matches(routes[j].path, segments)
    ensures var a, b := RoutesOf(methods, verb)[i], RoutesOf(methods, verb)[j];
            var p, q := a.entry / 0x1000_0000 * 0x1000_0000, b.entry / 0x1000_0000 * 0x1000_0000;
            && (q == 0xd000_0000 ==> p == 0xd000_0000)
            && ((p == 0xd000_0000 <==> q == 0xd000_0000) && a.path == b.path ==> p < q)
            && ((p == 0xd000_0000 <==> q == 0xd000_0000) && a.path != b.path ==>
                  exists k :: 0 <= k < |a.path| && k < |b.path| && a.path[..k] == b.path[..k] && a.path[k] != b.path[k]
                    && (a.path[k] != "" && a.path[k][0] == ':' ==> b.path[k] != "" && (b.path[k][0] == ':' || b.path[k][0] == '*'))
                    && (a.path[k] != "" && a.path[k][0] == '*' ==> b.path[k] != "" && b.path[k][0] == '*'))
  {
    hide TableOk, Flat, FlatAll, KindsOrdered, Precedes;
    var routes := RoutesOf(methods, verb);
    LookupNamed(methods, verb, false);
    var node := Lookup(methods, verb, false).value;
    MethodOrdered(methods, keys, node);
    var a, b := routes[i], routes[j];
    FlatParts(node);
    PairInOrder(node, segments, i, j);
    DifferentPriorities(methods, keys, verb, i, j);
    PriorityIs(a.entry);
    PriorityIs(b.entry);
    PrecedesIs(a, b, segments);
  }

  lemma FlatParts(node: Node)
    ensures Flat(node) == Own(node.handlers) + FlatAll(node.children)
  {
  }

  lemma PriorityIs(entry: nat)
    ensures Priority(entry) == entry / 0x1000_0000 * 0x1000_0000
  {
  }

  lemma PairInOrder(node: Node, segments: seq<string>, i: nat, j: nat)
    requires KindsOrdered(FlatAll(node.children)) && Increasing(node.handlers)
    requires i < j < |Flat(node)| && Matches(Flat(node)[i].path, segments) && Matches(Flat(node)[j].path, segments)
    ensures KindsPrecede(Flat(node)[i], Flat(node)[j]) || (Flat(node)[i].path == Flat(node)[j].path && Flat(node)[i].entry < Flat(node)[j].entry)
  {
    hide FlatAll, Precedes;
    var own, below := Own(node.handlers), FlatAll(node.children);
    OwnBeforeChildren(node);
    if |own| <= i {
      assert KindsPrecede(below[i - |own|], below[j - |own|]);
    }
  }

  lemma DifferentPriorities(methods: seq<Node>, keys: seq<Key>, verb: string, i: nat, j: nat)
    requires TableOk(methods, keys) && i < j < |RoutesOf(methods, verb)|
    ensures var a, b := RoutesOf(methods, verb)[i], RoutesOf(methods, verb)[j];
            && (a.path == b.path ==> Priority(a.entry) != Priority(b.entry))
            && Priority(a.entry) in {HIGH_PRIORITY, MEDIUM_PRIORITY, LOW_PRIORITY}
            && Priority(b.entry) in {HIGH_PRIORITY, MEDIUM_PRIORITY, LOW_PRIORITY}
  {
    var routes := RoutesOf(methods, verb);
    var a, b := routes[i], routes[j];
    assert a == Route(a.path, a.entry) && b == Route(b.path, b.entry);
    RoutesListed(methods, keys, verb, a.path, a.entry);
    RoutesListed(methods, keys, verb, b.path, b.entry);
    RoutesOnce(methods, keys, verb);
    assert forall key <- keys :: KeyOk(key);
    hide TableOk, RoutesOf;
    assert keys[Id(a.entry)] in keys && keys[Id(b.entry)] in keys;
    assert a.entry == Priority(a.entry) + Id(a.entry) && b.entry == Priority(b.entry) + Id(b.entry);
    if a.path == b.path && Priority(a.entry) == Priority(b.entry) {
      SameKey(methods, keys, Id(a.entry), Id(b.entry));
    }
  }

  lemma SameKey(methods: seq<Node>, keys: seq<Key>, x: nat, y: nat)
    requires TableOk(methods, keys) && x < |keys| && y < |keys| && keys[x] == keys[y]
    ensures x == y
  {
  }

  lemma PrecedesIs(a: Route, b: Route, segments: seq<string>)
    requires Matches(a.path, segments) && Matches(b.path, segments)
    ensures Precedes(a, b) && a.path != b.path ==>
              exists k :: 0 <= k < |a.path| && k < |b.path| && a.path[..k] == b.path[..k] && a.path[k] != b.path[k]
                && (a.path[k] != "" && a.path[k][0] == ':' ==> b.path[k] != "" && (b.path[k][0] == ':' || b.path[k][0] == '*'))
                && (a.path[k] != "" && a.path[k][0] == '*' ==> b.path[k] != "" && b.path[k][0] == '*')
    ensures Precedes(a, b) && a.path == b.path ==> a.entry < b.entry
  {
    hide Matches;
    if |a.path| < |b.path| && a.path == b.path[..|a.path|] {
      PrefixCannotMatch(a.path, b.path, segments);
    }
    if k :| 0 <= k < |a.path| && k < |b.path| && Differ(a.path, b.path, k) {
      assert a.path[..k] == b.path[..k] && a.path[k] != b.path[k];
    }
  }

  /** The same of registered keys: one of high priority is met before one that is not; of two of the same kind with the
      same path the one with the smaller priority; and with different paths, where they first differ, a plain name
      before ':' before '*'. */
  lemma KeysInOrder(methods: seq<Node>, keys: seq<Key>, segments: seq<string>, x: nat, y: nat)
    requires TableOk(methods, keys) && x < |keys| && y < |keys| && keys[x].verb == keys[y].verb
    requires Matches(keys[x].path, segments) && Matches(keys[y].path, segments)
    requires var a, b := keys[x], keys[y];
             || (a.priority == 0xd000_0000 && b.priority != 0xd000_0000)
             || ((a.priority == 0xd000_0000 <==> b.priority == 0xd000_0000) && a.path == b.path && a.priority < b.priority)
             || ((a.priority == 0xd000_0000 <==> b.priority == 0xd000_0000)
                 && exists k :: 0 <= k < |a.path| && k < |b.path| && a.path[..k] == b.path[..k] && b.path[k] != ""
                      && ((b.path[k][0] == '*' && (a.path[k] == "" || a.path[k][0] != '*'))
                          || (b.path[k][0] == ':' && (a.path[k] == "" || (a.path[k][0] != ':' && a.path[k][0] != '*')))))
    ensures exists i, j :: 0 <= i < j < |RoutesOf(methods, keys[x].verb)|
              && RoutesOf(methods, keys[x].verb)[i] == Route(keys[x].path, keys[x].priority + x)
              && RoutesOf(methods, keys[x].verb)[j] == Route(keys[y].path, keys[y].priority + y)
  {
    hide TableOk, Matches, RoutesOf;
    var routes := RoutesOf(methods, keys[x].verb);
    var i := PlaceOf(methods, keys, x);
    var j := PlaceOf(methods, keys, y);
    if j < i {
      MetInOrder(methods, keys, keys[x].verb, segments, j, i);
      var a, b := keys[x], keys[y];
      if k :| 0 <= k < |a.path| && k < |b.path| && a.path[..k] == b.path[..k] && a.path[k] != b.path[k] {
        forall n | 0 <= n < |a.path| && n < |b.path| && a.path[..n] == b.path[..n] && a.path[n] != b.path[n] ensures n == k {
          FirstDifference(a.path, b.path, k, n);
        }
      }
    }
  }

  lemma FirstDifference(a: seq<string>, b: seq<string>, k: nat, n: nat)
    requires k < |a| && k < |b| && n < |a| && n < |b|
    requires a[..k] == b[..k] && a[k] != b[k] && a[..n] == b[..n] && a[n] != b[n]
    ensures k == n
  {
    PrefixAgrees(a, b, n, k);
    PrefixAgrees(a, b, k, n);
  }

  lemma PrefixAgrees(a: seq<string>, b: seq<string>, n: nat, k: nat)
    requires n <= |a| && n <= |b| && a[..n] == b[..n]
    ensures k < n ==> a[k] == b[k]
  {
    if k < n {
      assert a[..n][k] == b[..n][k];
    }
  }

  /** Where the route of a key is met. */
  lemma PlaceOf(methods: seq<Node>, keys: seq<Key>, x: nat) returns (i: nat)
    requires TableOk(methods, keys) && x < |keys|
    ensures i < |RoutesOf(methods, keys[x].verb)|
    ensures RoutesOf(methods, keys[x].verb)[i] == Route(keys[x].path, keys[x].priority + x)
    ensures (keys[x].priority + x) / 0x1000_0000 * 0x1000_0000 == keys[x].priority
    ensures keys[x].priority in {0xd000_0000, 0xe000_0000, 0xf000_0000}
  {
    assert |keys| < HANDLER_RANGE && KeyOk(keys[x]) by { assert keys[x] in keys; }
    EntryParts(keys[x].priority, x);
    PriorityIs(keys[x].priority + x);
    RoutesListed(methods, keys, keys[x].verb, keys[x].path, keys[x].priority + x);
    hide TableOk, RoutesOf;
    i :| 0 <= i < |RoutesOf(methods, keys[x].verb)|
      && RoutesOf(methods, keys[x].verb)[i] == Route(keys[x].path, keys[x].priority + x);
  }

  function Matching(routes: seq<Route>, segments: seq<string>): (n: nat) {
    if routes == [] then 0 else (if Matches(routes[0].path, segments) then 1 else 0) + Matching(routes[1..], segments)
  }

  /** The handlers of the matching routes are called in this order, until one accepts. */
  lemma {:induction false} CallsInOrder(routes: seq<Route>, handlers: seq<Handler>, answers: Answers, segments: seq<string>,
                                        parameters: seq<string>, calls: seq<Call>, i: nat)
    requires Known(routes, |handlers|) && i < |routes| && Matches(routes[i].path, segments)
    ensures var r, n := Scan(routes, handlers, answers, segments, parameters, calls), |calls| + Matching(routes[..i], segments);
            if n < |r.calls|
            then r.calls[n] == Call(handlers[Id(routes[i].entry)], parameters + Parameters(routes[i].path, segments))
            else r.found
    ensures calls <= Scan(routes, handlers, answers, segments, parameters, calls).calls
    decreases |routes|
  {
    hide Matches, Parameters;
    var first, rest := routes[0], routes[1..];
    ScanCallsMatching(routes, handlers, answers, segments, parameters, calls);
    if i > 0 {
      assert routes[..i][0] == first && routes[..i][1..] == rest[..i - 1];
      if !Matches(first.path, segments) {
        CallsInOrder(rest, handlers, answers, segments, parameters, calls, i - 1);
      } else {
        var call := Call(handlers[Id(first.entry)], parameters + Parameters(first.path, segments));
        if !answers(calls + [call]) {
          CallsInOrder(rest, handlers, answers, segments, parameters, calls + [call], i - 1);
        }
      }
    } else {
      var call := Call(handlers[Id(first.entry)], parameters + Parameters(first.path, segments));
      if !answers(calls + [call]) {
        ScanCallsMatching(rest, handlers, answers, segments, parameters, calls + [call]);
      }
    }
  }
}
