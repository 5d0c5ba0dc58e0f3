/** The whole router as a table of keys, one for each handler: what the tree of HttpRouter.h holds is exactly
    this table, however handlers have been added, replaced and removed. */
module RouteTable {
  import opened Options
  import opened RouteTree
  import opened RouteUpdate

  const ANY_METHOD := "*"

  datatype Key = Key(verb: string, path: seq<string>, priority: nat)

  predicate KeyOk(key: Key) {
    && (key.priority == HIGH_PRIORITY || key.priority == MEDIUM_PRIORITY || key.priority == LOW_PRIORITY)
    && forall name <- key.path :: Normal(name)
  }

  /** The handler with index `Id(entry)` is for this method and path. */
  predicate Listed(keys: seq<Key>, verb: string, path: seq<string>, high: bool, entry: nat) {
    && Id(entry) < |keys| && keys[Id(entry)] == Key(verb, path, Priority(entry))
    && (path == [] || high == (Priority(entry) == HIGH_PRIORITY))
  }

  predicate AllDifferent<T(==)>(s: seq<T>) {
    forall i, j :: 0 <= i < j < |s| ==> s[i] != s[j]
  }

  /** The node for any method comes last. */
  predicate AnyLast(methods: seq<Node>) {
    forall i :: 0 <= i < |methods| - 1 ==> methods[i].name != ANY_METHOD
  }

  const PLACEHOLDER := Node(ANY_METHOD, [], [], false)

  predicate MethodOk(node: Node) {
    !node.high && Tidy(node) && (!Bare(node) || node == PLACEHOLDER)
  }

  predicate MethodsOk(methods: seq<Node>) {
    Apart(methods) && AnyLast(methods) && forall c <- methods :: MethodOk(c)
  }

  ghost predicate Holds(methods: seq<Node>, keys: seq<Key>) {
    && (forall m, p, hi, e :: e in At(methods, m, p, hi) <==> Listed(keys, m, p, hi, e))
    && (forall m, p, hi :: Increasing(At(methods, m, p, hi)))
  }

  /** The tree is in order and holds each handler exactly once, where its key says. */
  ghost predicate TableOk(methods: seq<Node>, keys: seq<Key>) {
    && |keys| < HANDLER_RANGE && AllDifferent(keys) && (forall key <- keys :: KeyOk(key))
    && MethodsOk(methods) && Holds(methods, keys)
  }

  lemma EntryParts(priority: nat, id: nat)
    requires priority % HANDLER_RANGE == 0 && id < HANDLER_RANGE
    ensures Id(priority + id) == id && Priority(priority + id) == priority
  {
  }

  // ---------------------------------------------------------------- adding

  predicate StringLess(a: string, b: string) {
    b != "" && (a == "" || a[0] < b[0] || (a[0] == b[0] && StringLess(a[1..], b[1..])))
  }

  /** GET first, any method last, others by name. */
  predicate MethodLess(a: string, b: string) {
    if a == "GET" && b != "GET" then true
    else if b == "GET" && a != "GET" then false
    else if a == ANY_METHOD && b != ANY_METHOD then false
    else if b == ANY_METHOD && a != ANY_METHOD then true
    else StringLess(a, b)
  }

  function SortInto(node: Node, sorted: seq<Node>): (r: seq<Node>) {
    if sorted == [] || MethodLess(node.name, sorted[0].name) then [node] + sorted
    else [sorted[0]] + SortInto(node, sorted[1..])
  }

  function SortMethods(methods: seq<Node>): (r: seq<Node>) {
    if methods == [] then [] else SortInto(methods[0], SortMethods(methods[1..]))
  }

  /** The node of a method, an empty one if there is none. */
  function MethodNode(methods: seq<Node>, verb: string): Node {
    match Lookup(methods, verb, false)
    case None => Node(verb, [], [], false)
    case Some(node) => node
  }

  function PutMethod(methods: seq<Node>, node: Node): (r: seq<Node>) {
    if Lookup(methods, node.name, false).None? then methods + [node] else Replace(methods, node)
  }

  function Added(methods: seq<Node>, key: Key, entry: nat): (r: seq<Node>) {
    SortMethods(PutMethod(methods, Insert(MethodNode(methods, key.verb), key.path, key.priority == HIGH_PRIORITY, entry)))
  }

  lemma {:induction false} SortedIntoMembers(node: Node, sorted: seq<Node>)
    ensures forall c :: c in SortInto(node, sorted) <==> c == node || c in sorted
  {
    if sorted != [] && !MethodLess(node.name, sorted[0].name) {
      SortedIntoMembers(node, sorted[1..]);
    }
  }

  lemma {:induction false} SortedInto(node: Node, sorted: seq<Node>)
    requires Apart(sorted) && AnyLast(sorted) && !node.high && (forall c <- sorted :: !c.high && c.name != node.name)
    ensures Apart(SortInto(node, sorted)) && AnyLast(SortInto(node, sorted))
    ensures forall name :: Lookup(SortInto(node, sorted), name, false)
                        == if name == node.name then Some(node) else Lookup(sorted, name, false)
  {
    hide StringLess;
    if sorted != [] && !MethodLess(node.name, sorted[0].name) {
      SortedInto(node, sorted[1..]);
      SortedIntoMembers(node, sorted[1..]);
      OneMore(sorted[0], SortInto(node, sorted[1..]));
      forall d <- sorted[1..] ensures d.name != sorted[0].name {
        var k :| 0 <= k < |sorted[1..]| && sorted[1..][k] == d;
        assert sorted[k + 1] == d;
      }
    }
  }

  /** Sorting changes nothing but the order. */
  lemma {:induction false} Sorted(methods: seq<Node>)
    requires Apart(methods) && forall c <- methods :: !c.high
    ensures Apart(SortMethods(methods)) && AnyLast(SortMethods(methods))
    ensures forall c :: c in SortMethods(methods) <==> c in methods
    ensures forall name :: Lookup(SortMethods(methods), name, false) == Lookup(methods, name, false)
  {
    if methods != [] {
      Sorted(methods[1..]);
      SortedInto(methods[0], SortMethods(methods[1..]));
      SortedIntoMembers(methods[0], SortMethods(methods[1..]));
    }
  }

  lemma HeadsAgree(a: string, b: string, k: nat)
    requires k <= |a| && k <= |b| && a[..k] == b[..k]
    ensures k > 0 ==> a[0] == b[0]
  {
    if k > 0 {
      assert a[..k][0] == b[..k][0];
    }
  }

  lemma {:induction false} StringLessIs(a: string, b: string)
    ensures StringLess(a, b) <==>
              exists k :: 0 <= k <= |a| && k < |b| && a[..k] == b[..k] && (k < |a| ==> a[k] < b[k])
  {
    if b != "" && a != "" && a[0] == b[0] {
      StringLessIs(a[1..], b[1..]);
      if k :| 0 <= k <= |a[1..]| && k < |b[1..]| && a[1..][..k] == b[1..][..k] && (k < |a[1..]| ==> a[1..][k] < b[1..][k]) {
        assert a[..k + 1] == [a[0]] + a[1..][..k] && b[..k + 1] == [b[0]] + b[1..][..k];
      }
      if k :| 0 <= k <= |a| && k < |b| && a[..k] == b[..k] && (k < |a| ==> a[k] < b[k]) {
        assert k > 0;
        assert a[1..][..k - 1] == a[..k][1..] && b[1..][..k - 1] == b[..k][1..];
      }
    } else if b != "" && a != "" {
      if k :| 0 <= k <= |a| && k < |b| && a[..k] == b[..k] && (k < |a| ==> a[k] < b[k]) {
        HeadsAgree(a, b, k);
      }
      if a[0] < b[0] {
        assert a[..0] == b[..0];
      }
    } else if b != "" {
      assert a[..0] == b[..0];
    }
  }

  /** Methods are kept with GET first, any last, and the others by their names. */
  lemma {:induction false} SortedInOrder(methods: seq<Node>)
    ensures forall i, j :: 0 <= i < j < |SortMethods(methods)| ==>
              var a, b := SortMethods(methods)[i].name, SortMethods(methods)[j].name;
              a == b || a == "GET" || b == "*" || (b != "GET" && a != "*" && StringLess(a, b))
  {
    if methods != [] {
      SortedInOrder(methods[1..]);
      SortIntoOrdered(methods[0], SortMethods(methods[1..]));
    }
  }

  predicate InMethodOrder(a: string, b: string) {
    a == b || a == "GET" || b == "*" || (b != "GET" && a != "*" && StringLess(a, b))
  }

  lemma {:induction false} SortIntoOrdered(node: Node, sorted: seq<Node>)
    requires forall i, j :: 0 <= i < j < |sorted| ==> InMethodOrder(sorted[i].name, sorted[j].name)
    ensures forall i, j :: 0 <= i < j < |SortInto(node, sorted)| ==>
              InMethodOrder(SortInto(node, sorted)[i].name, SortInto(node, sorted)[j].name)
  {
    hide StringLess;
    var r := SortInto(node, sorted);
    if sorted != [] && !MethodLess(node.name, sorted[0].name) {
      SortIntoOrdered(node, sorted[1..]);
      SortedIntoMembers(node, sorted[1..]);
      forall j | 0 < j < |r| ensures InMethodOrder(r[0].name, r[j].name) {
        NotLess(node.name, sorted[0].name);
        assert r[j] in SortInto(node, sorted[1..]);
        if r[j] != node {
          var k :| 0 <= k < |sorted[1..]| && sorted[1..][k] == r[j];
          assert sorted[k + 1] == r[j];
        }
      }
    } else if sorted != [] {
      forall j | 0 < j < |r| ensures InMethodOrder(r[0].name, r[j].name) {
        assert r[j] == sorted[j - 1];
        if j > 1 {
          LessTransitive(node.name, sorted[0].name, sorted[j - 1].name);
        }
      }
    }
  }

  lemma {:induction false} StringOrder(a: string, b: string)
    ensures StringLess(a, b) || StringLess(b, a) || a == b
  {
    if a != "" && b != "" && a[0] == b[0] {
      StringOrder(a[1..], b[1..]);
      assert a[1..] == b[1..] ==> a == [a[0]] + a[1..] == b;
    }
  }

  lemma NotLess(a: string, b: string)
    ensures !MethodLess(a, b) ==> InMethodOrder(b, a)
  {
    StringOrder(a, b);
    hide StringLess;
  }

  lemma {:induction false} StringTransitive(a: string, b: string, c: string)
    requires StringLess(a, b) && StringLess(b, c)
    ensures StringLess(a, c)
  {
    if a != "" && a[0] == b[0] == c[0] {
      StringTransitive(a[1..], b[1..], c[1..]);
    }
  }

  lemma LessTransitive(a: string, b: string, c: string)
    requires MethodLess(a, b) && InMethodOrder(b, c)
    ensures InMethodOrder(a, c)
  {
    if StringLess(a, b) && StringLess(b, c) {
      StringTransitive(a, b, c);
    }
    hide StringLess;
  }

  lemma PutMethodKeeps(methods: seq<Node>, node: Node)
    requires Apart(methods) && (forall c <- methods :: MethodOk(c)) && MethodOk(node)
    ensures Apart(PutMethod(methods, node)) && forall c <- PutMethod(methods, node) :: MethodOk(c)
    ensures forall name :: Lookup(PutMethod(methods, node), name, false)
                        == if name == node.name then Some(node) else Lookup(methods, name, false)
  {
    assert !node.high && forall c <- methods :: !c.high;
    hide MethodOk;
    if Lookup(methods, node.name, false).None? {
      assert InsertAt(methods, |methods|, node) == methods + [node];
      InsertApart(methods, |methods|, node);
      forall name { LookupInserted(methods, |methods|, node, name, false); }
    } else {
      ReplaceMembers(methods, node);
      forall name { LookupReplaced(methods, node, name, false); }
    }
  }

  lemma InsertedMembers(entries: seq<nat>, entry: nat)
    ensures forall e :: e in InsertSorted(entries, entry) <==> e in entries || e == entry
  {
    hide Upper;
    assert entries == entries[..Upper(entries, entry)] + entries[Upper(entries, entry)..];
  }

  lemma InsertedIncreasing(entries: seq<nat>, entry: nat)
    requires Increasing(entries) && entry !in entries
    ensures Increasing(InsertSorted(entries, entry))
  {
    hide Upper;
    var k, r := Upper(entries, entry), InsertSorted(entries, entry);
    forall i, j | 0 <= i < j < |r| ensures r[i] < r[j] {
      if i == k {
        assert entries[k] <= entries[j - 1] && entries[k] > entry;
      } else if j == k {
        assert entries[i] in entries;
      }
    }
  }

  /** Adding under a key that is not there: the entries of this key change, and no others. */
  lemma AddedEntries(methods: seq<Node>, key: Key, entry: nat)
    requires MethodsOk(methods) && KeyOk(key)
    ensures MethodsOk(Added(methods, key, entry))
    ensures forall m, p, hi ::
              At(Added(methods, key, entry), m, p, hi)
              == if m == key.verb && p == key.path && (p == [] || hi == (key.priority == HIGH_PRIORITY))
                 then InsertSorted(At(methods, m, p, hi), entry) else At(methods, m, p, hi)
  {
    hide Tidy, Insert, Replace, SortMethods, StringLess, InsertSorted, Bare, Entries;
    var node := MethodNode(methods, key.verb);
    var high := key.priority == HIGH_PRIORITY;
    LookupNamed(methods, key.verb, false);
    var grown := Insert(node, key.path, high, entry);
    FreshMethodTidy(key.verb);
    InsertKeepsTidy(node, key.path, high, entry);
    PutMethodKeeps(methods, grown);
    Sorted(PutMethod(methods, grown));
    forall m, p, hi
      ensures At(Added(methods, key, entry), m, p, hi)
              == if m == key.verb && p == key.path && (p == [] || hi == high)
                 then InsertSorted(At(methods, m, p, hi), entry) else At(methods, m, p, hi)
    {
      if m == key.verb {
        InsertEntries(node, key.path, high, entry, p, hi);
        NothingBelowMethod(key.verb, p, hi);
      }
    }
  }

  lemma FreshMethodTidy(verb: string)
    ensures Tidy(Node(verb, [], [], false))
  {
  }

  lemma NothingBelowMethod(verb: string, path: seq<string>, high: bool)
    ensures Entries(Node(verb, [], [], false), path, high) == []
  {
    NothingBelow(Node(verb, [], [], false), path, high);
  }

  lemma ListedAdded(keys: seq<Key>, key: Key, m: string, p: seq<string>, hi: bool, e: nat)
    requires |keys| < HANDLER_RANGE && KeyOk(key)
    ensures Listed(keys + [key], m, p, hi, e) <==>
              || Listed(keys, m, p, hi, e)
              || (e == key.priority + |keys| && m == key.verb && p == key.path && (p == [] || hi == (key.priority == HIGH_PRIORITY)))
    ensures !Listed(keys, m, p, hi, key.priority + |keys|)
  {
    EntryParts(key.priority, |keys|);
    assert e == Id(e) + Priority(e);
  }

  /** Adding a handler for a key that has none. */
  lemma AddKeeps(methods: seq<Node>, keys: seq<Key>, key: Key)
    requires TableOk(methods, keys) && KeyOk(key) && key !in keys && |keys| < HANDLER_RANGE - 1
    ensures TableOk(Added(methods, key, key.priority + |keys|), keys + [key])
  {
    hide Added, MethodsOk, At, InsertSorted, KeyOk, Listed, Increasing;
    var entry := key.priority + |keys|;
    AddedEntries(methods, key, entry);
    var then_, more := Added(methods, key, entry), keys + [key];
    forall m, p, hi, e
      ensures e in At(then_, m, p, hi) <==> Listed(more, m, p, hi, e)
    {
      ListedAdded(keys, key, m, p, hi, e);
      InsertedMembers(At(methods, m, p, hi), entry);
    }
    forall m, p, hi ensures Increasing(At(then_, m, p, hi)) {
      ListedAdded(keys, key, m, p, hi, entry);
      InsertedIncreasing(At(methods, m, p, hi), entry);
    }
    assert forall k <- more :: k == key || k in keys;
  }

  // ---------------------------------------------------------------- removing

  function Without<T>(s: seq<T>, i: nat): seq<T>
    requires i < |s|
  {
    s[..i] + s[i + 1..]
  }

  /** The entry that becomes `entry` when the handler of `gone` is taken out. */
  function Raised(entry: nat, gone: nat): nat {
    if Id(entry) < Id(gone) then entry else entry + 1
  }

  lemma {:induction false} AdjustedMembers(entries: seq<nat>, gone: nat)
    ensures forall e :: e in Adjusted(entries, gone) <==> exists x <- entries :: x != gone && Lowered(x, gone) == e
  {
    hide Lowered;
    if entries != [] {
      AdjustedMembers(entries[1..], gone);
      forall e ensures e in Adjusted(entries, gone) <==> exists x <- entries :: x != gone && Lowered(x, gone) == e {
        assert e in Adjusted(entries[1..], gone) <==> exists x <- entries[1..] :: x != gone && Lowered(x, gone) == e;
      }
    }
  }

  /** Lowering can be undone, as `gone` is the only entry for its handler. */
  lemma LoweredRaised(x: nat, gone: nat, e: nat)
    requires x != gone && (Id(x) == Id(gone) ==> x == gone)
    ensures Lowered(x, gone) == e <==> x == Raised(e, gone) && Id(e) < HANDLER_RANGE - 1
    ensures Lowered(x, gone) == e ==> Priority(e) == Priority(x) && Id(e) == if Id(x) > Id(gone) then Id(x) - 1 else Id(x)
  {
  }

  lemma LoweredOrder(a: nat, b: nat, gone: nat)
    requires a < b && a != gone && b != gone && (Id(a) == Id(gone) ==> a == gone)
    ensures Lowered(a, gone) < Lowered(b, gone)
  {
    if Id(b) > Id(gone) && a == b - 1 {
      assert Id(a) == Id(b) - 1;
    }
  }

  lemma {:induction false} AdjustedIncreasing(entries: seq<nat>, gone: nat)
    requires Increasing(entries) && forall x <- entries :: Id(x) == Id(gone) ==> x == gone
    ensures Increasing(Adjusted(entries, gone))
  {
    hide Lowered, Id;
    if entries != [] {
      AdjustedIncreasing(entries[1..], gone);
      AdjustedMembers(entries[1..], gone);
      var rest := Adjusted(entries[1..], gone);
      if entries[0] != gone {
        forall e <- rest ensures Lowered(entries[0], gone) < e {
          var x :| x in entries[1..] && x != gone && Lowered(x, gone) == e;
          Smaller(entries, x);
          LoweredOrder(entries[0], x, gone);
        }
        SmallerFirst(Lowered(entries[0], gone), rest);
      } else {
        hide Increasing;
        assert Adjusted(entries, gone) == rest;
      }
    }
  }

  lemma Smaller(entries: seq<nat>, x: nat)
    requires Increasing(entries) && entries != [] && x in entries[1..]
    ensures entries[0] < x
  {
    var k :| 0 <= k < |entries[1..]| && entries[1..][k] == x;
    assert entries[k + 1] == x;
  }

  lemma SmallerFirst(first: nat, rest: seq<nat>)
    requires Increasing(rest) && forall e <- rest :: first < e
    ensures Increasing([first] + rest)
  {
    forall i, j | 0 <= i < j < |rest| + 1 ensures ([first] + rest)[i] < ([first] + rest)[j] {
      assert rest[j - 1] in rest;
    }
  }

  lemma CulledMethods(methods: seq<Node>, gone: nat)
    requires MethodsOk(methods)
    ensures MethodsOk(CulledAll(methods, gone))
    ensures forall m, p, hi :: At(CulledAll(methods, gone), m, p, hi) == Adjusted(At(methods, m, p, hi), gone)
  {
    CulledMembers(methods, gone);
    CulledInOrder(methods, gone);
    CulledAnyLast(methods, gone);
    forall d <- CulledAll(methods, gone) ensures MethodOk(d) {
      var c :| c in methods && d == Culled(c, gone);
      CullKeepsTidy(c, gone);
    }
    forall m, p, hi
      ensures At(CulledAll(methods, gone), m, p, hi) == Adjusted(At(methods, m, p, hi), gone)
    {
      LookupCulled(methods, gone, m, false);
      LookupNamed(methods, m, false);
      var c := Lookup(methods, m, false);
      if c.Some? {
        CullEntries(c.value, gone, p, hi);
        if Bare(Culled(c.value, gone)) {
          NothingBelow(Culled(c.value, gone), p, hi);
        }
      }
    }
  }

  lemma {:induction false} CulledAnyLast(methods: seq<Node>, gone: nat)
    requires AnyLast(methods)
    ensures AnyLast(CulledAll(methods, gone))
  {
    hide Culled, Bare;
    if |methods| > 1 {
      CulledAnyLast(methods[1..], gone);
      assert methods[0].name != ANY_METHOD;
    }
  }

  lemma ListedRemoved(keys: seq<Key>, i: nat, m: string, p: seq<string>, hi: bool, e: nat)
    requires i < |keys| < HANDLER_RANGE && keys[i].priority % HANDLER_RANGE == 0
    ensures var gone := keys[i].priority + i;
            Listed(Without(keys, i), m, p, hi, e)
            <==> Id(e) < HANDLER_RANGE - 1 && Raised(e, gone) != gone && Listed(keys, m, p, hi, Raised(e, gone))
  {
    EntryParts(keys[i].priority, i);
    var gone := keys[i].priority + i;
    if Id(e) < HANDLER_RANGE - 1 && Id(e) >= i {
      assert Id(e + 1) == Id(e) + 1 && Priority(e + 1) == Priority(e);
    }
  }

  /** Removing a handler keeps all others, under their keys, though most get a new index. */
  lemma RemoveKeeps(methods: seq<Node>, keys: seq<Key>, i: nat)
    requires TableOk(methods, keys) && i < |keys|
    ensures TableOk(CulledAll(methods, keys[i].priority + i), Without(keys, i))
  {
    hide At, MethodsOk, Listed, Increasing, Lowered, Raised, Id;
    assert keys[i] in keys;
    var gone := keys[i].priority + i;
    var then_, fewer := CulledAll(methods, gone), Without(keys, i);
    CulledMethods(methods, gone);
    hide CulledAll, Adjusted;
    forall m, p, hi, x | x in At(methods, m, p, hi) ensures Id(x) == Id(gone) ==> x == gone {
      ListedOnce(keys, i, m, p, hi, x);
    }
    forall m, p, hi, e ensures e in At(then_, m, p, hi) <==> Listed(fewer, m, p, hi, e) {
      ListedRemoved(keys, i, m, p, hi, e);
      AdjustedMembers(At(methods, m, p, hi), gone);
      forall x | x in At(methods, m, p, hi) && x != gone
        ensures Lowered(x, gone) == e <==> x == Raised(e, gone) && Id(e) < HANDLER_RANGE - 1
      {
        LoweredRaised(x, gone, e);
      }
    }
    forall m, p, hi ensures Increasing(At(then_, m, p, hi)) {
      AdjustedIncreasing(At(methods, m, p, hi), gone);
    }
    assert forall k <- fewer :: k in keys;
  }

  /** The only entry for a handler is the one its key says. */
  lemma ListedOnce(keys: seq<Key>, i: nat, m: string, p: seq<string>, hi: bool, x: nat)
    requires i < |keys| < HANDLER_RANGE && KeyOk(keys[i]) && Listed(keys, m, p, hi, x)
    ensures Id(x) == Id(keys[i].priority + i) ==> x == keys[i].priority + i
  {
    EntryParts(keys[i].priority, i);
    assert x == Id(x) + Priority(x);
  }

  // ---------------------------------------------------------------- searching

  /** All routes of a method. */
  function RoutesOf(methods: seq<Node>, verb: string): (routes: seq<Route>) {
    match Lookup(methods, verb, false)
    case None => []
    case Some(node) => Flat(node)
  }

  lemma FlatMember(node: Node, p: seq<string>, e: nat)
    ensures Route(p, e) in Flat(node) <==> (p == [] && e in node.handlers) || Route(p, e) in FlatAll(node.children)
  {
    var own := Own(node.handlers);
    if p == [] && e in node.handlers {
      var i :| 0 <= i < |node.handlers| && node.handlers[i] == e;
      assert own[i] == Route(p, e);
    }
  }

  lemma {:induction false} FlatAllMember(children: seq<Node>, p: seq<string>, e: nat)
    ensures Route(p, e) in FlatAll(children) <==> p != [] && exists c <- children :: c.name == p[0] && Route(p[1..], e) in Flat(c)
  {
    hide Flat;
    if children != [] {
      FlatAllMember(children[1..], p, e);
      var c := children[0];
      BelowMember(c.name, Flat(c), p, e);
      assert Route(p, e) in FlatAll(children) <==> Route(p, e) in Below(c.name, Flat(c)) || Route(p, e) in FlatAll(children[1..]);
    }
  }

  lemma BelowMember(name: string, routes: seq<Route>, p: seq<string>, e: nat)
    ensures Route(p, e) in Below(name, routes) <==> p != [] && p[0] == name && Route(p[1..], e) in routes
  {
    if p != [] && p[0] == name && Route(p[1..], e) in routes {
      var i :| 0 <= i < |routes| && routes[i] == Route(p[1..], e);
      assert Below(name, routes)[i].path == [name] + p[1..] == p;
    }
  }

  lemma {:induction false} LookupOnly(children: seq<Node>, c: Node)
    requires Apart(children) && c in children
    ensures Lookup(children, c.name, c.high) == Some(c)
  {
    var k :| 0 <= k < |children| && children[k] == c;
    if k > 0 {
      assert children[1..][k - 1] == c;
      LookupOnly(children[1..], c);
    }
  }

  /** The routes below a node of one kind are its entries of that kind. */
  lemma {:induction false} FlatEntries(node: Node, p: seq<string>, e: nat)
    requires Tidy(node) && Uniform(node)
    ensures Route(p, e) in Flat(node) <==> e in Entries(node, p, node.high)
    decreases |p|
  {
    FlatMember(node, p, e);
    FlatAllMember(node.children, p, e);
    if p != [] {
      LookupNamed(node.children, p[0], node.high);
      forall c <- node.children | c.name == p[0]
        ensures Lookup(node.children, p[0], node.high) == Some(c)
        ensures Route(p[1..], e) in Flat(c) <==> e in Entries(c, p[1..], node.high)
      {
        LookupOnly(node.children, c);
        FlatEntries(c, p[1..], e);
      }
    }
  }

  /** The routes of a method are its entries of both kinds. */
  lemma FlatMethod(node: Node, p: seq<string>, e: nat)
    requires Tidy(node)
    ensures Route(p, e) in Flat(node) <==> e in Entries(node, p, true) || e in Entries(node, p, false)
  {
    hide Flat;
    FlatMember(node, p, e);
    FlatAllMember(node.children, p, e);
    if p != [] {
      FlatKind(node, p, e, true);
      FlatKind(node, p, e, false);
    }
  }

  lemma FlatKind(node: Node, p: seq<string>, e: nat, high: bool)
    requires Tidy(node) && p != []
    ensures e in Entries(node, p, high) <==>
              exists c <- node.children :: c.name == p[0] && c.high == high && Route(p[1..], e) in Flat(c)
  {
    hide Flat;
    LookupNamed(node.children, p[0], high);
    forall c <- node.children | c.name == p[0] && c.high == high
      ensures Lookup(node.children, p[0], high) == Some(c)
      ensures Route(p[1..], e) in Flat(c) <==> e in Entries(c, p[1..], high)
    {
      LookupOnly(node.children, c);
      FlatEntries(c, p[1..], e);
    }
  }

  /** A method's routes in the tree are the keys with this method, no more and no fewer. */
  lemma RoutesListed(methods: seq<Node>, keys: seq<Key>, verb: string, p: seq<string>, e: nat)
    requires TableOk(methods, keys)
    ensures Route(p, e) in RoutesOf(methods, verb) <==> Id(e) < |keys| && keys[Id(e)] == Key(verb, p, Priority(e))
  {
    hide Tidy, Bare, Flat, Entries, Apart;
    LookupNamed(methods, verb, false);
    var node := Lookup(methods, verb, false);
    if node.Some? {
      FlatMethod(node.value, p, e);
    }
    assert e in At(methods, verb, p, true) <==> Listed(keys, verb, p, true, e);
    assert e in At(methods, verb, p, false) <==> Listed(keys, verb, p, false, e);
  }

  lemma RoutesKnown(methods: seq<Node>, keys: seq<Key>, verb: string)
    requires TableOk(methods, keys)
    ensures Known(RoutesOf(methods, verb), |keys|)
  {
    hide TableOk, RoutesOf;
    var routes := RoutesOf(methods, verb);
    forall i | 0 <= i < |routes| ensures Id(routes[i].entry) < |keys| {
      RoutesListed(methods, keys, verb, routes[i].path, routes[i].entry);
      assert routes[i] == Route(routes[i].path, routes[i].entry);
    }
  }

  /** Nothing is listed twice among the routes of some children. */
  lemma {:induction false} FlatAllOnce(children: seq<Node>)
    requires forall c <- children :: AllDifferent(Flat(c))
    requires forall i, j, p, e :: 0 <= i < j < |children| && children[i].name == children[j].name ==>
               !(Route(p, e) in Flat(children[i]) && Route(p, e) in Flat(children[j]))
    ensures AllDifferent(FlatAll(children))
  {
    hide Flat;
    if children != [] {
      var c, rest := children[0], children[1..];
      FlatAllOnce(rest);
      forall r <- Below(c.name, Flat(c)) ensures r !in FlatAll(rest) {
        BelowMember(c.name, Flat(c), r.path, r.entry);
        FlatAllMember(rest, r.path, r.entry);
        assert r == Route(r.path, r.entry);
        forall d <- rest | d.name == c.name ensures Route(r.path[1..], r.entry) !in Flat(d) {
          var k :| 0 <= k < |rest| && rest[k] == d;
          assert children[k + 1] == d;
        }
      }
      BelowOnce(c.name, Flat(c));
      OnceConcat(Below(c.name, Flat(c)), FlatAll(rest));
    }
  }

  lemma BelowOnce(name: string, routes: seq<Route>)
    requires AllDifferent(routes)
    ensures AllDifferent(Below(name, routes))
  {
    var below := Below(name, routes);
    forall i, j | 0 <= i < j < |below| ensures below[i] != below[j] {
      assert routes[i] == Route(below[i].path[1..], below[i].entry);
      assert routes[j] == Route(below[j].path[1..], below[j].entry);
    }
  }

  lemma OnceConcat<T>(a: seq<T>, b: seq<T>)
    requires AllDifferent(a) && AllDifferent(b) && forall x <- a :: x !in b
    ensures AllDifferent(a + b)
  {
    assert forall i :: 0 <= i < |a| ==> (a + b)[i] in a;
    assert forall i :: |a| <= i < |a + b| ==> (a + b)[i] in b;
  }

  lemma EntriesOfChild(node: Node, c: Node, p: seq<string>, high: bool)
    requires Tidy(node) && c in node.children
    ensures p == [] || high == c.high ==> Entries(c, p, high) == Entries(node, [c.name] + p, c.high)
    ensures p != [] && high != c.high ==> Entries(c, p, high) == []
  {
    LookupOnly(node.children, c);
    assert ([c.name] + p)[1..] == p;
    if p != [] {
      LookupNamed(c.children, p[0], high);
    }
  }

  /** Nothing is listed twice below a node whose lists are sorted and whose two kinds have nothing in common. */
  lemma {:induction false} FlatOnce(node: Node)
    requires Tidy(node)
    requires forall p, hi :: Increasing(Entries(node, p, hi))
    requires forall p, e :: p != [] ==> !(e in Entries(node, p, true) && e in Entries(node, p, false))
    ensures AllDifferent(Flat(node))
  {
    hide Entries, FlatAll;
    forall c <- node.children ensures AllDifferent(Flat(c)) {
      forall p, hi ensures Increasing(Entries(c, p, hi)) {
        EntriesOfChild(node, c, p, hi);
      }
      forall p, e | p != [] ensures !(e in Entries(c, p, true) && e in Entries(c, p, false)) {
        EntriesOfChild(node, c, p, !c.high);
      }
      FlatOnce(c);
    }
    hide Flat;
    var cs := node.children;
    forall i, j, p, e | 0 <= i < j < |cs| && cs[i].name == cs[j].name
      ensures !(Route(p, e) in Flat(cs[i]) && Route(p, e) in Flat(cs[j]))
    {
      FlatEntries(cs[i], p, e);
      FlatEntries(cs[j], p, e);
      EntriesOfChild(node, cs[i], p, cs[i].high);
      EntriesOfChild(node, cs[j], p, cs[j].high);
    }
    FlatAllOnce(cs);
    OwnOnce(node);
  }

  lemma OwnOnce(node: Node)
    requires AllDifferent(FlatAll(node.children)) && Increasing(Entries(node, [], true))
    ensures AllDifferent(Flat(node))
  {
    hide FlatAll;
    forall r <- Own(node.handlers) ensures r !in FlatAll(node.children) {
      FlatAllMember(node.children, r.path, r.entry);
      assert r == Route(r.path, r.entry);
    }
    OnceConcat(Own(node.handlers), FlatAll(node.children));
  }

  /** No handler is met twice in a search among the routes of one method. */
  lemma RoutesOnce(methods: seq<Node>, keys: seq<Key>, verb: string)
    requires TableOk(methods, keys)
    ensures AllDifferent(RoutesOf(methods, verb))
  {
    hide Tidy, Flat, Entries, Increasing, AnyLast, Apart, KeyOk, AllDifferent;
    LookupNamed(methods, verb, false);
    var node := Lookup(methods, verb, false);
    if node.None? {
      NothingOnce<Route>();
    } else {
      forall p, hi ensures Increasing(Entries(node.value, p, hi)) {
        assert Increasing(At(methods, verb, p, hi));
      }
      forall p, e | p != [] ensures !(e in Entries(node.value, p, true) && e in Entries(node.value, p, false)) {
        assert e in At(methods, verb, p, true) <==> Listed(keys, verb, p, true, e);
        assert e in At(methods, verb, p, false) <==> Listed(keys, verb, p, false, e);
      }
      FlatOnce(node.value);
    }
  }

  lemma NothingOnce<T>()
    ensures AllDifferent<T>([])
  {
  }

  // ---------------------------------------------------------------- which handler is found

  /** A handler answers by what it sees of this call only. */
  ghost predicate Plain(answers: Answers, accepts: Call -> bool) {
    forall calls: seq<Call> :: calls != [] ==> answers(calls) == accepts(calls[|calls| - 1])
  }

  /** Then a scan finds something just when some route matches and its handler accepts; and whatever it calls is
      the handler of a matching route, with the segments its parameters match. */
  lemma {:induction false} ScanFinds(routes: seq<Route>, handlers: seq<Handler>, answers: Answers, accepts: Call -> bool,
                                     segments: seq<string>, parameters: seq<string>, calls: seq<Call>)
    requires Known(routes, |handlers|) && Plain(answers, accepts)
    ensures Scan(routes, handlers, answers, segments, parameters, calls).found <==>
              exists r <- routes :: Matches(r.path, segments)
                && accepts(Call(handlers[Id(r.entry)], parameters + Parameters(r.path, segments)))
    decreases |routes|
  {
    if routes != [] {
      var r, rest := routes[0], routes[1..];
      assert routes == [r] + rest;
      if Matches(r.path, segments) {
        var call := Call(handlers[Id(r.entry)], parameters + Parameters(r.path, segments));
        assert answers(calls + [call]) == accepts(call);
        ScanFinds(rest, handlers, answers, accepts, segments, parameters, calls + [call]);
      } else {
        ScanFinds(rest, handlers, answers, accepts, segments, parameters, calls);
      }
    }
  }

  predicate IsCallOf(route: Route, handlers: seq<Handler>, segments: seq<string>, parameters: seq<string>, call: Call) {
    && Matches(route.path, segments) && Id(route.entry) < |handlers|
    && call == Call(handlers[Id(route.entry)], parameters + Parameters(route.path, segments))
  }

  predicate RightlyCalled(routes: seq<Route>, handlers: seq<Handler>, segments: seq<string>, parameters: seq<string>, call: Call) {
    exists route <- routes :: IsCallOf(route, handlers, segments, parameters, call)
  }

  /** Whatever a scan calls is the handler of a matching route, with the segments its parameters match. */
  lemma {:induction false} ScanCallsMatching(routes: seq<Route>, handlers: seq<Handler>, answers: Answers,
                                             segments: seq<string>, parameters: seq<string>, calls: seq<Call>)
    requires Known(routes, |handlers|)
    ensures var r := Scan(routes, handlers, answers, segments, parameters, calls);
            calls <= r.calls
            && forall i :: |calls| <= i < |r.calls| ==> RightlyCalled(routes, handlers, segments, parameters, r.calls[i])
    decreases |routes|
  {
    if routes != [] {
      var r, rest := routes[0], routes[1..];
      assert routes == [r] + rest;
      if Matches(r.path, segments) {
        var call := Call(handlers[Id(r.entry)], parameters + Parameters(r.path, segments));
        ScanCallsMatching(rest, handlers, answers, segments, parameters, calls + [call]);
        assert r in routes && RightlyCalled(routes, handlers, segments, parameters, call);
      } else {
        ScanCallsMatching(rest, handlers, answers, segments, parameters, calls);
      }
      forall c | RightlyCalled(rest, handlers, segments, parameters, c)
        ensures RightlyCalled(routes, handlers, segments, parameters, c)
      {
        var x :| x in rest && IsCallOf(x, handlers, segments, parameters, c);
        assert x in routes;
      }
    }
  }

  /** What `route` does: the routes of the method, then those of whichever method comes last. */
  function Routed(methods: seq<Node>, handlers: seq<Handler>, answers: Answers, verb: string, segments: seq<string>,
                  calls: seq<Call>): (r: Outcome)
    requires Known(RoutesOf(methods, verb), |handlers|)
    requires methods != [] ==> Known(Flat(methods[|methods| - 1]), |handlers|)
  {
    var first := Scan(RoutesOf(methods, verb), handlers, answers, segments, [], calls);
    if first.found || methods == [] then first
    else Scan(Flat(methods[|methods| - 1]), handlers, answers, segments, [], first.calls)
  }

  lemma LastIsMethod(methods: seq<Node>)
    requires Apart(methods) && methods != [] && forall c <- methods :: !c.high
    ensures RoutesOf(methods, methods[|methods| - 1].name) == Flat(methods[|methods| - 1])
  {
    LookupOnly(methods, methods[|methods| - 1]);
  }

  lemma RoutedKnown(methods: seq<Node>, keys: seq<Key>, verb: string)
    requires TableOk(methods, keys)
    ensures Known(RoutesOf(methods, verb), |keys|)
    ensures methods != [] ==> Known(Flat(methods[|methods| - 1]), |keys|)
  {
    RoutesKnown(methods, keys, verb);
    if methods != [] {
      LastIsMethod(methods);
      RoutesKnown(methods, keys, methods[|methods| - 1].name);
    }
  }

  /** A request falls through to the node for any method as long as there is one, or nothing to fall into. */
  predicate FallsToAny(methods: seq<Node>, segments: seq<string>) {
    || methods == [] || methods[|methods| - 1].name == ANY_METHOD
    || forall r <- Flat(methods[|methods| - 1]) :: !Matches(r.path, segments)
  }

  lemma {:induction false} NobodyAccepts(routes: seq<Route>, handlers: seq<Handler>, answers: Answers,
                                         segments: seq<string>, parameters: seq<string>, calls: seq<Call>)
    requires Known(routes, |handlers|) && forall c :: !answers(c)
    ensures var r := Scan(routes, handlers, answers, segments, parameters, calls);
            !r.found && |r.calls| >= |calls| && (|r.calls| > |calls| <==> exists x <- routes :: Matches(x.path, segments))
    decreases |routes|
  {
    if routes != [] {
      assert routes == [routes[0]] + routes[1..];
      if Matches(routes[0].path, segments) {
        var call := Call(handlers[Id(routes[0].entry)], parameters + Parameters(routes[0].path, segments));
        NobodyAccepts(routes[1..], handlers, answers, segments, parameters, calls + [call]);
      } else {
        NobodyAccepts(routes[1..], handlers, answers, segments, parameters, calls);
      }
    }
  }

  lemma {:induction false} NothingMatches(routes: seq<Route>, handlers: seq<Handler>, answers: Answers,
                                          segments: seq<string>, parameters: seq<string>, calls: seq<Call>)
    requires Known(routes, |handlers|) && forall x <- routes :: !Matches(x.path, segments)
    ensures Scan(routes, handlers, answers, segments, parameters, calls) == Outcome(false, calls)
    decreases |routes|
  {
    if routes != [] {
      NothingMatches(routes[1..], handlers, answers, segments, parameters, calls);
    }
  }

  /** Exactly when a request can call handlers of no other method than its own and any: culling may have taken
      the node for any method away, and then what comes last is another method. */
  lemma RightMethodsOnly(methods: seq<Node>, keys: seq<Key>, handlers: seq<Handler>, verb: string, segments: seq<string>,
                         calls: seq<Call>)
    requires TableOk(methods, keys) && |handlers| == |keys|
    ensures Known(RoutesOf(methods, verb) + RoutesOf(methods, ANY_METHOD), |handlers|)
    ensures Known(RoutesOf(methods, verb), |handlers|) && (methods != [] ==> Known(Flat(methods[|methods| - 1]), |handlers|))
    ensures FallsToAny(methods, segments) <==>
              forall answers: Answers ::
                Routed(methods, handlers, answers, verb, segments, calls)
                == Scan(RoutesOf(methods, verb) + RoutesOf(methods, ANY_METHOD), handlers, answers, segments, [], calls)
  {
    hide Scan, RoutesOf, TableOk, Flat, Matches;
    RoutedKnown(methods, keys, verb);
    RoutesKnown(methods, keys, ANY_METHOD);
    var mine, any := RoutesOf(methods, verb), RoutesOf(methods, ANY_METHOD);
    KnownParts(mine, any, |handlers|);
    AnyRoutes(methods, keys);
    forall answers: Answers
      ensures FallsToAny(methods, segments) ==>
                Routed(methods, handlers, answers, verb, segments, calls)
                == Scan(mine + any, handlers, answers, segments, [], calls)
    {
      ScanConcat(mine, any, handlers, answers, segments, [], calls);
      var first := Scan(mine, handlers, answers, segments, [], calls);
      NoMoreRoutes(handlers, answers, segments, first.calls);
      if methods != [] && forall r <- Flat(methods[|methods| - 1]) :: !Matches(r.path, segments) {
        NothingMatches(Flat(methods[|methods| - 1]), handlers, answers, segments, [], first.calls);
        if any != [] {
          NothingMatches(any, handlers, answers, segments, [], first.calls);
        }
      }
    }
    if !FallsToAny(methods, segments) {
      var answers: Answers := _ => false;
      var first := Scan(mine, handlers, answers, segments, [], calls);
      ScanConcat(mine, any, handlers, answers, segments, [], calls);
      NoMoreRoutes(handlers, answers, segments, first.calls);
      NobodyAccepts(mine, handlers, answers, segments, [], calls);
      NobodyAccepts(Flat(methods[|methods| - 1]), handlers, answers, segments, [], first.calls);
      assert Routed(methods, handlers, answers, verb, segments, calls) != Scan(mine + any, handlers, answers, segments, [], calls);
    }
  }

  lemma NoMoreRoutes(handlers: seq<Handler>, answers: Answers, segments: seq<string>, calls: seq<Call>)
    ensures Scan([], handlers, answers, segments, [], calls) == Outcome(false, calls)
  {
  }

  lemma AnyRoutes(methods: seq<Node>, keys: seq<Key>)
    requires TableOk(methods, keys)
    ensures RoutesOf(methods, ANY_METHOD)
         == if methods != [] && methods[|methods| - 1].name == ANY_METHOD then Flat(methods[|methods| - 1]) else []
  {
    LookupNamed(methods, ANY_METHOD, false);
    if methods != [] {
      LastIsMethod(methods);
    }
  }

  /** Sound and complete: while there is a node for any method, a request is taken just when some registered
      handler of its method or any matches the URL and accepts. */
  lemma RouteFinds(methods: seq<Node>, keys: seq<Key>, handlers: seq<Handler>, answers: Answers, accepts: Call -> bool,
                   verb: string, segments: seq<string>, calls: seq<Call>)
    requires TableOk(methods, keys) && |handlers| == |keys| && Plain(answers, accepts)
    requires FallsToAny(methods, segments)
    ensures Known(RoutesOf(methods, verb), |handlers|) && (methods != [] ==> Known(Flat(methods[|methods| - 1]), |handlers|))
    ensures Routed(methods, handlers, answers, verb, segments, calls).found <==>
              exists i :: 0 <= i < |keys| && (keys[i].verb == verb || keys[i].verb == ANY_METHOD)
                && Matches(keys[i].path, segments) && accepts(Call(handlers[i], Parameters(keys[i].path, segments)))
  {
    hide Scan, RoutesOf, Flat, Matches, Parameters, FallsToAny, Routed, Plain, TableOk, Known;
    RightMethodsOnly(methods, keys, handlers, verb, segments, calls);
    var routes := RoutesOf(methods, verb) + RoutesOf(methods, ANY_METHOD);
    assert Routed(methods, handlers, answers, verb, segments, calls) == Scan(routes, handlers, answers, segments, [], calls);
    ScanFinds(routes, handlers, answers, accepts, segments, [], calls);
    KeysAreRoutes(methods, keys, verb);
    hide Id;
    forall path | Matches(path, segments) ensures [] + Parameters(path, segments) == Parameters(path, segments) {
    }
  }

  /** The routes of a method and any are those of their keys, the other way round too. */
  lemma KeysAreRoutes(methods: seq<Node>, keys: seq<Key>, verb: string)
    requires TableOk(methods, keys)
    ensures forall r <- RoutesOf(methods, verb) + RoutesOf(methods, ANY_METHOD) ::
              && Id(r.entry) < |keys| && keys[Id(r.entry)].path == r.path
              && (keys[Id(r.entry)].verb == verb || keys[Id(r.entry)].verb == ANY_METHOD)
    ensures forall i :: 0 <= i < |keys| && (keys[i].verb == verb || keys[i].verb == ANY_METHOD) ==>
              Route(keys[i].path, keys[i].priority + i) in RoutesOf(methods, verb) + RoutesOf(methods, ANY_METHOD)
              && Id(keys[i].priority + i) == i
  {
    hide RoutesOf, MethodsOk, Holds;
    var routes := RoutesOf(methods, verb) + RoutesOf(methods, ANY_METHOD);
    forall r <- routes
      ensures Id(r.entry) < |keys| && keys[Id(r.entry)].path == r.path
      ensures keys[Id(r.entry)].verb == verb || keys[Id(r.entry)].verb == ANY_METHOD
    {
      RoutesListed(methods, keys, verb, r.path, r.entry);
      RoutesListed(methods, keys, ANY_METHOD, r.path, r.entry);
    }
    forall i | 0 <= i < |keys| && (keys[i].verb == verb || keys[i].verb == ANY_METHOD)
      ensures Route(keys[i].path, keys[i].priority + i) in routes && Id(keys[i].priority + i) == i
    {
      assert keys[i] in keys;
      EntryParts(keys[i].priority, i);
      RoutesListed(methods, keys, keys[i].verb, keys[i].path, keys[i].priority + i);
    }
  }

  /** As long as some handler for any method is registered, requests fall through to that. */
  lemma AnyRegistered(methods: seq<Node>, keys: seq<Key>, segments: seq<string>)
    requires TableOk(methods, keys) && exists key <- keys :: key.verb == ANY_METHOD
    ensures FallsToAny(methods, segments)
  {
    hide Tidy, Entries, Increasing, KeyOk;
    var i :| 0 <= i < |keys| && keys[i].verb == ANY_METHOD;
    assert KeyOk(keys[i]);
    var entry := keys[i].priority + i;
    EntryOfKey(keys, i);
    assert entry in At(methods, ANY_METHOD, keys[i].path, keys[i].priority == HIGH_PRIORITY);
    LookupNamed(methods, ANY_METHOD, false);
  }

  lemma EntryOfKey(keys: seq<Key>, i: nat)
    requires i < |keys| < HANDLER_RANGE && KeyOk(keys[i])
    ensures Listed(keys, keys[i].verb, keys[i].path, keys[i].priority == HIGH_PRIORITY, keys[i].priority + i)
  {
    EntryParts(keys[i].priority, i);
  }

  /** A router without handlers. */
  lemma EmptyTable()
    ensures TableOk([PLACEHOLDER], [])
  {
    forall m, p, hi ensures At([PLACEHOLDER], m, p, hi) == [] {
      NothingBelow(PLACEHOLDER, p, hi);
      LookupNamed([PLACEHOLDER], m, false);
    }
  }
}
