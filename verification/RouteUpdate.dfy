/** Adding to and culling the routing tree (HttpRouter.h), as functions on trees, and what they do to the
    entries found under a path. */
module RouteUpdate {
  import opened Options
  import opened RouteTree

  // ---------------------------------------------------------------- looking up

  /** The first child of that name and kind. */
  function Lookup(children: seq<Node>, name: string, high: bool): (child: Option<Node>) {
    if children == [] then None
    else if children[0].name == name && children[0].high == high then Some(children[0])
    else Lookup(children[1..], name, high)
  }

  /** The entries under a path; below a method's node a route has its nodes all high or all not. */
  function Entries(node: Node, path: seq<string>, high: bool): (entries: seq<nat>)
    decreases |path|
  {
    if path == [] then node.handlers
    else match Lookup(node.children, path[0], high)
      case None => []
      case Some(child) => Entries(child, path[1..], high)
  }

  /** The entries of a method's routes. */
  function At(methods: seq<Node>, name: string, path: seq<string>, high: bool): (entries: seq<nat>) {
    match Lookup(methods, name, false)
    case None => []
    case Some(node) => Entries(node, path, high)
  }

  /** Parameters have a name only in the application. */
  function Stripped(segments: seq<string>): (path: seq<string>)
    ensures |path| == |segments|
    ensures forall i :: 0 <= i < |path| ==>
              path[i] == if segments[i] != "" && segments[i][0] == ':' then ":" else segments[i]
  {
    seq(|segments|, i requires 0 <= i < |segments| => if IsParameter(segments[i]) then ":" else segments[i])
  }

  // ---------------------------------------------------------------- order

  /** Where the first greater number is. */
  function Upper(numbers: seq<nat>, x: nat): (k: nat)
    ensures k <= |numbers| && (forall i :: 0 <= i < k ==> numbers[i] <= x) && (k < |numbers| ==> numbers[k] > x)
  {
    if numbers == [] || numbers[0] > x then 0 else 1 + Upper(numbers[1..], x)
  }

  function InsertAt<T>(s: seq<T>, k: nat, x: T): seq<T>
    requires k <= |s|
  {
    s[..k] + [x] + s[k..]
  }

  function InsertSorted(entries: seq<nat>, entry: nat): (r: seq<nat>) {
    InsertAt(entries, Upper(entries, entry), entry)
  }

  predicate Increasing(entries: seq<nat>) {
    forall i, j :: 0 <= i < j < |entries| ==> entries[i] < entries[j]
  }

  /** High nodes come first; then names before parameters before wildcards. */
  function Rank(name: string, high: bool): nat {
    (if high then 0 else 3) + if IsWildcard(name) then 2 else if IsParameter(name) then 1 else 0
  }

  function Ranks(children: seq<Node>): (ranks: seq<nat>)
    ensures |ranks| == |children|
  {
    seq(|children|, i requires 0 <= i < |children| => Rank(children[i].name, children[i].high))
  }

  // ---------------------------------------------------------------- adding

  /** Replaces the child of the same name and kind, or puts a new one behind those of its rank. */
  function Put(children: seq<Node>, node: Node): (r: seq<Node>) {
    if Lookup(children, node.name, node.high).None?
    then InsertAt(children, Upper(Ranks(children), Rank(node.name, node.high)), node)
    else Replace(children, node)
  }

  function Replace(children: seq<Node>, node: Node): (r: seq<Node>)
    ensures |r| == |children|
  {
    if children == [] then []
    else if children[0].name == node.name && children[0].high == node.high then [node] + children[1..]
    else [children[0]] + Replace(children[1..], node)
  }

  function Insert(node: Node, path: seq<string>, high: bool, entry: nat): (r: Node)
    ensures r.name == node.name && r.high == node.high
    decreases |path|
  {
    if path == [] then node.(handlers := InsertSorted(node.handlers, entry))
    else
      var child := match Lookup(node.children, path[0], high)
        case None => Node(path[0], [], [], high)
        case Some(child) => child;
      LookupNamed(node.children, path[0], high);
      node.(children := Put(node.children, Insert(child, path[1..], high, entry)))
  }

  lemma {:induction false} LookupNamed(children: seq<Node>, name: string, high: bool)
    ensures var c := Lookup(children, name, high); c.Some? ==> c.value.name == name && c.value.high == high && c.value in children
    ensures Lookup(children, name, high).None? <==> forall c <- children :: c.name != name || c.high != high
  {
    if children != [] {
      LookupNamed(children[1..], name, high);
      assert children == [children[0]] + children[1..];
    }
  }

  lemma {:induction false} LookupReplaced(children: seq<Node>, node: Node, name: string, high: bool)
    requires Lookup(children, node.name, node.high).Some?
    ensures Lookup(Replace(children, node), name, high)
         == if name == node.name && high == node.high then Some(node) else Lookup(children, name, high)
  {
    if !(children[0].name == node.name && children[0].high == node.high) {
      LookupReplaced(children[1..], node, name, high);
      assert Replace(children, node)[1..] == Replace(children[1..], node);
    }
  }

  lemma {:induction false} LookupInserted(children: seq<Node>, k: nat, node: Node, name: string, high: bool)
    requires k <= |children| && Lookup(children, node.name, node.high).None?
    ensures Lookup(InsertAt(children, k, node), name, high)
         == if name == node.name && high == node.high then Some(node) else Lookup(children, name, high)
  {
    if k > 0 {
      LookupInserted(children[1..], k - 1, node, name, high);
      assert InsertAt(children, k, node)[1..] == InsertAt(children[1..], k - 1, node);
    } else {
      assert InsertAt(children, k, node)[1..] == children;
    }
  }

  lemma LookupPut(children: seq<Node>, node: Node, name: string, high: bool)
    ensures Lookup(Put(children, node), name, high)
         == if name == node.name && high == node.high then Some(node) else Lookup(children, name, high)
  {
    if Lookup(children, node.name, node.high).None? {
      LookupInserted(children, Upper(Ranks(children), Rank(node.name, node.high)), node, name, high);
    } else {
      LookupReplaced(children, node, name, high);
    }
  }

  /** Adding an entry under a path changes the entries under that path and no others. */
  lemma {:induction false} InsertEntries(node: Node, path: seq<string>, high: bool, entry: nat, p: seq<string>, h: bool)
    ensures Entries(Insert(node, path, high, entry), p, h)
         == if p == path && (p == [] || h == high) then InsertSorted(Entries(node, p, h), entry) else Entries(node, p, h)
    decreases |path|
  {
    hide Put, Lookup, InsertSorted;
    if path != [] && p != [] {
      var found := Lookup(node.children, path[0], high);
      var child := if found.None? then Node(path[0], [], [], high) else found.value;
      LookupNamed(node.children, path[0], high);
      LookupPut(node.children, Insert(child, path[1..], high, entry), p[0], h);
      InsertEntries(child, path[1..], high, entry, p[1..], h);
      assert p == [p[0]] + p[1..] && path == [path[0]] + path[1..];
      if found.None? {
        NothingBelow(child, p[1..], h);
      }
    }
  }

  lemma NothingBelow(node: Node, path: seq<string>, high: bool)
    requires Bare(node)
    ensures Entries(node, path, high) == []
  {
  }

  // ---------------------------------------------------------------- culling

  /** An entry once the handler of `gone` has been taken out of the list of handlers. */
  function Lowered(entry: nat, gone: nat): nat {
    if Id(entry) > Id(gone) then entry - 1 else entry
  }

  function Adjusted(entries: seq<nat>, gone: nat): (r: seq<nat>) {
    if entries == [] then []
    else (if entries[0] == gone then [] else [Lowered(entries[0], gone)]) + Adjusted(entries[1..], gone)
  }

  predicate Bare(node: Node) {
    node.handlers == [] && node.children == []
  }

  function Culled(node: Node, gone: nat): (r: Node)
    ensures r.name == node.name && r.high == node.high
  {
    node.(children := CulledAll(node.children, gone), handlers := Adjusted(node.handlers, gone))
  }

  function CulledAll(children: seq<Node>, gone: nat): (r: seq<Node>) {
    if children == [] then []
    else
      var first := Culled(children[0], gone);
      (if Bare(first) then [] else [first]) + CulledAll(children[1..], gone)
  }

  /** No two children of the same name and kind. */
  predicate Apart(children: seq<Node>) {
    forall i, j :: 0 <= i < j < |children| ==> children[i].name != children[j].name || children[i].high != children[j].high
  }

  lemma {:induction false} LookupCulled(children: seq<Node>, gone: nat, name: string, high: bool)
    requires Apart(children)
    ensures Lookup(CulledAll(children, gone), name, high)
         == match Lookup(children, name, high)
            case None => None
            case Some(c) => if Bare(Culled(c, gone)) then None else Some(Culled(c, gone))
  {
    if children != [] {
      var first := Culled(children[0], gone);
      LookupCulled(children[1..], gone, name, high);
      if children[0].name == name && children[0].high == high {
        LookupNamed(children[1..], name, high);
      }
      if !Bare(first) {
        assert CulledAll(children, gone)[1..] == CulledAll(children[1..], gone);
      } else {
        assert CulledAll(children, gone) == CulledAll(children[1..], gone);
      }
    }
  }

  predicate Ranked(children: seq<Node>) {
    forall i, j :: 0 <= i < j < |children| ==> Rank(children[i].name, children[i].high) <= Rank(children[j].name, children[j].high)
  }

  /** A new child goes behind the children of its kind there are already, if they are all plain names, parameters or
      wildcards. */
  lemma LaterGoesBehind(children: seq<Node>, node: Node, i: nat)
    requires Ranked(children) && Lookup(children, node.name, node.high).None?
    requires i < |children| && children[i].high == node.high
    requires var a, b := children[i].name, node.name;
             && (a != "" && a[0] == ':' <==> b != "" && b[0] == ':')
             && (a != "" && a[0] == '*' <==> b != "" && b[0] == '*')
    ensures |Put(children, node)| == |children| + 1 && Put(children, node)[..i + 1] == children[..i + 1]
  {
    hide Upper;
    var k := Upper(Ranks(children), Rank(node.name, node.high));
    assert forall j :: 0 <= j <= i ==> Ranks(children)[j] <= Ranks(children)[i];
    assert k > i;
  }

  /** All children are of the kind of the node. */
  predicate Uniform(node: Node) {
    forall c <- node.children :: c.high == node.high
  }

  predicate Normal(name: string) {
    IsParameter(name) ==> name == ":"
  }

  /** What adding and culling keep: children told apart and in order of rank, all of a route's nodes of one kind,
      no empty nodes, parameters without a name. */
  predicate Tidy(node: Node) {
    && Apart(node.children) && Ranked(node.children)
    && (forall c <- node.children :: !Bare(c) && Normal(c.name) && Uniform(c) && Tidy(c))
  }

  /** Culling lowers or removes entries and nothing else, though nodes that become empty go. */
  lemma {:induction false} CullEntries(node: Node, gone: nat, path: seq<string>, high: bool)
    requires Tidy(node)
    ensures Entries(Culled(node, gone), path, high) == Adjusted(Entries(node, path, high), gone)
    decreases |path|
  {
    if path != [] {
      LookupCulled(node.children, gone, path[0], high);
      LookupNamed(node.children, path[0], high);
      var c := Lookup(node.children, path[0], high);
      if c.Some? {
        CullEntries(c.value, gone, path[1..], high);
      }
    }
  }

  /** What is left of some children is some of them culled. */
  lemma {:induction false} CulledMembers(children: seq<Node>, gone: nat)
    ensures forall d <- CulledAll(children, gone) :: !Bare(d) && exists c <- children :: d == Culled(c, gone)
  {
    hide Culled, Bare;
    if children != [] {
      CulledMembers(children[1..], gone);
      forall d <- CulledAll(children, gone) ensures !Bare(d) && exists c <- children :: d == Culled(c, gone) {
        if d in CulledAll(children[1..], gone) {
          var c :| c in children[1..] && d == Culled(c, gone);
          assert c in children;
        } else {
          assert d == Culled(children[0], gone);
        }
      }
    }
  }

  lemma {:induction false} CulledInOrder(children: seq<Node>, gone: nat)
    ensures Apart(children) ==> Apart(CulledAll(children, gone))
    ensures Ranked(children) ==> Ranked(CulledAll(children, gone))
  {
    hide Culled, Bare, Rank;
    if children != [] {
      CulledInOrder(children[1..], gone);
      CulledMembers(children[1..], gone);
      var first, rest := Culled(children[0], gone), CulledAll(children[1..], gone);
      forall d <- rest
        ensures Apart(children) ==> d.name != first.name || d.high != first.high
        ensures Ranked(children) ==> Rank(first.name, first.high) <= Rank(d.name, d.high)
      {
        var c :| c in children[1..] && d == Culled(c, gone);
        var k :| 0 <= k < |children[1..]| && children[1..][k] == c;
        assert children[k + 1] == c;
      }
      OneMore(first, rest);
      assert Apart(children) ==> Apart(children[1..]);
      assert Ranked(children) ==> Ranked(children[1..]);
      hide Apart, Ranked;
      assert CulledAll(children, gone) == if Bare(first) then rest else [first] + rest;
    }
  }

  lemma OneMore(first: Node, rest: seq<Node>)
    ensures Apart(rest) && (forall d <- rest :: d.name != first.name || d.high != first.high) ==> Apart([first] + rest)
    ensures Ranked(rest) && (forall d <- rest :: Rank(first.name, first.high) <= Rank(d.name, d.high)) ==> Ranked([first] + rest)
  {
    hide Rank;
  }

  lemma {:induction false} CullKeepsTidy(node: Node, gone: nat)
    requires Tidy(node)
    ensures Tidy(Culled(node, gone))
    ensures Uniform(node) ==> Uniform(Culled(node, gone))
  {
    CulledMembers(node.children, gone);
    CulledInOrder(node.children, gone);
    forall c <- node.children ensures Tidy(Culled(c, gone)) && Uniform(Culled(c, gone)) {
      CullKeepsTidy(c, gone);
    }
  }

  lemma {:induction false} ReplaceMembers(children: seq<Node>, node: Node)
    ensures forall i :: 0 <= i < |children| ==>
              var r := Replace(children, node);
              r[i].name == children[i].name && r[i].high == children[i].high && (r[i] == node || r[i] == children[i])
  {
    if children != [] && !(children[0].name == node.name && children[0].high == node.high) {
      ReplaceMembers(children[1..], node);
    }
  }

  lemma InsertRanked(children: seq<Node>, node: Node)
    requires Ranked(children)
    ensures Ranked(InsertAt(children, Upper(Ranks(children), Rank(node.name, node.high)), node))
  {
    hide Rank, Upper;
    var ranks, k := Ranks(children), Upper(Ranks(children), Rank(node.name, node.high));
    var r := InsertAt(children, k, node);
    forall i, j | 0 <= i < j < |r| ensures Rank(r[i].name, r[i].high) <= Rank(r[j].name, r[j].high) {
      if i == k {
        assert r[j] == children[j - 1] && ranks[j - 1] >= ranks[k];
      } else if j == k {
        assert r[i] == children[i] && ranks[i] <= Rank(node.name, node.high);
      } else {
        assert r[i] == children[if i < k then i else i - 1] && r[j] == children[if j < k then j else j - 1];
      }
    }
  }

  lemma InsertApart(children: seq<Node>, k: nat, node: Node)
    requires k <= |children| && Lookup(children, node.name, node.high).None?
    ensures var r := InsertAt(children, k, node); (forall c <- r :: c == node || c in children) && (Apart(children) ==> Apart(r))
  {
    hide Lookup;
    LookupNamed(children, node.name, node.high);
    hide Apart;
    InsertMembers(children, k, node);
    if Apart(children) {
      InsertApartHere(children, k, node);
    }
  }

  lemma InsertMembers(children: seq<Node>, k: nat, node: Node)
    requires k <= |children|
    ensures forall c <- InsertAt(children, k, node) :: c == node || c in children
  {
    assert forall c <- children[..k] :: c in children;
    assert forall c <- children[k..] :: c in children;
  }

  lemma InsertApartHere(children: seq<Node>, k: nat, node: Node)
    requires k <= |children| && Apart(children) && forall c <- children :: c.name != node.name || c.high != node.high
    ensures Apart(InsertAt(children, k, node))
  {
    var r := InsertAt(children, k, node);
    forall i, j | 0 <= i < j < |r| ensures r[i].name != r[j].name || r[i].high != r[j].high {
      var i', j' := if i < k then i else i - 1, if j < k then j else j - 1;
      if i == k {
        assert r[j] == children[j'] && children[j'] in children;
      } else if j == k {
        assert r[i] == children[i'] && children[i'] in children;
      } else {
        assert r[i] == children[i'] && r[j] == children[j'];
      }
    }
  }

  lemma PutMembers(children: seq<Node>, node: Node)
    ensures Put(children, node) != []
    ensures forall c <- Put(children, node) :: c == node || c in children
    ensures Apart(children) ==> Apart(Put(children, node))
    ensures Ranked(children) ==> Ranked(Put(children, node))
  {
    if Lookup(children, node.name, node.high).None? {
      InsertApart(children, Upper(Ranks(children), Rank(node.name, node.high)), node);
      if Ranked(children) {
        InsertRanked(children, node);
      }
    } else {
      ReplaceMembers(children, node);
    }
  }

  lemma {:induction false} InsertKeepsTidy(node: Node, path: seq<string>, high: bool, entry: nat)
    requires Tidy(node) && forall name <- path :: Normal(name)
    ensures var r := Insert(node, path, high, entry);
            && Tidy(r) && !Bare(r) && (Uniform(node) && (path == [] || high == node.high) ==> Uniform(r))
    decreases |path|
  {
    hide Put;
    if path != [] {
      var found := Lookup(node.children, path[0], high);
      var child := if found.None? then Node(path[0], [], [], high) else found.value;
      LookupNamed(node.children, path[0], high);
      InsertKeepsTidy(child, path[1..], high, entry);
      PutMembers(node.children, Insert(child, path[1..], high, entry));
    }
  }
}
