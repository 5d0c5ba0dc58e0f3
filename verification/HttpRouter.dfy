/** The router (HttpRouter.h): the lazily filled segment cache, the parameter stack, the backtracking search with
    its calls of handlers, and adding and removing handlers. */
module HttpRouter {
  import opened Options
  import opened RouteTree
  import opened RouteUpdate
  import opened RouteTable

  class Router {
    var children: seq<Node>
    var handlers: seq<Handler>

    var currentUrl: string
    var urlSegmentVector: seq<string>
    var urlSegmentTop: int

    var params: seq<string>
    var paramsTop: int

    /** All calls of handlers made so far, with what each could look at. */
    var calls: seq<Call>

    /** The key of each handler. */
    ghost var keys: seq<Key>

    ghost predicate Valid()
      reads `children, `handlers, `keys, `params, `paramsTop, `urlSegmentVector
    {
      TableOk(children, keys) && |handlers| == |keys| && StackOk() && |urlSegmentVector| == MAX_URL_SEGMENTS
    }

    /** The router as a table. */
    ghost function View(): map<Key, Handler>
      requires |handlers| == |keys|
      reads `handlers, `keys
    {
      ViewOf(keys, handlers)
    }

    constructor ()
      ensures Valid() && View() == map[] && handlers == [] && calls == []
    {
      children, handlers, keys, calls := [PLACEHOLDER], [], [], [];
      currentUrl, urlSegmentVector, urlSegmentTop := "", seq(MAX_URL_SEGMENTS, _ => ""), -1;
      params, paramsTop := seq(MAX_URL_SEGMENTS, _ => ""), -1;
      EmptyTable();
    }

    /** The cache holds the segments parsed so far, and `currentUrl` has the others. */
    ghost predicate Cached(segments: seq<string>)
      reads `currentUrl, `urlSegmentVector, `urlSegmentTop
    {
      && |urlSegmentVector| == MAX_URL_SEGMENTS && -1 <= urlSegmentTop < MAX_URL_SEGMENTS
      && urlSegmentTop < |segments|
      && urlSegmentVector[..urlSegmentTop + 1] == segments[..urlSegmentTop + 1]
      && Segments(currentUrl) == segments[urlSegmentTop + 1..]
    }

    ghost predicate StackOk()
      reads `params, `paramsTop
    {
      |params| == MAX_URL_SEGMENTS && -1 <= paramsTop < MAX_URL_SEGMENTS
    }

    /** The parameters a handler sees. */
    function Stack(): seq<string>
      requires StackOk()
      reads `params, `paramsTop
    {
      params[..paramsTop + 1]
    }

    method SetUrl(url: string)
      requires |urlSegmentVector| == MAX_URL_SEGMENTS
      modifies `currentUrl, `urlSegmentTop
      ensures Cached(Segments(url)) && urlSegmentTop == -1
    {
      currentUrl := url;
      urlSegmentTop := -1;
    }

    method GetUrlSegment(urlSegment: nat, ghost segments: seq<string>) returns (segment: string, isStop: bool)
      requires Cached(segments) && urlSegment <= urlSegmentTop + 1
      modifies `currentUrl, `urlSegmentVector, `urlSegmentTop
      ensures Cached(segments)
      ensures isStop <==> urlSegment == |segments| || urlSegment == MAX_URL_SEGMENTS
      ensures !isStop ==> segment == segments[urlSegment] && urlSegment <= urlSegmentTop
      ensures urlSegmentTop >= old(urlSegmentTop)
    {
      if urlSegment > urlSegmentTop {
        if |currentUrl| == 0 || urlSegment > MAX_URL_SEGMENTS - 1 {
          return "", true;
        }
        ghost var url := currentUrl;
        currentUrl := currentUrl[1..];
        var segmentLength := FirstSlash(currentUrl);
        urlSegmentVector := urlSegmentVector[urlSegment := currentUrl[..segmentLength]];
        urlSegmentTop := urlSegmentTop + 1;
        currentUrl := currentUrl[segmentLength..];
        assert url[1..][..segmentLength] == url[1..1 + segmentLength] && currentUrl == url[1 + segmentLength..];
        assert segments[urlSegment..][0] == segments[urlSegment] && segments[urlSegment..][1..] == segments[urlSegment + 1..];
      }
      return urlSegmentVector[urlSegment], false;
    }

    method Push(param: string)
      requires StackOk() && paramsTop < MAX_URL_SEGMENTS - 1
      modifies `params, `paramsTop
      ensures StackOk() && Stack() == old(Stack()) + [param]
    {
      paramsTop := paramsTop + 1;
      params := params[paramsTop := param];
    }

    method Pop()
      requires StackOk() && paramsTop >= 0
      modifies `paramsTop
      ensures StackOk() && Stack() == old(Stack()[..paramsTop])
    {
      paramsTop := paramsTop - 1;
    }

    /** Calls the handlers of one node in order until one accepts. */
    method CallHandlers(entries: seq<nat>, answers: Answers) returns (found: bool)
      requires StackOk() && Known(Own(entries), |handlers|)
      modifies `calls
      ensures Outcome(found, calls) == Scan(Own(entries), handlers, answers, [], Stack(), old(calls))
      ensures found ==> calls != [] && calls[|calls| - 1].parameters == Stack()
    {
      var i := 0;
      assert entries[0..] == entries;
      while i < |entries|
        invariant i <= |entries| && Known(Own(entries[i..]), |handlers|)
        invariant Scan(Own(entries), handlers, answers, [], Stack(), old(calls))
               == Scan(Own(entries[i..]), handlers, answers, [], Stack(), calls)
      {
        assert Own(entries[i..])[1..] == Own(entries[i + 1..]) && Own(entries[i..])[0] == RouteTree.Route([], entries[i]);
        assert Stack() + [] == Stack();
        var call := Call(handlers[Id(entries[i])], Stack());
        calls := calls + [call];
        if answers(calls) {
          return true;
        }
        i := i + 1;
      }
      return false;
    }

    /** The backtracking search from a node on calls the very handlers, with the very parameters, that a scan
        of the routes below the node calls. A search that fails leaves the parameter stack as it was. */
    method ExecuteHandlers(parent: Node, urlSegment: nat, answers: Answers, ghost segments: seq<string>)
      returns (found: bool)
      requires Cached(segments) && urlSegment <= urlSegmentTop + 1
      requires StackOk() && paramsTop < urlSegment
      requires Known(Flat(parent), |handlers|)
      modifies `currentUrl, `urlSegmentVector, `urlSegmentTop, `params, `paramsTop, `calls
      ensures Cached(segments) && urlSegmentTop >= old(urlSegmentTop) && StackOk()
      ensures Outcome(found, calls) == Scan(Flat(parent), handlers, answers, Left(segments, urlSegment), old(Stack()), old(calls))
      ensures found ==> calls != [] && calls[|calls| - 1].parameters == Stack()
      ensures !found ==> Stack() == old(Stack())
      decreases parent, 0
    {
      hide Scan, Matches;
      var segment, isStop := GetUrlSegment(urlSegment, segments);
      ghost var left, above := Left(segments, urlSegment), Stack();
      KnownParts(Own(parent.handlers), FlatAll(parent.children), |handlers|);
      ScanConcat(Own(parent.handlers), FlatAll(parent.children), handlers, answers, left, above, calls);
      if isStop {
        found := CallHandlers(parent.handlers, answers);
        ScanBelowAtEnd(parent.children, handlers, answers, above, calls);
      } else {
        ScanOwnInTheMiddle(parent.handlers, handlers, answers, left, above, calls);
        found := TryChildren(parent.children, urlSegment, segment, answers, segments);
      }
    }

    /** The children of a node, in order. */
    method TryChildren(children: seq<Node>, urlSegment: nat, segment: string, answers: Answers, ghost segments: seq<string>)
      returns (found: bool)
      requires Cached(segments) && urlSegment <= urlSegmentTop && segment == segments[urlSegment]
      requires StackOk() && paramsTop < urlSegment
      requires Known(FlatAll(children), |handlers|)
      modifies `currentUrl, `urlSegmentVector, `urlSegmentTop, `params, `paramsTop, `calls
      ensures Cached(segments) && urlSegmentTop >= old(urlSegmentTop) && StackOk()
      ensures Outcome(found, calls) == Scan(FlatAll(children), handlers, answers, Left(segments, urlSegment), old(Stack()), old(calls))
      ensures found ==> calls != [] && calls[|calls| - 1].parameters == Stack()
      ensures !found ==> Stack() == old(Stack())
      decreases children, 0
    {
      hide Scan, Matches;
      ghost var left, above, before := Left(segments, urlSegment), Stack(), calls;
      var i := 0;
      assert children[0..] == children;
      while i < |children|
        invariant i <= |children| && Cached(segments) && urlSegmentTop >= old(urlSegmentTop)
        invariant StackOk() && Stack() == above
        invariant Known(FlatAll(children[i..]), |handlers|)
        invariant Scan(FlatAll(children), handlers, answers, left, above, before)
               == Scan(FlatAll(children[i..]), handlers, answers, left, above, calls)
      {
        var p := children[i];
        assert children[i..][0] == p && children[i..][1..] == children[i + 1..];
        KnownParts(Below(p.name, Flat(p)), FlatAll(children[i + 1..]), |handlers|);
        ScanConcat(Below(p.name, Flat(p)), FlatAll(children[i + 1..]), handlers, answers, left, above, calls);
        found := TryChild(p, urlSegment, segment, answers, segments);
        if found {
          return;
        }
        i := i + 1;
      }
      ScanNothing(handlers, answers, left, above, calls);
      return false;
    }

    /** One child: wildcards take all, parameters any segment but the empty one, others their own name. */
    method TryChild(p: Node, urlSegment: nat, segment: string, answers: Answers, ghost segments: seq<string>)
      returns (found: bool)
      requires Cached(segments) && urlSegment <= urlSegmentTop && segment == segments[urlSegment]
      requires StackOk() && paramsTop < urlSegment
      requires Known(Below(p.name, Flat(p)), |handlers|)
      modifies `currentUrl, `urlSegmentVector, `urlSegmentTop, `params, `paramsTop, `calls
      ensures Cached(segments) && urlSegmentTop >= old(urlSegmentTop) && StackOk()
      ensures Outcome(found, calls)
           == Scan(Below(p.name, Flat(p)), handlers, answers, Left(segments, urlSegment), old(Stack()), old(calls))
      ensures found ==> calls != [] && calls[|calls| - 1].parameters == Stack()
      ensures !found ==> Stack() == old(Stack())
      decreases p, 2
    {
      hide Scan, Matches, Known, Below, Own, Flat;
      ghost var left, above := Left(segments, urlSegment), Stack();
      assert left[0] == segment && left[1..] == Left(segments, urlSegment + 1);
      hide Left;
      KnownBelow(p.name, Flat(p), |handlers|);
      ScanBelow(p.name, Flat(p), handlers, answers, left, above, calls);
      if |p.name| > 0 && p.name[0] == '*' {
        found := CallWildcard(p, answers);
      } else if |p.name| > 0 && p.name[0] == ':' && |segment| > 0 {
        found := TryParameter(p, urlSegment, segment, answers, segments);
      } else if p.name == segment {
        found := ExecuteHandlers(p, urlSegment + 1, answers, segments);
      } else {
        found := false;
      }
    }

    /** Below a parameter its segment is on the stack, and off it again if nothing is found there. */
    method TryParameter(p: Node, urlSegment: nat, segment: string, answers: Answers, ghost segments: seq<string>)
      returns (found: bool)
      requires Cached(segments) && urlSegment <= urlSegmentTop
      requires StackOk() && paramsTop < urlSegment && Known(Flat(p), |handlers|)
      modifies `currentUrl, `urlSegmentVector, `urlSegmentTop, `params, `paramsTop, `calls
      ensures Cached(segments) && urlSegmentTop >= old(urlSegmentTop) && StackOk()
      ensures Outcome(found, calls)
           == Scan(Flat(p), handlers, answers, Left(segments, urlSegment + 1), old(Stack()) + [segment], old(calls))
      ensures found ==> calls != [] && calls[|calls| - 1].parameters == Stack()
      ensures !found ==> Stack() == old(Stack())
      decreases p, 1
    {
      hide Scan, Matches, Known, Own, Flat, Left;
      Push(segment);
      found := ExecuteHandlers(p, urlSegment + 1, answers, segments);
      if !found {
        Pop();
      }
    }

    /** A wildcard's own handlers; whatever is below it is not looked at. */
    method CallWildcard(p: Node, answers: Answers) returns (found: bool)
      requires StackOk() && Known(Flat(p), |handlers|)
      modifies `calls
      ensures Outcome(found, calls) == Scan(Flat(p), handlers, answers, [], Stack(), old(calls))
      ensures found ==> calls != [] && calls[|calls| - 1].parameters == Stack()
    {
      hide Scan, Matches, Known, Own, FlatAll;
      KnownParts(Own(p.handlers), FlatAll(p.children), |handlers|);
      ScanConcat(Own(p.handlers), FlatAll(p.children), handlers, answers, [], Stack(), calls);
      found := CallHandlers(p.handlers, answers);
      ScanBelowAtEnd(p.children, handlers, answers, Stack(), calls);
    }

    /** Routes a request: calls the matching handlers of its method in order, then those of whatever method comes
        last, until one accepts. While that is the node for any method, or nothing, this is a scan of the routes
        of the method and of any. */
    method Route(verb: string, url: string, answers: Answers) returns (found: bool)
      requires Valid()
      modifies `currentUrl, `urlSegmentVector, `urlSegmentTop, `params, `paramsTop, `calls
      ensures Valid()
      ensures Known(RoutesOf(children, verb), |handlers|) && (children != [] ==> Known(Flat(children[|children| - 1]), |handlers|))
      ensures Outcome(found, calls) == Routed(children, handlers, answers, verb, Seen(url), old(calls))
      ensures FallsToAny(children, Seen(url)) ==>
                Known(RoutesOf(children, verb) + RoutesOf(children, ANY_METHOD), |handlers|)
                && Outcome(found, calls)
                   == Scan(RoutesOf(children, verb) + RoutesOf(children, ANY_METHOD), handlers, answers, Seen(url), [], old(calls))
      ensures found ==> calls != [] && calls[|calls| - 1].parameters == Stack()
    {
      assert forall c <- children :: !c.high;
      hide *;
      RouteOutcome(children, keys, handlers, answers, verb, Seen(url), calls);
      found := RunRequest(verb, url, answers);
    }

    /** The two searches of a request. */
    method RunRequest(verb: string, url: string, answers: Answers) returns (found: bool)
      requires StackOk() && |urlSegmentVector| == MAX_URL_SEGMENTS && forall c <- children :: !c.high
      requires Known(RoutesOf(children, verb), |handlers|) && (children != [] ==> Known(Flat(children[|children| - 1]), |handlers|))
      modifies `currentUrl, `urlSegmentVector, `urlSegmentTop, `params, `paramsTop, `calls
      ensures StackOk() && |urlSegmentVector| == MAX_URL_SEGMENTS
      ensures var first := Scan(RoutesOf(children, verb), handlers, answers, Seen(url), [], old(calls));
              Outcome(found, calls)
              == if first.found || children == [] then first
                 else Scan(Flat(children[|children| - 1]), handlers, answers, Seen(url), [], first.calls)
      ensures found ==> calls != [] && calls[|calls| - 1].parameters == Stack()
    {
      hide Scan, Flat, FlatAll, Own, Matches, Known, RoutesOf, Seen, Segments, Left;
      SetUrl(url);
      paramsTop := -1;
      AllLeft(url);
      found := RouteMethod(verb, answers, Segments(url));
      if found || |children| == 0 {
        return;
      }
      assert Stack() == [];
      found := ExecuteHandlers(children[|children| - 1], 0, answers, Segments(url));
    }

    /** The routes of the method, if it has a node. */
    method RouteMethod(verb: string, answers: Answers, ghost segments: seq<string>) returns (found: bool)
      requires Cached(segments) && StackOk() && paramsTop == -1
      requires Known(RoutesOf(children, verb), |handlers|) && forall c <- children :: !c.high
      modifies `currentUrl, `urlSegmentVector, `urlSegmentTop, `params, `paramsTop, `calls
      ensures Cached(segments) && StackOk()
      ensures Outcome(found, calls) == Scan(RoutesOf(children, verb), handlers, answers, Left(segments, 0), [], old(calls))
      ensures found ==> calls != [] && calls[|calls| - 1].parameters == Stack()
      ensures !found ==> paramsTop == -1
    {
      hide Scan, Flat, Matches;
      var k := FindChild(children, verb, false);
      if k < |children| {
        found := ExecuteHandlers(children[k], 0, answers, segments);
      } else {
        ScanNothing(handlers, answers, Left(segments, 0), [], calls);
        found := false;
      }
    }

    /** The entry of a key, or UINT32_MAX. */
    method FindHandler(verb: string, pattern: string, priority: nat) returns (entry: nat)
      requires Valid() && KeyOk(Key(verb, [], priority))
      modifies `currentUrl, `urlSegmentVector, `urlSegmentTop
      ensures Valid()
      ensures var key := Key(verb, Stripped(Seen(pattern)), priority);
              entry == if key in keys then priority + IndexOf(keys, key) else 0xffff_ffff
    {
      assert forall c <- children :: Tidy(c);
      hide Tidy, Entries, TableOk, Lookup, Seen, Picked, IndexOf, Stripped;
      ghost var path, high := Stripped(Seen(pattern)), priority == HIGH_PRIORITY;
      StrippedNormal(Seen(pattern));
      var node := None;
      var k := FindChild(children, verb, false);
      if k < |children| {
        node := FindNode(children[k], pattern, priority);
      }
      assert At(children, verb, path, high) == if node.Some? then node.value.handlers else [];
      entry := FindPriority(if node.Some? then node.value.handlers else [], priority);
      hide At;
      OnlyEntry(children, keys, Key(verb, path, priority), entry);
    }

    /** The node at the end of a pattern. */
    method FindNode(start: Node, pattern: string, priority: nat) returns (node: Option<Node>)
      requires Tidy(start) && |urlSegmentVector| == MAX_URL_SEGMENTS
      modifies `currentUrl, `urlSegmentVector, `urlSegmentTop
      ensures |urlSegmentVector| == MAX_URL_SEGMENTS
      ensures Entries(start, Stripped(Seen(pattern)), priority == HIGH_PRIORITY)
           == if node.Some? then node.value.handlers else []
    {
      hide Segments, Seen, Stripped, Lookup, Apart, Ranked, Bare, Uniform;
      SetUrl(pattern);
      ghost var segments, path, high := Segments(pattern), Stripped(Seen(pattern)), priority == HIGH_PRIORITY;
      var n, i := start, 0;
      PathAt(pattern, 0);
      var segment, isStop := GetUrlSegment(i, segments);
      assert path[0..] == path;
      while !isStop
        invariant Cached(segments) && i <= urlSegmentTop + 1 && i <= |path| && Tidy(n)
        invariant Entries(start, path, high) == Entries(n, path[i..], high)
        invariant isStop <==> i == |path|
        invariant !isStop ==> segment == Seen(pattern)[i]
        invariant !isStop ==> i <= urlSegmentTop
        decreases |path| - i
      {
        var next := FindNext(n.children, segment, priority == HIGH_PRIORITY);
        LookupNamed(n.children, path[i], high);
        PathAt(pattern, i);
        if next.None? {
          return None;
        }
        n := next.value;
        i := i + 1;
        PathAt(pattern, i);
        segment, isStop := GetUrlSegment(i, segments);
      }
      return Some(n);
    }

    /** The child a segment of a pattern leads to. */
    method FindNext(children: seq<Node>, segment: string, high: bool) returns (next: Option<Node>)
      requires forall c <- children :: Normal(c.name)
      ensures next == Lookup(children, if IsParameter(segment) then ":" else segment, high)
    {
      ghost var name := if IsParameter(segment) then ":" else segment;
      var i := 0;
      assert children[0..] == children;
      while i < |children|
        invariant i <= |children| && Lookup(children, name, high) == Lookup(children[i..], name, high)
      {
        var child := children[i];
        assert children[i..][0] == child && children[i..][1..] == children[i + 1..];
        if ((|segment| > 0 && |child.name| > 0 && segment[0] == ':' && child.name[0] == ':') || child.name == segment)
           && child.high == high {
          return Some(child);
        }
        i := i + 1;
      }
      return None;
    }

    method FindPriority(entries: seq<nat>, priority: nat) returns (entry: nat)
      ensures Picked(entries, priority, entry)
    {
      var i := 0;
      while i < |entries|
        invariant i <= |entries| && forall k :: 0 <= k < i ==> Priority(entries[k]) != priority
      {
        if Priority(entries[i]) == priority {
          return entries[i];
        }
        i := i + 1;
      }
      return UINT32_MAX;
    }

    /** Takes the handler of a key away; false if it has none. */
    method Remove(verb: string, pattern: string, priority: nat) returns (removed: bool)
      requires Valid() && KeyOk(Key(verb, [], priority))
      modifies `children, `handlers, `keys, `currentUrl, `urlSegmentVector, `urlSegmentTop
      ensures Valid()
      ensures var key := Key(verb, Stripped(Seen(pattern)), priority);
              (removed <==> key in old(keys)) && View() == old(View()) - {key}
              && |handlers| == old(|handlers|) - if removed then 1 else 0
      ensures if removed then forall c <- children :: !Bare(c) else children == old(children)
    {
      hide TableOk, Bare, CulledAll, IndexOf, Stripped, Seen, ViewOf, KeyOk;
      ghost var key := Key(verb, Stripped(Seen(pattern)), priority);
      var handler := FindHandler(verb, pattern, priority);
      if key in keys {
        RemoveFacts(children, keys, handlers, key);
      } else {
        NotInView(keys, handlers, key);
      }
      if handler == UINT32_MAX {
        return false;
      }
      children := CullChildren(children, handler);
      handlers := handlers[..Id(handler)] + handlers[Id(handler) + 1..];
      keys := RouteTable.Without(keys, IndexOf(keys, key));
      return true;
    }

    /** Gives a key a handler, in place of the one it has. */
    method Add(verb: string, pattern: string, handler: Handler, priority: nat)
      requires Valid() && KeyOk(Key(verb, [], priority)) && |handlers| < HANDLER_RANGE - 1
      modifies `children, `handlers, `keys, `currentUrl, `urlSegmentVector, `urlSegmentTop
      ensures Valid()
      ensures var key := Key(verb, Stripped(Seen(pattern)), priority);
              && View() == old(View())[key := handler]
              && |handlers| == old(|handlers|) + (if key in old(keys) then 0 else 1)
              && (key in old(keys) ==> forall c <- children :: !Bare(c))
    {
      hide TableOk, MethodsOk, Added, Bare, Seen, Stripped, IndexOf, AllDifferent;
      ghost var key := Key(verb, Stripped(Seen(pattern)), priority);
      var _ := Remove(verb, pattern, priority);
      TableFacts(children, keys);
      StrippedNormal(Seen(pattern));
      AddKeeps(children, keys, key);
      AddedView(keys, handlers, key, handler);
      AddedBare(children, key, priority + |handlers|);
      InsertEntry(verb, pattern, priority + |handlers|, priority);
      handlers := handlers + [handler];
      keys := keys + [key];
    }

    /** Adds an entry to the tree, with the nodes it needs, and sorts the methods. */
    method InsertEntry(verb: string, pattern: string, entry: nat, priority: nat)
      requires TableOk(children, keys) && |urlSegmentVector| == MAX_URL_SEGMENTS
      modifies `children, `currentUrl, `urlSegmentVector, `urlSegmentTop
      ensures children == Added(old(children), Key(verb, Stripped(Seen(pattern)), priority), entry)
      ensures |urlSegmentVector| == MAX_URL_SEGMENTS
    {
      hide *;
      var high := priority == HIGH_PRIORITY;
      ghost var key := Key(verb, Stripped(Seen(pattern)), priority);
      AddedParts(children, keys, key, entry);
      assert key.path[0..] == key.path;
      var k := FindChild(children, verb, false);
      SetUrl(pattern);
      if k < |children| {
        var grown := InsertBelow(children[k], 0, high, entry, pattern);
        ReplaceAt(children, grown, k);
        children := children[k := grown];
      } else {
        var grown := InsertBelow(Node(verb, [], [], false), 0, high, entry, pattern);
        children := children + [grown];
      }
      children := SortMethods(children);
    }

    /** The rest of a pattern below a node, children being added where there are none. */
    method InsertBelow(node: Node, i: nat, high: bool, entry: nat, ghost pattern: string) returns (r: Node)
      requires Cached(Segments(pattern)) && i <= urlSegmentTop + 1 && i <= |Seen(pattern)| && Tidy(node)
      requires Increasing(Entries(node, Stripped(Seen(pattern))[i..], high))
      modifies `currentUrl, `urlSegmentVector, `urlSegmentTop
      ensures Cached(Segments(pattern)) && |urlSegmentVector| == MAX_URL_SEGMENTS
      ensures r == Insert(node, Stripped(Seen(pattern))[i..], high, entry)
      decreases |Seen(pattern)| - i
    {
      hide Insert, Seen, Entries, Tidy, Segments, Increasing, Stripped, Lookup, Replace, NonDecreasing, Ranks, Rank, Upper;
      ghost var path := Stripped(Seen(pattern));
      var segment, isStop := GetUrlSegment(i, Segments(pattern));
      PathAt(pattern, i);
      if isStop {
        InsertHere(node, high, entry);
        var k := UpperBound(node.handlers, entry);
        return node.(handlers := node.handlers[..k] + [entry] + node.handlers[k..]);
      }
      var name := if |segment| > 0 && segment[0] == ':' then ":" else segment;
      InsertThere(node, path[i..], high, entry);
      var k := FindChild(node.children, name, high);
      if k < |node.children| {
        var grown := InsertBelow(node.children[k], i + 1, high, entry, pattern);
        ReplaceAt(node.children, grown, k);
        r := node.(children := node.children[k := grown]);
      } else {
        var place := UpperBound(Ranks(node.children), Rank(name, high));
        var grown := InsertBelow(Node(name, [], [], high), i + 1, high, entry, pattern);
        r := node.(children := node.children[..place] + [grown] + node.children[place..]);
      }
    }

    /** A request is taken just when some registered handler of its method or any matches the URL and accepts. */
    lemma TakesWhatIsRegistered(answers: Answers, accepts: Call -> bool, verb: string, segments: seq<string>)
      requires Valid() && Plain(answers, accepts)
      requires FallsToAny(children, segments)
      ensures Known(RoutesOf(children, verb), |handlers|) && (children != [] ==> Known(Flat(children[|children| - 1]), |handlers|))
      ensures Routed(children, handlers, answers, verb, segments, calls).found <==>
                exists key <- View() :: (key.verb == verb || key.verb == ANY_METHOD)
                  && Matches(key.path, segments) && accepts(Call(View()[key], Parameters(key.path, segments)))
    {
      hide Routed, Flat, RoutesOf, Matches, Parameters, Plain, FallsToAny;
      assert AllDifferent(keys);
      RouteFinds(children, keys, handlers, answers, accepts, verb, segments, calls);
      hide TableOk, IndexOf;
      forall i | 0 <= i < |keys| ensures keys[i] in View() && View()[keys[i]] == handlers[i] {
        IndexUnique(keys, i);
      }
    }
  }

  /** Replacing a route culls the node for any method away if nobody has registered there. A request of any other
      method is then given to the handler, which is registered for GET only. */
  method ReplacedRouteTakesAnyMethod(first: Handler, second: Handler, verb: string) returns (router: Router, found: bool)
    requires verb != "GET"
    ensures router.Valid() && fresh(router) && !FallsToAny(router.children, ["a"])
    ensures Known(RoutesOf(router.children, verb), |router.handlers|)
            && (router.children != [] ==> Known(Flat(router.children[|router.children| - 1]), |router.handlers|))
            && Outcome(found, router.calls) == Routed(router.children, router.handlers, _ => true, verb, ["a"], [])
    ensures router.View() == map[Key("GET", ["a"], MEDIUM_PRIORITY) := second]
    ensures found && router.calls == [Call(second, [])]
  {
    hide TableOk, Routed, Seen, Stripped, FallsToAny;
    SlashA();
    router := new Router();
    router.Add("GET", "/a", first, MEDIUM_PRIORITY);
    ghost var key := Key("GET", ["a"], MEDIUM_PRIORITY);
    assert key in router.View();
    router.Add("GET", "/a", second, MEDIUM_PRIORITY);
    assert router.View() == map[key := second];
    assert router.View()[key] == second;
    OnlyGet(router.children, router.keys, router.handlers, router.calls, key, verb);
    assert router.calls == [];
    found := router.Route(verb, "/a", _ => true);
  }

  lemma SlashA()
    ensures Seen("/a") == ["a"] && Stripped(Seen("/a")) == ["a"]
  {
    var url := "/a";
    assert url[1..] == "a" && FirstSlash("a") == 1 + FirstSlash(url[2..]) && url[2..] == "";
    assert url[1..2] == "a";
  }

  /** The first child of that name and kind. */
  method FindChild(children: seq<Node>, name: string, high: bool) returns (k: nat)
    ensures k <= |children| && Lookup(children, name, high) == if k == |children| then None else Some(children[k])
    ensures k < |children| ==> children[k].name == name && children[k].high == high
    ensures forall i :: 0 <= i < k ==> children[i].name != name || children[i].high != high
  {
    k := 0;
    assert children[0..] == children;
    while k < |children|
      invariant k <= |children| && Lookup(children, name, high) == Lookup(children[k..], name, high)
      invariant forall i :: 0 <= i < k ==> children[i].name != name || children[i].high != high
    {
      assert children[k..][0] == children[k] && children[k..][1..] == children[k + 1..];
      if children[k].name == name && children[k].high == high {
        return;
      }
      k := k + 1;
    }
  }

  function IndexOf<T(==)>(s: seq<T>, x: T): (i: nat)
    requires x in s
    ensures i < |s| && s[i] == x
  {
    if s[0] == x then 0 else 1 + IndexOf(s[1..], x)
  }

  const UINT32_MAX := 0xffff_ffff

  /** An entry of that priority if there is one. */
  predicate Picked(entries: seq<nat>, priority: nat, entry: nat) {
    if exists e <- entries :: Priority(e) == priority then entry in entries && Priority(entry) == priority
    else entry == UINT32_MAX
  }

  lemma StrippedNormal(segments: seq<string>)
    ensures forall name <- Stripped(segments) :: Normal(name)
  {
  }

  /** An entry found under a path by priority is the one of the key. */
  lemma OnlyEntry(methods: seq<Node>, keys: seq<Key>, key: Key, entry: nat)
    requires TableOk(methods, keys) && KeyOk(Key(key.verb, [], key.priority)) && forall name <- key.path :: Normal(name)
    requires Picked(At(methods, key.verb, key.path, key.priority == HIGH_PRIORITY), key.priority, entry)
    ensures entry == if key in keys then key.priority + IndexOf(keys, key) else UINT32_MAX
  {
    hide MethodsOk, IndexOf, At, Increasing, Normal;
    var high := key.priority == HIGH_PRIORITY;
    assert forall e :: e in At(methods, key.verb, key.path, high) <==> Listed(keys, key.verb, key.path, high, e);
    assert |keys| < HANDLER_RANGE && AllDifferent(keys);
    hide TableOk;
    if key in keys {
      EntryOfKey(keys, IndexOf(keys, key));
      EntryParts(key.priority, IndexOf(keys, key));
    }
    if Listed(keys, key.verb, key.path, high, entry) && Priority(entry) == key.priority {
      IndexUnique(keys, Id(entry));
    }
  }

  lemma TableFacts(methods: seq<Node>, keys: seq<Key>)
    requires TableOk(methods, keys)
    ensures |keys| < HANDLER_RANGE && AllDifferent(keys) && MethodsOk(methods)
  {
  }

  function ViewOf(keys: seq<Key>, handlers: seq<Handler>): map<Key, Handler>
    requires |handlers| == |keys|
  {
    map key | key in keys :: handlers[IndexOf(keys, key)]
  }

  lemma IndexUnique<T>(s: seq<T>, i: nat)
    requires AllDifferent(s) && i < |s|
    ensures IndexOf(s, s[i]) == i
  {
  }

  lemma RemovedView(keys: seq<Key>, handlers: seq<Handler>, k: nat)
    requires AllDifferent(keys) && k < |keys| == |handlers|
    ensures ViewOf(RouteTable.Without(keys, k), RouteTable.Without(handlers, k)) == ViewOf(keys, handlers) - {keys[k]}
  {
    hide IndexOf, AllDifferent;
    var fewer, left := RouteTable.Without(keys, k), RouteTable.Without(handlers, k);
    KeysWithout(keys, k);
    forall key <- fewer ensures ViewOf(fewer, left)[key] == ViewOf(keys, handlers)[key] {
      var i := IndexOf(fewer, key);
      IndexUnique(keys, if i < k then i else i + 1);
    }
  }

  lemma KeysWithout(keys: seq<Key>, k: nat)
    requires AllDifferent(keys) && k < |keys|
    ensures forall key :: key in RouteTable.Without(keys, k) <==> key in keys && key != keys[k]
  {
    var fewer := RouteTable.Without(keys, k);
    forall key <- keys | key != keys[k] ensures key in fewer {
      var i :| 0 <= i < |keys| && keys[i] == key;
      assert fewer[if i < k then i else i - 1] == key;
    }
    forall key <- fewer ensures key in keys && key != keys[k] {
      var i :| 0 <= i < |fewer| && fewer[i] == key;
      assert keys[if i < k then i else i + 1] == key;
    }
  }

  lemma NotInView(keys: seq<Key>, handlers: seq<Handler>, key: Key)
    requires |keys| == |handlers| && key !in keys
    ensures ViewOf(keys, handlers) - {key} == ViewOf(keys, handlers)
  {
  }

  /** What taking away the handler of a key comes to. */
  lemma RemoveFacts(methods: seq<Node>, keys: seq<Key>, handlers: seq<Handler>, key: Key)
    requires TableOk(methods, keys) && |handlers| == |keys| && key in keys
    ensures var k := IndexOf(keys, key);
            && key.priority + k < UINT32_MAX && Id(key.priority + k) == k
            && TableOk(CulledAll(methods, key.priority + k), RouteTable.Without(keys, k))
            && ViewOf(RouteTable.Without(keys, k), RouteTable.Without(handlers, k)) == ViewOf(keys, handlers) - {key}
            && (forall c <- CulledAll(methods, key.priority + k) :: !Bare(c))
  {
    hide Bare, CulledAll, ViewOf, IndexOf, MethodsOk;
    var k := IndexOf(keys, key);
    assert AllDifferent(keys) && |keys| < HANDLER_RANGE && KeyOk(key);
    hide TableOk;
    EntryParts(key.priority, k);
    RemoveKeeps(methods, keys, k);
    RemovedView(keys, handlers, k);
    CulledMembers(methods, key.priority + k);
  }

  lemma AddedView(keys: seq<Key>, handlers: seq<Handler>, key: Key, handler: Handler)
    requires AllDifferent(keys) && key !in keys && |keys| == |handlers|
    ensures ViewOf(keys + [key], handlers + [handler]) == ViewOf(keys, handlers)[key := handler]
  {
    hide IndexOf;
    var more := keys + [key];
    assert AllDifferent(more);
    forall k <- more ensures ViewOf(more, handlers + [handler])[k] == ViewOf(keys, handlers)[key := handler][k] {
      if k == key {
        IndexUnique(more, |keys|);
      } else {
        IndexUnique(more, IndexOf(keys, k));
      }
    }
  }

  /** Adding leaves no empty nodes if there were none. */
  lemma AddedBare(methods: seq<Node>, key: Key, entry: nat)
    requires MethodsOk(methods) && KeyOk(key)
    ensures (forall c <- methods :: !Bare(c)) ==> forall c <- Added(methods, key, entry) :: !Bare(c)
  {
    hide Tidy, Bare, Insert, SortMethods;
    var node := MethodNode(methods, key.verb);
    LookupNamed(methods, key.verb, false);
    FreshMethodTidy(key.verb);
    InsertKeepsTidy(node, key.path, key.priority == HIGH_PRIORITY, entry);
    var grown := Insert(node, key.path, key.priority == HIGH_PRIORITY, entry);
    PutMethodKeeps(methods, grown);
    ReplaceMembers(methods, grown);
    Sorted(PutMethod(methods, grown));
  }

  /** With nothing but a GET route, and that is what comes last, a POST request is given to it. */
  lemma OnlyGet(methods: seq<Node>, keys: seq<Key>, handlers: seq<Handler>, calls: seq<Call>, key: Key, verb: string)
    requires TableOk(methods, keys) && |keys| == |handlers| == 1 && keys[0] == key && key.verb == "GET" && key.path == ["a"]
    requires verb != "GET"
    requires forall c <- methods :: !Bare(c)
    ensures Known(RoutesOf(methods, verb), |handlers|) && !FallsToAny(methods, ["a"])
    ensures methods != [] && Known(Flat(methods[|methods| - 1]), |handlers|)
    ensures Routed(methods, handlers, _ => true, verb, ["a"], calls) == Outcome(true, calls + [Call(handlers[0], [])])
  {
    hide Scan, FallsToAny, Matches;
    RoutedKnown(methods, keys, verb);
    assert KeyOk(key) && Apart(methods) && forall c <- methods :: !c.high && Tidy(c);
    EntryParts(key.priority, 0);
    hide TableOk, Tidy, Flat, Bare, KeyOk;
    NoRoutes(methods, keys, verb);
    NoMoreRoutes(handlers, _ => true, ["a"], calls);
    RoutesListed(methods, keys, "GET", key.path, key.priority);
    assert methods != [];
    var last := methods[|methods| - 1];
    LastIsMethod(methods);
    NotBareHasRoutes(last);
    assert Flat(last)[0] == Route(Flat(last)[0].path, Flat(last)[0].entry);
    RoutesListed(methods, keys, last.name, Flat(last)[0].path, Flat(last)[0].entry);
    assert last.name == "GET";
    FallsToGet(methods);
    ScanFirst(Flat(last), handlers, calls);
  }

  lemma FallsToGet(methods: seq<Node>)
    requires methods != [] && methods[|methods| - 1].name == "GET"
    requires var routes := Flat(methods[|methods| - 1]); routes != [] && routes[0].path == ["a"]
    ensures !FallsToAny(methods, ["a"])
  {
    hide Flat;
    assert Matches(["a"], ["a"]) by { assert Matches([], []); }
  }

  lemma NoRoutes(methods: seq<Node>, keys: seq<Key>, verb: string)
    requires TableOk(methods, keys) && forall key <- keys :: key.verb != verb
    ensures RoutesOf(methods, verb) == []
  {
    hide TableOk, RoutesOf;
    var routes := RoutesOf(methods, verb);
    if routes != [] {
      var r := routes[0];
      assert r in routes && r == Route(r.path, r.entry);
      RoutesListed(methods, keys, verb, r.path, r.entry);
    }
  }

  lemma ScanFirst(routes: seq<Route>, handlers: seq<Handler>, calls: seq<Call>)
    requires Known(routes, |handlers|) && |handlers| == 1 && routes != [] && routes[0].path == ["a"]
    ensures Scan(routes, handlers, _ => true, ["a"], [], calls) == Outcome(true, calls + [Call(handlers[0], [])])
  {
    assert Matches(routes[0].path[1..], []) && Parameters(routes[0].path[1..], []) == [];
  }

  /** Every node but an empty one leads to a handler. */
  lemma {:induction false} NotBareHasRoutes(node: Node)
    requires Tidy(node) && !Bare(node)
    ensures Flat(node) != []
  {
    if node.handlers == [] {
      NotBareHasRoutes(node.children[0]);
    }
  }

  /** Adding for a method. */
  lemma AddedParts(methods: seq<Node>, keys: seq<Key>, key: Key, entry: nat)
    requires TableOk(methods, keys)
    ensures var high := key.priority == HIGH_PRIORITY;
            match Lookup(methods, key.verb, false)
            case Some(node) =>
              && Tidy(node) && Increasing(Entries(node, key.path, high))
              && Added(methods, key, entry) == SortMethods(Replace(methods, Insert(node, key.path, high, entry)))
            case None =>
              var fresh_ := Node(key.verb, [], [], false);
              && Tidy(fresh_) && Increasing(Entries(fresh_, key.path, high))
              && Added(methods, key, entry) == SortMethods(methods + [Insert(fresh_, key.path, high, entry)])
  {
    hide SortMethods, Replace, Insert, Tidy, Bare, Increasing;
    LookupNamed(methods, key.verb, false);
    FreshMethodTidy(key.verb);
    NothingBelowMethod(key.verb, key.path, key.priority == HIGH_PRIORITY);
    assert Increasing(At(methods, key.verb, key.path, key.priority == HIGH_PRIORITY));
  }

  /** The path of a pattern from its i-th segment on. */
  lemma PathAt(pattern: string, i: nat)
    requires i <= |Seen(pattern)|
    ensures |Stripped(Seen(pattern))| == |Seen(pattern)| <= MAX_URL_SEGMENTS
    ensures i == |Seen(pattern)| <==> i == |Segments(pattern)| || i == MAX_URL_SEGMENTS
    ensures var path := Stripped(Seen(pattern));
            if i == |Seen(pattern)| then path[i..] == []
            else
              && i < |Segments(pattern)| && Seen(pattern)[i] == Segments(pattern)[i]
              && path[i..] != [] && path[i..][1..] == path[i + 1..]
              && path[i..][0] == path[i] == if IsParameter(Segments(pattern)[i]) then ":" else Segments(pattern)[i]
  {
  }

  /** Adding at the end of a path. */
  lemma InsertHere(node: Node, high: bool, entry: nat)
    requires Increasing(Entries(node, [], high))
    ensures Insert(node, [], high, entry)
         == node.(handlers := InsertAt(node.handlers, Upper(node.handlers, entry), entry)) && Increasing(node.handlers)
  {
  }

  /** Adding further down. */
  lemma InsertThere(node: Node, path: seq<string>, high: bool, entry: nat)
    requires Tidy(node) && path != [] && Increasing(Entries(node, path, high))
    ensures match Lookup(node.children, path[0], high)
            case Some(child) =>
              && Tidy(child) && Increasing(Entries(child, path[1..], high))
              && Insert(node, path, high, entry)
                 == node.(children := Replace(node.children, Insert(child, path[1..], high, entry)))
            case None =>
              var fresh_ := Node(path[0], [], [], high);
              && Tidy(fresh_) && Increasing(Entries(fresh_, path[1..], high)) && NonDecreasing(Ranks(node.children))
              && Insert(node, path, high, entry)
                 == node.(children := InsertAt(node.children, Upper(Ranks(node.children), Rank(path[0], high)),
                                               Insert(fresh_, path[1..], high, entry)))
  {
    LookupNamed(node.children, path[0], high);
    NothingBelow(Node(path[0], [], [], high), path[1..], high);
  }

  lemma {:induction false} ReplaceAt(children: seq<Node>, node: Node, k: nat)
    requires k < |children| && children[k].name == node.name && children[k].high == node.high
    requires forall i :: 0 <= i < k ==> children[i].name != node.name || children[i].high != node.high
    ensures Replace(children, node) == children[k := node]
  {
    if k > 0 {
      ReplaceAt(children[1..], node, k - 1);
    }
  }

  predicate NonDecreasing(numbers: seq<nat>) {
    forall i, j :: 0 <= i < j < |numbers| ==> numbers[i] <= numbers[j]
  }

  /** Where the first greater number is, by halving. */
  method UpperBound(numbers: seq<nat>, x: nat) returns (k: nat)
    requires NonDecreasing(numbers)
    ensures k == Upper(numbers, x)
  {
    k := 0;
    var count := |numbers|;
    while count > 0
      invariant 0 <= k && 0 <= count && k + count <= |numbers|
      invariant forall i :: 0 <= i < k ==> numbers[i] <= x
      invariant forall i :: k + count <= i < |numbers| ==> numbers[i] > x
    {
      var half := count / 2;
      if numbers[k + half] <= x {
        k := k + half + 1;
        count := count - half - 1;
      } else {
        count := half;
      }
    }
    UpperUnique(numbers, x, k);
  }

  lemma {:induction false} UpperUnique(numbers: seq<nat>, x: nat, k: nat)
    requires k <= |numbers|
    requires (forall i :: 0 <= i < k ==> numbers[i] <= x) && (forall i :: k <= i < |numbers| ==> numbers[i] > x)
    ensures k == Upper(numbers, x)
  {
    if numbers != [] && numbers[0] <= x {
      UpperUnique(numbers[1..], x, k - 1);
    }
  }

  lemma AllLeft(url: string)
    ensures Left(Segments(url), 0) == Seen(url)
  {
  }

  /** The two scans of a request. */
  lemma RouteOutcome(methods: seq<Node>, keys: seq<Key>, handlers: seq<Handler>, answers: Answers, verb: string,
                     segments: seq<string>, calls: seq<Call>)
    requires TableOk(methods, keys) && |handlers| == |keys|
    ensures Known(RoutesOf(methods, verb), |handlers|) && (methods != [] ==> Known(Flat(methods[|methods| - 1]), |handlers|))
    ensures Routed(methods, handlers, answers, verb, segments, calls)
         == var first := Scan(RoutesOf(methods, verb), handlers, answers, segments, [], calls);
            if first.found || methods == [] then first
            else Scan(Flat(methods[|methods| - 1]), handlers, answers, segments, [], first.calls)
    ensures FallsToAny(methods, segments) ==>
              Known(RoutesOf(methods, verb) + RoutesOf(methods, ANY_METHOD), |handlers|)
              && Routed(methods, handlers, answers, verb, segments, calls)
                 == Scan(RoutesOf(methods, verb) + RoutesOf(methods, ANY_METHOD), handlers, answers, segments, [], calls)
  {
    hide Scan, TableOk, Flat, RoutesOf, Known, FallsToAny;
    RightMethodsOnly(methods, keys, handlers, verb, segments, calls);
  }

  lemma ScanNothing(handlers: seq<Handler>, answers: Answers, segments: seq<string>, parameters: seq<string>, calls: seq<Call>)
    ensures Scan([], handlers, answers, segments, parameters, calls) == Outcome(false, calls)
  {
  }

  /** What the router sees of a URL from its n-th segment on. */
  function Left(segments: seq<string>, n: nat): seq<string>
    requires n <= |segments| && n <= MAX_URL_SEGMENTS
  {
    if |segments| <= MAX_URL_SEGMENTS then segments[n..] else segments[n..MAX_URL_SEGMENTS]
  }

  /** Culls the children of a node, each after its own. */
  method CullChildren(children: seq<Node>, gone: nat) returns (r: seq<Node>)
    ensures r == CulledAll(children, gone)
    decreases children, 0
  {
    hide Culled, Bare;
    r := children;
    var i := 0;
    ghost var k := 0;
    assert children[0..] == children;
    while i < |r|
      invariant i <= |r| && k <= |children| && r[i..] == children[k..]
      invariant CulledAll(children, gone) == r[..i] + CulledAll(children[k..], gone)
      decreases |children| - k
    {
      assert r[i] == r[i..][0] == children[k..][0] == children[k];
      assert r[i..][1..] == r[i + 1..] && children[k..][1..] == children[k + 1..];
      var culled, removed := CullNode(r[i], gone);
      if removed {
        r := r[..i] + r[i + 1..];
      } else {
        r := r[i := culled];
        i := i + 1;
      }
      k := k + 1;
    }
  }

  /** Culls a node; true if nothing is left of it. */
  method CullNode(node: Node, gone: nat) returns (culled: Node, removed: bool)
    ensures culled == Culled(node, gone) && removed == Bare(culled)
    decreases node, 1
  {
    var children := CullChildren(node.children, gone);
    var entries := Adjust(node.handlers, gone);
    culled := node.(children := children, handlers := entries);
    removed := |entries| == 0 && |children| == 0;
  }

  /** Takes one entry out and lowers those of later handlers. */
  method Adjust(entries: seq<nat>, gone: nat) returns (r: seq<nat>)
    ensures r == Adjusted(entries, gone)
  {
    hide Id, Adjusted;
    r := entries;
    var i := 0;
    ghost var k := 0;
    assert entries[0..] == entries;
    while i < |r|
      invariant i <= |r| && k <= |entries| && r[i..] == entries[k..]
      invariant Adjusted(entries, gone) == r[..i] + Adjusted(entries[k..], gone)
      decreases |entries| - k
    {
      var e := r[i];
      ghost var done := r[..i];
      assert e == r[i..][0] == entries[k..][0] == entries[k];
      assert r[i..][1..] == r[i + 1..] && entries[k..][1..] == entries[k + 1..];
      AdjustedNext(entries, k, gone);
      if Id(e) > Id(gone) {
        IdNotZero(e, gone);
        r := r[i := e - 1];
        i := i + 1;
        assert r[..i] == done + [e - 1];
      } else if e == gone {
        r := r[..i] + r[i + 1..];
        assert r[..i] == done;
      } else {
        i := i + 1;
        assert r[..i] == done + [e];
      }
      k := k + 1;
    }
    assert r[..i] == r && entries[k..] == [];
    NothingToAdjust(gone);
  }

  lemma NothingToAdjust(gone: nat)
    ensures Adjusted([], gone) == []
  {
  }

  lemma AdjustedNext(entries: seq<nat>, k: nat, gone: nat)
    requires k < |entries|
    ensures Adjusted(entries[k..], gone)
         == (if entries[k] == gone then [] else [Lowered(entries[k], gone)]) + Adjusted(entries[k + 1..], gone)
  {
    assert entries[k..][1..] == entries[k + 1..];
  }

  lemma IdNotZero(e: nat, gone: nat)
    ensures Id(e) > Id(gone) ==> e > 0
  {
  }
}
