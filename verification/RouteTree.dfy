/** The routing tree of HttpRouter.h as a value, the flat list of routes it stands for, and a linear scan of
    that list. */
module RouteTree {

  /** A handler, by name. */
  type Handler = nat

  /** Entries of a node are 32-bit numbers: a priority in the top four bits, a handler's index below. */
  const HANDLER_RANGE := 0x1000_0000
  const HIGH_PRIORITY := 0xd000_0000
  const MEDIUM_PRIORITY := 0xe000_0000
  const LOW_PRIORITY := 0xf000_0000

  function Id(entry: nat): nat {
    entry % HANDLER_RANGE
  }

  function Priority(entry: nat): nat {
    entry - entry % HANDLER_RANGE
  }

  datatype Node = Node(name: string, children: seq<Node>, handlers: seq<nat>, high: bool)

  predicate IsWildcard(name: string) {
    name != "" && name[0] == '*'
  }

  predicate IsParameter(name: string) {
    name != "" && name[0] == ':'
  }

  // ---------------------------------------------------------------- the segments of a URL

  const MAX_URL_SEGMENTS := 100

  function FirstSlash(s: string): (n: nat)
    ensures n <= |s| && (forall i :: 0 <= i < n ==> s[i] != '/') && (n < |s| ==> s[n] == '/')
  {
    if s == "" || s[0] == '/' then 0 else 1 + FirstSlash(s[1..])
  }

  /** A URL starts with a slash, whatever that character is; what is between slashes are its segments. */
  function Segments(url: string): (segments: seq<string>)
    decreases |url|
  {
    if url == "" then []
    else var n := FirstSlash(url[1..]); [url[1..1 + n]] + Segments(url[1 + n..])
  }

  /** The segments the router looks at. */
  function Seen(url: string): (segments: seq<string>) {
    var s := Segments(url);
    if |s| <= MAX_URL_SEGMENTS then s else s[..MAX_URL_SEGMENTS]
  }

  // ---------------------------------------------------------------- routes

  datatype Route = Route(path: seq<string>, entry: nat)

  /** A call of a handler, with the parameters it can look at. */
  datatype Call = Call(handler: Handler, parameters: seq<string>)

  /** Whether a path matches: a wildcard takes whatever is left, a parameter any segment but an empty one. */
  predicate Matches(path: seq<string>, segments: seq<string>)
    decreases |path|
  {
    if path == [] then segments == []
    else if segments == [] then false
    else if IsWildcard(path[0]) then |path| == 1
    else if IsParameter(path[0]) && segments[0] != "" then Matches(path[1..], segments[1..])
    else path[0] == segments[0] && Matches(path[1..], segments[1..])
  }

  /** The segments matched by parameters. */
  function Parameters(path: seq<string>, segments: seq<string>): seq<string>
    requires Matches(path, segments)
    decreases |path|
  {
    if path == [] || IsWildcard(path[0]) then []
    else if IsParameter(path[0]) && segments[0] != "" then [segments[0]] + Parameters(path[1..], segments[1..])
    else Parameters(path[1..], segments[1..])
  }

  function Own(entries: seq<nat>): (routes: seq<Route>) {
    seq(|entries|, i requires 0 <= i < |entries| => Route([], entries[i]))
  }

  function Below(name: string, routes: seq<Route>): (below: seq<Route>) {
    seq(|routes|, i requires 0 <= i < |routes| => Route([name] + routes[i].path, routes[i].entry))
  }

  /** All routes through a node: its own first, then those of its children in order. */
  function Flat(node: Node): (routes: seq<Route>) {
    Own(node.handlers) + FlatAll(node.children)
  }

  function FlatAll(children: seq<Node>): (routes: seq<Route>) {
    if children == [] then [] else Below(children[0].name, Flat(children[0])) + FlatAll(children[1..])
  }

  /** All entries name one of `n` handlers. */
  predicate Known(routes: seq<Route>, n: nat) {
    forall i :: 0 <= i < |routes| ==> Id(routes[i].entry) < n
  }

  // ---------------------------------------------------------------- the linear scan

  datatype Outcome = Outcome(found: bool, calls: seq<Call>)

  /** What the handlers answer may depend on all calls made so far, the current one being the last. */
  type Answers = seq<Call> -> bool

  /** Calls the handlers of the matching routes in order until one accepts. */
  function Scan(routes: seq<Route>, handlers: seq<Handler>, answers: Answers,
                segments: seq<string>, parameters: seq<string>, calls: seq<Call>): (r: Outcome)
    requires Known(routes, |handlers|)
    decreases |routes|
  {
    if routes == [] then Outcome(false, calls)
    else if !Matches(routes[0].path, segments) then Scan(routes[1..], handlers, answers, segments, parameters, calls)
    else
      var call := Call(handlers[Id(routes[0].entry)], parameters + Parameters(routes[0].path, segments));
      if answers(calls + [call]) then Outcome(true, calls + [call])
      else Scan(routes[1..], handlers, answers, segments, parameters, calls + [call])
  }

  lemma {:induction false} ScanConcat(a: seq<Route>, b: seq<Route>, handlers: seq<Handler>, answers: Answers,
                                      segments: seq<string>, parameters: seq<string>, calls: seq<Call>)
    requires Known(a, |handlers|) && Known(b, |handlers|)
    ensures Known(a + b, |handlers|)
    ensures var first := Scan(a, handlers, answers, segments, parameters, calls);
            Scan(a + b, handlers, answers, segments, parameters, calls)
            == if first.found then first else Scan(b, handlers, answers, segments, parameters, first.calls)
    decreases |a|
  {
    if a == [] {
      assert a + b == b;
    } else {
      assert (a + b)[1..] == a[1..] + b && (a + b)[0] == a[0];
      if !Matches(a[0].path, segments) {
        ScanConcat(a[1..], b, handlers, answers, segments, parameters, calls);
      } else {
        var call := Call(handlers[Id(a[0].entry)], parameters + Parameters(a[0].path, segments));
        ScanConcat(a[1..], b, handlers, answers, segments, parameters, calls + [call]);
      }
    }
  }

  /** Scanning the routes below a name: nothing to call if the name does not fit, else a scan of what is left. */
  lemma {:induction false} ScanBelow(name: string, routes: seq<Route>, handlers: seq<Handler>, answers: Answers,
                                     segments: seq<string>, parameters: seq<string>, calls: seq<Call>)
    requires Known(routes, |handlers|)
    ensures Known(Below(name, routes), |handlers|)
    ensures var r := Scan(Below(name, routes), handlers, answers, segments, parameters, calls);
            if segments == [] then r == Outcome(false, calls)
            else if IsWildcard(name) then r == Scan(routes, handlers, answers, [], parameters, calls)
            else if IsParameter(name) && segments[0] != "" then
              r == Scan(routes, handlers, answers, segments[1..], parameters + [segments[0]], calls)
            else if name == segments[0] then r == Scan(routes, handlers, answers, segments[1..], parameters, calls)
            else r == Outcome(false, calls)
    decreases |routes|
  {
    if routes != [] {
      var below := Below(name, routes);
      assert below[1..] == Below(name, routes[1..]);
      assert below[0].path[1..] == routes[0].path;
      ScanBelow(name, routes[1..], handlers, answers, segments, parameters, calls);
      if segments != [] && Matches(below[0].path, segments) {
        var call := Call(handlers[Id(routes[0].entry)], parameters + Parameters(below[0].path, segments));
        assert IsParameter(name) && segments[0] != "" && !IsWildcard(name) ==>
            parameters + Parameters(below[0].path, segments)
            == parameters + [segments[0]] + Parameters(routes[0].path, segments[1..]);
        ScanBelow(name, routes[1..], handlers, answers, segments, parameters, calls + [call]);
      }
    }
  }

  /** A node's own routes match only when nothing is left, its children's only when something is. */
  lemma {:induction false} ScanBelowAtEnd(children: seq<Node>, handlers: seq<Handler>, answers: Answers,
                                          parameters: seq<string>, calls: seq<Call>)
    requires Known(FlatAll(children), |handlers|)
    ensures Scan(FlatAll(children), handlers, answers, [], parameters, calls) == Outcome(false, calls)
  {
    if children != [] {
      var first, rest := Below(children[0].name, Flat(children[0])), FlatAll(children[1..]);
      KnownParts(first, rest, |handlers|);
      KnownBelow(children[0].name, Flat(children[0]), |handlers|);
      ScanBelow(children[0].name, Flat(children[0]), handlers, answers, [], parameters, calls);
      ScanBelowAtEnd(children[1..], handlers, answers, parameters, calls);
      ScanConcat(first, rest, handlers, answers, [], parameters, calls);
    }
  }

  lemma KnownParts(a: seq<Route>, b: seq<Route>, n: nat)
    ensures Known(a + b, n) <==> Known(a, n) && Known(b, n)
  {
    if Known(a + b, n) {
      assert forall i :: 0 <= i < |a| ==> (a + b)[i] == a[i];
      assert forall i :: 0 <= i < |b| ==> (a + b)[|a| + i] == b[i];
    }
  }

  lemma KnownBelow(name: string, routes: seq<Route>, n: nat)
    ensures Known(Below(name, routes), n) <==> Known(routes, n)
  {
    assert forall i :: 0 <= i < |routes| ==> Below(name, routes)[i].entry == routes[i].entry;
  }

  lemma {:induction false} ScanOwnInTheMiddle(entries: seq<nat>, handlers: seq<Handler>, answers: Answers,
                                              segments: seq<string>, parameters: seq<string>, calls: seq<Call>)
    requires Known(Own(entries), |handlers|) && segments != []
    ensures Scan(Own(entries), handlers, answers, segments, parameters, calls) == Outcome(false, calls)
  {
    if entries != [] {
      assert Own(entries)[1..] == Own(entries[1..]);
      ScanOwnInTheMiddle(entries[1..], handlers, answers, segments, parameters, calls);
    }
  }

  // ---------------------------------------------------------------- by characters

  /** A segment fits a name: the same, or the name starts with ':' and the segment is not empty. */
  lemma {:induction false} MatchesWithoutWildcard(path: seq<string>, segments: seq<string>)
    requires forall i :: 0 <= i < |path| ==> path[i] == "" || path[i][0] != '*'
    ensures Matches(path, segments) <==>
              |path| == |segments| && forall i :: 0 <= i < |path| ==>
                path[i] == segments[i] || (path[i] != "" && path[i][0] == ':' && segments[i] != "")
    decreases |path|
  {
    if path != [] && segments != [] {
      MatchesWithoutWildcard(path[1..], segments[1..]);
      if Matches(path, segments) {
        forall i | 0 <= i < |path|
          ensures path[i] == segments[i] || (path[i] != "" && path[i][0] == ':' && segments[i] != "")
        {
          if i > 0 {
            assert path[1..][i - 1] == path[i] && segments[1..][i - 1] == segments[i];
          }
        }
      }
    }
  }

  /** A name that starts with '*' takes all segments that are left, of which there must be one, if it comes last, and
      none otherwise. */
  lemma {:induction false} MatchesWithWildcard(path: seq<string>, segments: seq<string>, k: nat)
    requires k < |path| && path[k] != "" && path[k][0] == '*'
    requires forall i :: 0 <= i < k ==> path[i] == "" || path[i][0] != '*'
    ensures Matches(path, segments) <==>
              |path| == k + 1 && |segments| > k && forall i :: 0 <= i < k ==>
                path[i] == segments[i] || (path[i] != "" && path[i][0] == ':' && segments[i] != "")
    decreases |path|
  {
    if k > 0 && segments != [] {
      MatchesWithWildcard(path[1..], segments[1..], k - 1);
      if Matches(path, segments) {
        forall i | 0 <= i < k
          ensures path[i] == segments[i] || (path[i] != "" && path[i][0] == ':' && segments[i] != "")
        {
          if i > 0 {
            assert path[1..][i - 1] == path[i] && segments[1..][i - 1] == segments[i];
          }
        }
      }
    }
  }

  /** Of a path with one name more, the parameters are those before and the new segment if its name starts with ':'. */
  lemma {:induction false} ParametersOneMore(path: seq<string>, segments: seq<string>, name: string, segment: string)
    requires Matches(path, segments) && Matches(path + [name], segments + [segment])
    requires forall i :: 0 <= i < |path| ==> path[i] == "" || path[i][0] != '*'
    ensures Parameters(path + [name], segments + [segment])
         == Parameters(path, segments) + if name != "" && name[0] == ':' then [segment] else []
    decreases |path|
  {
    var p, s := path + [name], segments + [segment];
    if path == [] {
      assert p[1..] == [] && s[1..] == [];
    } else {
      assert p[1..] == path[1..] + [name] && s[1..] == segments[1..] + [segment];
      ParametersOneMore(path[1..], segments[1..], name, segment);
    }
  }

  /** A wildcard at the end, and what it takes, adds no parameter. */
  lemma {:induction false} ParametersOfWildcard(path: seq<string>, segments: seq<string>, name: string, more: seq<string>)
    requires Matches(path, segments) && Matches(path + [name], segments + more) && name != "" && name[0] == '*'
    requires forall i :: 0 <= i < |path| ==> path[i] == "" || path[i][0] != '*'
    ensures Parameters(path + [name], segments + more) == Parameters(path, segments)
    decreases |path|
  {
    var p, s := path + [name], segments + more;
    if path != [] {
      assert p[1..] == path[1..] + [name] && s[1..] == segments[1..] + more;
      ParametersOfWildcard(path[1..], segments[1..], name, more);
    }
  }

  /** What a URL looks like, its first character aside: each segment behind a slash. */
  function Joined(segments: seq<string>): string {
    if segments == [] then "" else "/" + segments[0] + Joined(segments[1..])
  }

  lemma FirstSegment(url: string) returns (first: string, rest: string)
    requires url != ""
    ensures Segments(url) == [first] + Segments(rest) && url[1..] == first + rest && |rest| < |url|
    ensures '/' !in first && (rest != "" ==> rest[0] == '/')
  {
    hide FirstSlash;
    var tail := url[1..];
    var n := FirstSlash(tail);
    first, rest := url[1..1 + n], url[1 + n..];
    assert Segments(url) == [first] + Segments(rest);
    hide Segments;
    assert first == tail[..n] && rest == tail[n..];
  }

  /** The segments are the parts of the URL between slashes: they have no slash, and put together are the URL. */
  lemma {:induction false} SegmentsAre(url: string)
    ensures url == "" <==> Segments(url) == []
    ensures url != "" ==> Joined(Segments(url)) == "/" + url[1..]
    ensures forall s <- Segments(url) :: '/' !in s
    decreases |url|
  {
    if url != "" {
      var first, rest := FirstSegment(url);
      hide Segments;
      SegmentsAre(rest);
      assert ([first] + Segments(rest))[1..] == Segments(rest);
      if rest == "" {
        assert Joined(Segments(rest)) == "";
      } else {
        assert rest == "/" + rest[1..];
      }
    }
  }

  /** Only the first hundred are looked at. */
  lemma SeenAre(url: string)
    ensures Seen(url) <= Segments(url)
    ensures |Seen(url)| == if |Segments(url)| <= 100 then |Segments(url)| else 100
  {
  }
}
