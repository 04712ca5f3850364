/** Registering a pattern with SimpleRoute and then routing requests: what fits the pattern
    reaches its handler, and what shares no segment with it is routed as before. */
module RegistrationTheorems {
  import opened Paths
  import opened Routes
  import opened RouteTheorems
  import opened Patterns
  import opened SimpleRoutes
  import opened SimpleRouteTheorems

  // ------------------------------------------------- requests that fit

  /** The request fits the pattern from cur on: it repeats the static parts, and no parameter
      has the name of a child. */
  ghost predicate Fits(g: Graph, cur: Node, pattern: seq<string>, request: seq<string>)
    requires Forest(g) && cur in g
    decreases |pattern|
  {
    if pattern == [] then request == []
    else
      && request != []
      && if IsParam(pattern[0]) then request[0] !in g[cur].resources && Fits(g, cur, pattern[1..], request[1..])
         else
           && request[0] == pattern[0] && pattern[0] in g[cur].resources
           && Fits(g, g[cur].resources[pattern[0]], pattern[1..], request[1..])
  }

  /** No parameter stands right before another. */
  predicate Apart(pattern: seq<string>) {
    |pattern| > 1 ==> !(IsParam(pattern[0]) && IsParam(pattern[1])) && Apart(pattern[1..])
  }

  /** The patterns whose requests are found: the lookahead after a parameter wants a child, and
      a parameter alone at the root is refused. */
  predicate Servable(pattern: seq<string>) {
    Apart(pattern) && !(|pattern| == 1 && IsParam(pattern[0]))
  }

  ghost predicate Rooted(g: Graph, root: Node) {
    root in g && g[root].name == "" && g[root].parent == null && g[root].routeType in {RootEndPoint, EndPoint}
  }

  function StepsOf(pattern: seq<string>): seq<Step> {
    if pattern == [] then [] else [if IsParam(pattern[0]) then Capture else Down] + StepsOf(pattern[1..])
  }

  /** What the parameters are bound to, each filed under the static part before it. */
  function Bound(at: string, pattern: seq<string>, request: seq<string>): seq<Capture>
    requires |request| == |pattern|
    decreases |pattern|
  {
    if pattern == [] then []
    else if IsParam(pattern[0]) then [Named(at, request[0])] + Bound(at, pattern[1..], request[1..])
    else Bound(pattern[0], pattern[1..], request[1..])
  }

  /** A request that fits walks along the pattern and captures what the parameters name. */
  lemma {:induction false} FitsWalks(g: Graph, root: Node, cur: Node, pattern: seq<string>, request: seq<string>,
                                     last: Node)
    requires Forest(g) && Stars(g) && cur in g && g[cur].routeType != RecursiveEndPoint && "*" !in pattern
    requires root in g && g[root].parent == null
    requires Laid(g, cur, pattern, last) && Fits(g, cur, pattern, request)
    requires Apart(pattern) && (cur == root ==> Servable(pattern))
    ensures |request| == |pattern| == |StepsOf(pattern)|
    ensures Walks(g, root, cur, request, StepsOf(pattern), last)
    ensures CapturesOf(g, cur, request, StepsOf(pattern)) == Bound(g[cur].name, pattern, request)
    decreases |pattern|
  {
    if pattern != [] {
      var rest := StepsOf(pattern[1..]);
      assert StepsOf(pattern)[1..] == rest;
      assert pattern[0] in pattern && forall p :: p in pattern[1..] ==> p in pattern;
      if IsParam(pattern[0]) {
        if |pattern| > 1 { assert Fits(g, cur, pattern[1..], request[1..]); }
        FitsWalks(g, root, cur, pattern[1..], request[1..], last);
      } else {
        FitsWalks(g, root, g[cur].resources[pattern[0]], pattern[1..], request[1..], last);
      }
    }
  }

  lemma {:induction false} FitsLength(g: Graph, cur: Node, pattern: seq<string>, request: seq<string>)
    requires Forest(g) && cur in g && Fits(g, cur, pattern, request)
    ensures |request| == |pattern|
    decreases |pattern|
  {
    if pattern != [] {
      FitsLength(g, if IsParam(pattern[0]) then cur else g[cur].resources[pattern[0]], pattern[1..], request[1..]);
    }
  }

  lemma {:induction false} LaidInside(g: Graph, cur: Node, pattern: seq<string>, last: Node)
    requires Forest(g) && cur in g && Laid(g, cur, pattern, last)
    ensures last in g
    decreases |pattern|
  {
    if pattern != [] && pattern[0] != "*" {
      LaidInside(g, if IsParam(pattern[0]) then cur else g[cur].resources[pattern[0]], pattern[1..], last);
    }
  }

  /** Two parameters in a row are never served, whatever follows. */
  lemma {:induction false} AdjacentMisses(g: Graph, root: Node, cur: Node, pattern: seq<string>, request: seq<string>,
                                          rest: seq<string>, caps: seq<Capture>, last: Node)
    requires Forest(g) && Stars(g) && cur in g && g[cur].routeType != RecursiveEndPoint && "*" !in pattern
    requires Laid(g, cur, pattern, last) && Fits(g, cur, pattern, request) && !Apart(pattern)
    ensures Search(g, root, cur, request + rest, caps) == Missing
    decreases |pattern|
  {
    var segs := request + rest;
    assert segs[0] == request[0] && segs[1..] == request[1..] + rest && request[1..] != [] && segs[1] == request[1];
    assert pattern[0] in pattern && forall p :: p in pattern[1..] ==> p in pattern;
    if !IsParam(pattern[0]) {
      AdjacentMisses(g, root, g[cur].resources[pattern[0]], pattern[1..], request[1..], rest, caps, last);
    } else if !IsParam(pattern[1]) {
      AdjacentMisses(g, root, cur, pattern[1..], request[1..], rest, caps + [Named(g[cur].name, segs[0])], last);
    }
  }

  /** Neither is a parameter alone at the root. */
  lemma LoneMisses(g: Graph, root: Node, pattern: seq<string>, request: seq<string>, last: Node)
    requires Forest(g) && root in g && |pattern| == 1 && IsParam(pattern[0])
    requires Laid(g, root, pattern, last) && Fits(g, root, pattern, request)
    ensures last == root && Search(g, root, root, request, []) == Missing
  {
    FitsLength(g, root, pattern, request);
  }

  /** What a request that fits is answered: the node registered, with each parameter captured,
      unless that was a group below a group already or the pattern cannot be served. */
  ghost function Served(g: Graph, pattern: seq<string>, request: seq<string>, last: Node): Outcome
    requires pattern != [] && |request| == |pattern| && last in g
  {
    if !Servable(pattern) || Hidden(g, last) then Missing
    else Hit(last, Bound("", pattern, request), !IsParam(pattern[|pattern| - 1]))
  }

  /** Registered and then routed. */
  lemma RegisteredIsRouted(g: Graph, root: Node, pattern: seq<string>, request: seq<string>, last: Node)
    requires Forest(g) && Stars(g) && Rooted(g, root) && pattern != [] && "*" !in pattern
    requires Laid(g, root, pattern, last) && Fits(g, root, pattern, request)
    ensures |request| == |pattern| && last in g
    ensures Search(g, root, root, request, []) == Served(g, pattern, request, last)
  {
    LaidInside(g, root, pattern, last);
    FitsLength(g, root, pattern, request);
    if !Apart(pattern) {
      AdjacentMisses(g, root, root, pattern, request, [], [], last);
      assert request + [] == request;
    } else if !Servable(pattern) {
      LoneMisses(g, root, pattern, request, last);
    } else {
      FitsWalks(g, root, root, pattern, request, last);
      WalkFinds(g, root, root, request, [], StepsOf(pattern), last);
      StepOf(pattern, |pattern| - 1);
      assert [] + Bound("", pattern, request) == Bound("", pattern, request);
    }
  }

  lemma {:induction false} StepOf(pattern: seq<string>, i: nat)
    requires i < |pattern|
    ensures |StepsOf(pattern)| == |pattern| && (StepsOf(pattern)[i] == Down <==> !IsParam(pattern[i]))
  {
    if i > 0 {
      StepOf(pattern[1..], i - 1);
    } else if |pattern| > 1 {
      StepOf(pattern[1..], 0);
    }
  }

  // ------------------------------------------------- wildcards

  /** A wildcard catches what is left of a request that fits the pattern before it, and does
      so if and only if it stands below a group (not at the root, and not below an end point)
      and that pattern has no two parameters in a row. */
  lemma WildcardNeedsGroup(g: Graph, root: Node, pattern: seq<string>, request: seq<string>, rest: seq<string>, x: Node)
    requires Forest(g) && Stars(g) && Rooted(g, root) && "*" !in pattern
    requires Laid(g, root, pattern, x) && Fits(g, root, pattern, request) && |request| == |pattern|
    requires x in g && "*" in g[x].resources && rest != [] && rest[0] !in g[x].resources
    ensures Search(g, root, root, request + rest, []) ==
              Wild(g[x].resources["*"], Bound("", pattern, request) + [Verbatim("*", Join(rest))])
            <==> g[x].routeType == Group && Apart(pattern)
  {
    var segs := request + rest;
    if !Apart(pattern) {
      AdjacentMisses(g, root, root, pattern, request, rest, [], x);
    } else if g[x].routeType == Group {
      FitsWalks(g, root, root, pattern, request, x);
      assert segs[..|request|] == request && segs[|request|..] == rest;
      StuckIsWild(g, root, root, segs, [], |request|, StepsOf(pattern), x);
      assert [] + Bound("", pattern, request) == Bound("", pattern, request);
    }
    var o := Search(g, root, root, segs, []);
    if o.Wild? && o.node == g[x].resources["*"] {
      var k, steps, y := WildIsStuck(g, root, root, segs, []);
      assert g[o.node].parent == x && g[o.node].parent == y;
    }
  }

  // ------------------------------------------------- the frame

  /** The same for every segment that is no part. */
  ghost predicate SameFor(d: Data, e: Data, isRoot: bool, parts: seq<string>) {
    && e.name == d.name
    && (if isRoot then d.routeType in {RootEndPoint, EndPoint} && e.routeType in {RootEndPoint, EndPoint}
        else e.routeType == d.routeType && e.resources == d.resources)
    && (forall k :: k !in parts && (k in d.resources || k in e.resources) ==>
          k in d.resources && k in e.resources && e.resources[k] == d.resources[k])
  }

  ghost predicate SameAround(g: Graph, h: Graph, root: Node, parts: seq<string>) {
    forall n :: n in g && (n == root || g[n].name !in parts) ==> n in h && SameFor(g[n], h[n], n == root, parts)
  }

  lemma SameHere(g: Graph, h: Graph, root: Node, parts: seq<string>, cur: Node, seg: string)
    requires SameAround(g, h, root, parts) && cur in g && (cur == root || g[cur].name !in parts) && seg !in parts
    ensures cur in h && h[cur].name == g[cur].name
    ensures if cur == root then g[cur].routeType in {RootEndPoint, EndPoint} &&
            h[cur].routeType in {RootEndPoint, EndPoint}
            else h[cur].routeType == g[cur].routeType && h[cur].resources == g[cur].resources
    ensures seg in h[cur].resources <==> seg in g[cur].resources
    ensures seg in g[cur].resources ==> h[cur].resources[seg] == g[cur].resources[seg]
  {
    assert SameFor(g[cur], h[cur], cur == root, parts);
  }

  lemma {:induction false} SameAroundSearch(g: Graph, h: Graph, root: Node, parts: seq<string>, cur: Node,
                                            segs: seq<string>, caps: seq<Capture>)
    requires Forest(g) && Forest(h) && SameAround(g, h, root, parts) && cur in g && cur in h
    requires (cur == root || g[cur].name !in parts) && forall s :: s in segs ==> s !in parts
    ensures Search(h, root, cur, segs, caps) == Search(g, root, cur, segs, caps)
    decreases |segs|
  {
    if segs == [] {
      assert SameFor(g[cur], h[cur], cur == root, parts);
    } else {
      var d := g[cur];
      SameHere(g, h, root, parts, cur, segs[0]);
      if |segs| > 1 { SameHere(g, h, root, parts, cur, segs[1]); }
      if segs[0] in d.resources {
        var next := d.resources[segs[0]];
        assert next in g && g[next].name == segs[0];
        SameAroundSearch(g, h, root, parts, next, segs[1..], caps);
      } else {
        SameAroundSearch(g, h, root, parts, cur, segs[1..], caps + [Named(d.name, segs[0])]);
      }
    }
  }

  lemma ExtendsIsSameAround(g: Graph, h: Graph, root: Node, parts: seq<string>)
    requires Extends(g, h, root, parts) && root in g && g[root].routeType in {RootEndPoint, EndPoint}
    ensures SameAround(g, h, root, parts)
  {
    forall n | n in g && (n == root || g[n].name !in parts) ensures n in h && SameFor(g[n], h[n], n == root, parts) {
      assert DataExtends(g[n], h[n], n == root, parts);
    }
  }

  /** Registering a pattern changes nothing for a request that shares no part with it. */
  lemma SearchFrame(g: Graph, h: Graph, root: Node, parts: seq<string>, segs: seq<string>)
    requires Forest(g) && Forest(h) && Extends(g, h, root, parts)
    requires root in g && g[root].routeType in {RootEndPoint, EndPoint} && forall s :: s in segs ==> s !in parts
    ensures root in h && Search(h, root, root, segs, []) == Search(g, root, root, segs, [])
  {
    ExtendsIsSameAround(g, h, root, parts);
    SameAroundSearch(g, h, root, parts, root, segs, []);
  }

  // ------------------------------------------------- the parameter names

  lemma {:induction false} FitsMatches(g: Graph, cur: Node, pattern: seq<string>, request: seq<string>)
    requires Forest(g) && cur in g && Fits(g, cur, pattern, request)
    ensures |request| == |pattern|
    ensures forall i :: 0 <= i < |pattern| ==> IsParamPlaceholder(pattern[i]) || request[i] == pattern[i]
    decreases |pattern|
  {
    if pattern != [] {
      var next := if IsParam(pattern[0]) then cur else g[cur].resources[pattern[0]];
      FitsMatches(g, next, pattern[1..], request[1..]);
      forall i | 0 <= i < |pattern| ensures IsParamPlaceholder(pattern[i]) || request[i] == pattern[i] {
        if i > 0 { assert pattern[1..][i - 1] == pattern[i] && request[1..][i - 1] == request[i]; }
      }
    }
  }

  /** The parameter names of a pattern may be used for every request that fits it, and are the
      only ones used if no other registered pattern matches the request. */
  lemma OwnNames(g: Graph, root: Node, path: string, mappings: map<string, Mapping>, request: seq<string>)
    requires Forest(g) && root in g && Trim(path) in mappings
    requires Fits(g, root, Split(Trim(path)), request)
    ensures MayPick(mappings, request, Picked(mappings[Trim(path)]))
    ensures (forall e :: e in mappings && e != Trim(path) ==> !Matches(e, request)) ==>
              forall p :: MayPick(mappings, request, p) <==> p == Picked(mappings[Trim(path)])
  {
    FitsMatches(g, root, Split(Trim(path)), request);
    assert TrimLeft(Trim(path)) == Trim(path);
    assert Matches(Trim(path), request);
  }

  /** The parameters among the first n parts. */
  function Params(pattern: seq<string>, n: nat): nat
    requires n <= |pattern|
  {
    if n == 0 then 0 else (if IsParam(pattern[0]) then 1 else 0) + Params(pattern[1..], n - 1)
  }

  /** The name of the node after n parts, from a node called at. */
  function NameFrom(at: string, pattern: seq<string>, n: nat): string
    requires n <= |pattern|
    decreases n
  {
    if n == 0 then at else NameFrom(if IsParam(pattern[0]) then at else pattern[0], pattern[1..], n - 1)
  }

  lemma {:induction false} NameFromLast(at: string, pattern: seq<string>, n: nat)
    requires 0 < n <= |pattern|
    ensures NameFrom(at, pattern, n) == if IsParam(pattern[n - 1]) then NameFrom(at, pattern, n - 1) else pattern[n - 1]
    decreases n
  {
    if n > 1 { NameFromLast(if IsParam(pattern[0]) then at else pattern[0], pattern[1..], n - 1); }
  }

  lemma {:induction false} NameFromRoot(pattern: seq<string>, n: nat)
    requires n <= |pattern|
    ensures NameFrom("", pattern, n) == NameAt(pattern, n)
  {
    if n > 0 {
      NameFromLast("", pattern, n);
      NameFromRoot(pattern, n - 1);
    }
  }

  /** The value of the i-th part is bound under the name of the node it stands at. */
  lemma {:induction false} BoundAt(at: string, pattern: seq<string>, request: seq<string>, i: nat)
    requires i < |pattern| == |request| && IsParam(pattern[i])
    ensures Params(pattern, i) < |Bound(at, pattern, request)|
    ensures Bound(at, pattern, request)[Params(pattern, i)] == Named(NameFrom(at, pattern, i), request[i])
    decreases i
  {
    if i > 0 { BoundAt(if IsParam(pattern[0]) then at else pattern[0], pattern[1..], request[1..], i - 1); }
  }

  /** A parameter written in braces, or after a colon and ending in _id. */
  predicate IsNamed(part: string) {
    IsParam(part) && (Braced(part) || EndsInId(ExtractParamName(part)))
  }

  function NamedKey(part: string): string {
    (if Braced(part) then "[gone-http]p:" else "[gone-http]") + ExtractParamName(part)
  }

  /** The parameter of a part, as a mapping knows it. */
  ghost predicate Knows(m: Mapping, name: string, part: string) {
    name in m.names && m.names[name] == ExtractParamName(part) && (name in m.prefixed <==> Braced(part))
  }

  ghost predicate Ignores(m: Mapping, name: string) {
    name !in m.names && name !in m.prefixed
  }

  lemma ParamElsewhere(m: Mapping, at: string, other: string, name: string, part: string)
    requires name != at
    ensures Knows(m, name, part) ==> Knows(WithParam(m, at, other), name, part)
    ensures Ignores(m, name) ==> Ignores(WithParam(m, at, other), name)
  {
  }

  lemma ParamHere(m: Mapping, at: string, part: string)
    requires Ignores(m, at) && IsNamed(part)
    ensures Knows(WithParam(m, at, part), at, part)
  {
  }

  /** Of the first n parts, none but the i-th is a parameter at a node of this name. */
  predicate Alone(pattern: seq<string>, n: nat, i: nat, name: string)
    requires n <= |pattern|
  {
    n == 0 || ((n - 1 == i || !IsParam(pattern[n - 1]) || NameAt(pattern, n - 1) != name) &&
               Alone(pattern, n - 1, i, name))
  }

  /** The pattern's own mapping knows a named parameter that is alone at its node. */
  lemma {:induction false} MappingHolds(pattern: seq<string>, n: nat, i: nat, name: string)
    requires n <= |pattern| && i < |pattern| && IsNamed(pattern[i]) && name == NameAt(pattern, i)
    requires Alone(pattern, n, i, name)
    ensures if i < n then Knows(MappingOf(pattern, n), name, pattern[i]) else Ignores(MappingOf(pattern, n), name)
    decreases n
  {
    if n > 0 {
      var m, part := MappingOf(pattern, n - 1), pattern[n - 1];
      MappingHolds(pattern, n - 1, i, name);
      if n - 1 == i {
        ParamHere(m, name, part);
      } else if IsParam(part) {
        ParamElsewhere(m, NameAt(pattern, n - 1), part, name, pattern[i]);
      }
    }
  }

  /** Where the pattern's own names are used, the value of a named parameter that is alone at
      its node is found under its name, unless a later capture has the same key. */
  lemma ParameterByName(pattern: seq<string>, request: seq<string>, picks: seq<Pick>, i: nat)
    requires i < |pattern| == |request| && IsNamed(pattern[i])
    requires Alone(pattern, |pattern|, i, NameAt(pattern, i))
    requires |picks| == |Bound("", pattern, request)|
    requires forall p :: p in picks ==> p == Picked(MappingOf(pattern, |pattern|))
    requires forall j :: Params(pattern, i) < j < |picks| ==>
             KeyFor(Bound("", pattern, request)[j], picks[j]) != NamedKey(pattern[i])
    ensures var params := Filed(Bound("", pattern, request), picks);
            NamedKey(pattern[i]) in params && params[NamedKey(pattern[i])] == request[i]
  {
    var bound, k := Bound("", pattern, request), Params(pattern, i);
    BoundAt("", pattern, request, i);
    NameFromRoot(pattern, i);
    MappingHolds(pattern, |pattern|, i, NameAt(pattern, i));
    assert picks[k] in picks;
    assert KeyFor(bound[k], picks[k]) == NamedKey(pattern[i]);
    FiledIsFound(bound, picks, k);
  }

  /** The names, spelt out: a parameter {name}, or one :name that ends in _id. */
  lemma ParameterLiterally(pattern: seq<string>, request: seq<string>, picks: seq<Pick>, i: nat, name: string)
    requires i < |pattern| == |request| && name != ""
    requires pattern[i] == "{" + name + "}" || (pattern[i] == ":" + name && |name| >= 3 && name[|name| - 3..] == "_id")
    requires Alone(pattern, |pattern|, i, NameAt(pattern, i))
    requires |picks| == |Bound("", pattern, request)|
    requires forall p :: p in picks ==> p == Picked(MappingOf(pattern, |pattern|))
    requires forall j :: Params(pattern, i) < j < |picks| ==>
             KeyFor(Bound("", pattern, request)[j], picks[j]) != NamedKey(pattern[i])
    ensures var params := Filed(Bound("", pattern, request), picks);
            var key := (if pattern[i] == ":" + name then "[gone-http]" else "[gone-http]p:") + name;
            key in params && params[key] == request[i]
  {
    Placeholders(pattern[i], name);
    assert pattern[i] == ":" + name ==> pattern[i][0] == ':';
    ParameterByName(pattern, request, picks, i);
  }

  lemma WrappedHead(chain: seq<Node>, picks: seq<Pick>)
    requires chain != [] && |picks| == |chain|
    ensures Wrapped(chain, picks) != Nil && Wrapped(chain, picks).node == chain[0]
  {
  }

  /** Where the request fits a pattern laid out in the trie, routing finds its last node,
      behind whatever names, with every parameter under its key. */
  method RouteFitting(route: SimpleRoute, request: string, ghost pattern: seq<string>, ghost last: Node)
    returns (node: Ref, params: map<string, string>, isLast: bool, ghost picks: seq<Pick>)
    requires route.Valid() && Trim(request) != [] && pattern != [] && "*" !in pattern && Servable(pattern)
    requires Laid(View(route.all), route.root, pattern, last) && last in route.all && !Hidden(View(route.all), last)
    requires Fits(View(route.all), route.root, pattern, Split(Trim(request)))
    ensures |Split(Trim(request))| == |pattern| && node != Nil && node.node == last &&
            isLast == !IsParam(pattern[|pattern| - 1])
    ensures var bound := Bound("", pattern, Split(Trim(request)));
            Keyed(Pickable(route.endpointMappings, Split(Trim(request))), bound, picks) && params == Filed(bound, picks)
  {
    RegisteredIsRouted(View(route.all), route.root, pattern, Split(Trim(request)), last);
    ghost var chain, nodePicks;
    node, params, isLast, chain, picks, nodePicks := route.RouteNode(request);
    WrappedHead(chain, nodePicks);
  }

  /** Every request that fits finds the last node and the values of the parameters, if the
      pattern can be served, and nothing if not. */
  ghost predicate FindsAll(g: Graph, root: Node, pattern: seq<string>, last: Node)
    requires Forest(g) && root in g && last in g && pattern != []
  {
    forall segs :: Fits(g, root, pattern, segs) ==>
      |segs| == |pattern| && Search(g, root, root, segs, []) == Served(g, pattern, segs, last)
  }

  /** Every request without a segment of the pattern is answered as before. */
  ghost predicate SameBut(g: Graph, h: Graph, root: Node, pattern: seq<string>)
    requires Forest(g) && Forest(h) && root in g && root in h
  {
    forall segs :: (forall s :: s in segs ==> s !in pattern) ==>
      Search(h, root, root, segs, []) == Search(g, root, root, segs, [])
  }

  lemma LaidFindsAll(g: Graph, root: Node, pattern: seq<string>, last: Node)
    requires Forest(g) && Stars(g) && Rooted(g, root) && pattern != [] && "*" !in pattern
    requires Laid(g, root, pattern, last) && last in g
    ensures FindsAll(g, root, pattern, last)
  {
    forall segs | Fits(g, root, pattern, segs)
      ensures |segs| == |pattern| && Search(g, root, root, segs, []) == Served(g, pattern, segs, last)
    {
      RegisteredIsRouted(g, root, pattern, segs, last);
    }
  }

  lemma ExtendedIsSame(g: Graph, h: Graph, root: Node, pattern: seq<string>)
    requires Forest(g) && Forest(h) && Extends(g, h, root, pattern) && root in g && root in h
    requires g[root].routeType in {RootEndPoint, EndPoint}
    ensures SameBut(g, h, root, pattern)
  {
    forall segs | forall s :: s in segs ==> s !in pattern
      ensures Search(h, root, root, segs, []) == Search(g, root, root, segs, [])
    {
      SearchFrame(g, h, root, pattern, segs);
    }
  }

  // ------------------------------------------------- registering a wildcard

  /** The position of the first wildcard, or the length. */
  function FirstStar(parts: seq<string>): (k: nat)
    ensures k <= |parts| && "*" !in parts[..k] && (k < |parts| <==> "*" in parts) && (k < |parts| ==> parts[k] == "*")
  {
    if parts == [] || parts[0] == "*" then 0
    else
      var k := FirstStar(parts[1..]);
      assert parts[..k + 1] == [parts[0]] + parts[1..][..k];
      k + 1
  }

  /** The parts before a wildcard lead to its parent. */
  lemma {:induction false} LaidToParent(g: Graph, cur: Node, parts: seq<string>, k: nat, last: Node) returns (x: Node)
    requires Forest(g) && cur in g && k < |parts| && "*" !in parts[..k] && parts[k] == "*" && Laid(g, cur, parts, last)
    ensures x in g && last in g && Laid(g, cur, parts[..k], x) && "*" in g[x].resources && g[x].resources["*"] == last
    ensures g[last].parent == x
    decreases k
  {
    if k == 0 {
      x := cur;
    } else {
      assert parts[0] == parts[..k][0] && parts[..k][1..] == parts[1..][..k - 1];
      x := LaidToParent(g, if IsParam(parts[0]) then cur else g[cur].resources[parts[0]], parts[1..], k - 1, last);
    }
  }

  /** A request that fits the pattern before the wildcard, and goes on with a segment that is
      no child of x, is caught with everything that is left. */
  ghost predicate Caught(g: Graph, root: Node, pattern: seq<string>, x: Node, last: Node, segs: seq<string>,
                         rest: seq<string>)
    requires Forest(g) && root in g && |segs| == |pattern| && rest != []
  {
    Search(g, root, root, segs + rest, []) == Wild(last, Bound("", pattern, segs) + [Verbatim("*", Join(rest))])
  }

  ghost predicate CatchesIffGroup(g: Graph, root: Node, pattern: seq<string>, x: Node, last: Node)
    requires Forest(g) && root in g && x in g
  {
    forall segs, rest ::
      Fits(g, root, pattern, segs) && |segs| == |pattern| && rest != [] && rest[0] !in g[x].resources ==>
      (Caught(g, root, pattern, x, last, segs, rest) <==> g[x].routeType == Group && Apart(pattern))
  }

  lemma LaidCatches(g: Graph, root: Node, parts: seq<string>, k: nat, last: Node) returns (x: Node)
    requires Forest(g) && Stars(g) && Rooted(g, root)
    requires k < |parts| && "*" !in parts[..k] && parts[k] == "*" && Laid(g, root, parts, last)
    ensures x in g && last in g && g[last].parent == x && CatchesIffGroup(g, root, parts[..k], x, last)
  {
    x := LaidToParent(g, root, parts, k, last);
    forall segs, rest | Fits(g, root, parts[..k], segs) && |segs| == k && rest != [] && rest[0] !in g[x].resources
      ensures Caught(g, root, parts[..k], x, last, segs, rest) <==> g[x].routeType == Group && Apart(parts[..k])
    {
      WildcardNeedsGroup(g, root, parts[..k], segs, rest, x);
    }
  }

  /** Registering a handler: afterwards every request that fits the pattern finds its node, if
      the pattern can be served, and nothing if not; the node has the handler, unless the
      pattern ends in the name of a child that was there before.  A wildcard catches every
      request that fits what is before it, if and only if its parent is a group and no two
      parameters before it are in a row.  Every request that shares no part with the pattern is
      routed as before. */
  method Register(route: SimpleRoute, path: string, handler: nat, acceptances: seq<nat>) returns (last: Node)
    requires route.Valid() && Trim(path) != []
    modifies route, route.all
    ensures route.Valid() && route.root == old(route.root) && last in route.all
    ensures "*" !in Split(Trim(path)) ==> FindsAll(View(route.all), route.root, Split(Trim(path)), last)
    ensures "*" !in Split(Trim(path)) && Sets(old(View(route.all)), Split(Trim(path)), last) ==>
              last.handler == handler && !Hidden(View(route.all), last)
    ensures "*" in Split(Trim(path)) ==>
              last.handler == handler && last.parent in route.all &&
              CatchesIffGroup(View(route.all), route.root, Split(Trim(path))[..FirstStar(Split(Trim(path)))],
                              last.parent, last)
    ensures SameBut(old(View(route.all)), View(route.all), route.root, Split(Trim(path)))
    ensures "*" in Split(Trim(path)) ==> route.endpointMappings == old(route.endpointMappings)
    ensures var mapping := MappingOf(Split(Trim(path)), |Split(Trim(path))|);
            "*" !in Split(Trim(path)) ==>
              route.endpointMappings ==
              if mapping.names == map[] then old(route.endpointMappings)
              else old(route.endpointMappings)[Trim(path) := mapping]
  {
    ghost var pattern := Split(Trim(path));
    ghost var g0 := View(route.all);
    last := route.SetEndpoint(path, handler, acceptances);
    ghost var g := View(route.all);
    if "*" !in pattern { LaidFindsAll(g, route.root, pattern, last); }
    if "*" in pattern { ghost var x := LaidCatches(g, route.root, pattern, FirstStar(pattern), last); }
    ExtendedIsSame(g0, g, route.root, pattern);
  }

  // ------------------------------------------------- one part at the root

  /** The children of a root that had none. */
  lemma NewChildren(g: Graph, h: Graph, root: Node, parts: seq<string>)
    requires Extends(g, h, root, parts) && Rooted(g, root) && g[root].resources == map[]
    ensures Rooted(h, root) && forall k :: k in h[root].resources ==> k in parts && !IsParam(k)
  {
    assert DataExtends(g[root], h[root], true, parts);
  }

  /** The first two segments are looked for below the root, the second for the lookahead. */
  predicate Near(segs: seq<string>, name: string) {
    segs != [] && (segs[0] == name || (|segs| > 1 && segs[1] == name))
  }

  lemma ChildFound(h: Graph, root: Node, segs: seq<string>, caps: seq<Capture>)
    requires Forest(h) && Rooted(h, root) && segs != [] && segs[0] in h[root].resources
    requires h[h[root].resources[segs[0]]].routeType == RecursiveEndPoint
    ensures Search(h, root, root, segs, caps) != Missing
  {
  }

  /** A root with no child but a wildcard finds nothing, unless the request spells the wildcard. */
  lemma BareRootSearch(h: Graph, root: Node, segs: seq<string>)
    requires Forest(h) && Rooted(h, root) && segs != []
    requires forall k :: k in h[root].resources ==> k == "*" && h[h[root].resources[k]].routeType == RecursiveEndPoint
    ensures Search(h, root, root, segs, []) != Missing <==> "*" in h[root].resources && Near(segs, "*")
  {
    if segs[0] in h[root].resources {
      ChildFound(h, root, segs, []);
    } else if |segs| > 1 && segs[1] in h[root].resources {
      ChildFound(h, root, segs[1..], [] + [Named(h[root].name, segs[0])]);
    }
  }

  /** A trie with one part registered at its root. */
  lemma OnePartSearch(g: Graph, h: Graph, root: Node, part: string, last: Node, segs: seq<string>)
    requires Forest(h) && Extends(g, h, root, [part]) && Rooted(g, root) && g[root].resources == map[]
    requires (part == "*" || IsParam(part)) && Laid(h, root, [part], last) && segs != []
    ensures Rooted(h, root)
    ensures Search(h, root, root, segs, []) != Missing <==> part == "*" && Near(segs, "*")
  {
    NewChildren(g, h, root, [part]);
    BareRootSearch(h, root, segs);
  }

  /** A pattern of one part on a new route: a parameter is never served, and a wildcard only to
      requests that spell it. */
  method RouteAtRoot(path: string, handler: nat, request: string) returns (node: Ref)
    requires |Split(Trim(path))| == 1 && (Split(Trim(path))[0] == "*" || IsParam(Split(Trim(path))[0]))
    requires Trim(path) != [] && Trim(request) != []
    ensures node != Nil <==> Split(Trim(path))[0] == "*" && Near(Split(Trim(request)), "*")
  {
    var route := new SimpleRoute();
    ghost var g, part := View(route.all), Split(Trim(path))[0];
    assert Split(Trim(path)) == [part];
    var last := route.SetEndpoint(path, handler, []);
    OnePartSearch(g, View(route.all), route.root, part, last, Split(Trim(request)));
    var params, isLast;
    ghost var chain, keyPicks, picks;
    node, params, isLast, chain, keyPicks, picks := route.RouteNode(request);
    if picks != [] && |picks| == |chain| { WrappedHead(chain, picks); }
  }
}
