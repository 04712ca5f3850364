/** SimpleRoute against the walks of RouteTheorems: what it finds, what its wildcards
    capture, and what wrapping a chain of nodes keeps. */
module SimpleRouteTheorems {
  import opened Paths
  import opened Routes
  import opened RouteTheorems
  import opened Patterns
  import opened SimpleRoutes

  // ------------------------------------------------- the node found

  /** A group below a group is passed through but never found. */
  ghost predicate Hidden(g: Graph, node: Node)
    requires node in g
  {
    g[node].routeType == Group && g[node].parent in g && g[g[node].parent].routeType == Group
  }

  /** The captures along a walk, in the order of the path. */
  ghost function CapturesOf(g: Graph, cur: Node, segs: seq<string>, steps: seq<Step>): seq<Capture>
    requires Forest(g) && cur in g
    decreases |steps|
  {
    if steps == [] || segs == [] then
      if segs != [] && segs[0] !in g[cur].resources then [Verbatim(g[cur].name, segs[0])] else []
    else if steps[0] == Down && segs[0] in g[cur].resources then
      CapturesOf(g, g[cur].resources[segs[0]], segs[1..], steps[1..])
    else [Named(g[cur].name, segs[0])] + CapturesOf(g, cur, segs[1..], steps[1..])
  }

  /** Completeness: where a walk leads to a node, that node is found unless it is hidden. */
  lemma {:induction false} WalkFinds(g: Graph, root: Node, cur: Node, segs: seq<string>, caps: seq<Capture>,
                                     steps: seq<Step>, node: Node)
    requires Forest(g) && cur in g && segs != [] && Walks(g, root, cur, segs, steps, node)
    ensures node in g
    ensures Search(g, root, cur, segs, caps) ==
            if Hidden(g, node) then Missing
            else Hit(node, caps + CapturesOf(g, cur, segs, steps),
                     steps != [] && |steps| == |segs| && steps[|steps| - 1] == Down)
    decreases |steps|
  {
    if steps != [] {
      var d := g[cur];
      var next := if steps[0] == Down then d.resources[segs[0]] else cur;
      var more := if steps[0] == Down then caps else caps + [Named(d.name, segs[0])];
      if |segs| > 1 {
        WalkFinds(g, root, next, segs[1..], more, steps[1..], node);
        assert more + CapturesOf(g, next, segs[1..], steps[1..]) == caps + CapturesOf(g, cur, segs, steps);
      } else {
        assert segs[1..] == [];
        assert CapturesOf(g, next, segs[1..], steps[1..]) == [];
      }
    }
  }

  /** Soundness: whatever is found without a wildcard, a walk leads there. */
  lemma {:induction false} HitHasWalk(g: Graph, root: Node, cur: Node, segs: seq<string>, caps: seq<Capture>)
    returns (steps: seq<Step>)
    requires Forest(g) && cur in g && Search(g, root, cur, segs, caps).Hit?
    ensures Walks(g, root, cur, segs, steps, Search(g, root, cur, segs, caps).node)
    decreases |segs|
  {
    steps := [];
    if segs != [] && g[cur].routeType != RecursiveEndPoint {
      var d := g[cur];
      var rest := [];
      if segs[0] in d.resources {
        if |segs| > 1 || d.routeType == Group {
          rest := HitHasWalk(g, root, d.resources[segs[0]], segs[1..], caps);
        }
        steps := [Down] + rest;
      } else {
        if |segs| > 1 {
          rest := HitHasWalk(g, root, cur, segs[1..], caps + [Named(d.name, segs[0])]);
        }
        steps := [Capture] + rest;
      }
      assert steps[1..] == rest;
    }
  }

  /** On one trie the two routers find the same nodes, but for hidden groups and wildcards. */
  lemma AgreesWithDefault(g: Graph, root: Node, segs: seq<string>)
    requires Forest(g) && root in g && segs != []
    ensures var d, s := Route(g, root, root, segs, map[]), Search(g, root, root, segs, []);
            && (s.Hit? <==> d.Found? && d.node in g && !Hidden(g, d.node))
            && (s.Hit? ==> s.node == d.node && s.isLast == d.isLast)
            && (s.Wild? ==> d == NotFound)
  {
    var d, s := Route(g, root, root, segs, map[]), Search(g, root, root, segs, []);
    if d.Found? {
      var steps := RouteHasWalk(g, root, root, segs, map[]);
      WalkFinds(g, root, root, segs, [], steps, d.node);
      RouteFollowsWalk(g, root, root, segs, map[], steps, d.node);
    }
    if s.Hit? {
      var steps := HitHasWalk(g, root, root, segs, []);
      RouteFollowsWalk(g, root, root, segs, map[], steps, s.node);
      assert d.Found?;
    }
  }

  // ------------------------------------------------- wildcards

  /** The first k segments walk to the group x, which knows no child for the next one. */
  ghost predicate StuckAt(g: Graph, root: Node, cur: Node, segs: seq<string>, k: nat, steps: seq<Step>, x: Node)
    requires Forest(g) && cur in g
  {
    && k < |segs| && Walks(g, root, cur, segs[..k], steps, x)
    && x in g && g[x].routeType == Group && segs[k] !in g[x].resources && "*" in g[x].resources
  }

  /** Soundness: a wildcard is found only by a walk that got stuck at its group, and it
      captures every segment from there on. */
  lemma {:induction false} WildIsStuck(g: Graph, root: Node, cur: Node, segs: seq<string>, caps: seq<Capture>)
    returns (k: nat, steps: seq<Step>, x: Node)
    requires Forest(g) && cur in g && Search(g, root, cur, segs, caps).Wild?
    ensures StuckAt(g, root, cur, segs, k, steps, x)
    ensures Search(g, root, cur, segs, caps).node == g[x].resources["*"]
    decreases |segs|
  {
    var d := g[cur];
    if segs[0] in d.resources {
      k, steps, x := WildIsStuck(g, root, d.resources[segs[0]], segs[1..], caps);
      steps := [Down] + steps;
      k := k + 1;
      assert segs[..k][1..] == segs[1..][..k - 1];
    } else if d.routeType == Group {
      k, steps, x := 0, [], cur;
    } else {
      k, steps, x := WildIsStuck(g, root, cur, segs[1..], caps + [Named(d.name, segs[0])]);
      assert k > 0;
      steps := [Capture] + steps;
      k := k + 1;
      assert segs[..k][1..] == segs[1..][..k - 1];
    }
  }

  /** A walk that begins with its only capture ends where it began. */
  lemma CaptureStays(g: Graph, root: Node, cur: Node, segs: seq<string>, steps: seq<Step>, x: Node)
    requires Forest(g) && cur in g && Walks(g, root, cur, segs, steps, x)
    requires steps != [] && steps[0] == Capture && x in g && g[x].routeType == Group
    ensures |segs| > 1
  {
  }

  /** Completeness: where the walk gets stuck at a group with a wildcard, it is found. */
  lemma {:induction false} StuckIsWild(g: Graph, root: Node, cur: Node, segs: seq<string>, caps: seq<Capture>,
                                       k: nat, steps: seq<Step>, x: Node)
    requires Forest(g) && cur in g && StuckAt(g, root, cur, segs, k, steps, x)
    ensures Search(g, root, cur, segs, caps) ==
            Wild(g[x].resources["*"], caps + CapturesOf(g, cur, segs[..k], steps) + [Verbatim("*", Join(segs[k..]))])
    decreases |steps|
  {
    if steps == [] {
      assert k == 0 && segs[..k] == [] && segs[k..] == segs;
      assert caps + CapturesOf(g, cur, [], steps) == caps;
    } else {
      var d := g[cur];
      assert segs[..k][1..] == segs[1..][..k - 1] && segs[1..][k - 1..] == segs[k..];
      if steps[0] == Down {
        StuckIsWild(g, root, d.resources[segs[0]], segs[1..], caps, k - 1, steps[1..], x);
      } else {
        var more := caps + [Named(d.name, segs[0])];
        CaptureStays(g, root, cur, segs[..k], steps, x);
        StuckIsWild(g, root, cur, segs[1..], more, k - 1, steps[1..], x);
        assert more + CapturesOf(g, cur, segs[1..][..k - 1], steps[1..]) == caps + CapturesOf(g, cur, segs[..k], steps);
      }
    }
  }

  /** Wildcard capture loses nothing: the segments consumed before it and the captured value,
      joined by a slash, are the path but for slashes at its ends.  Without the segments captured on the way, the
      consumed ones are the names from below the root down to the wildcard's parent. */
  lemma WildcardLosesNothing(g: Graph, root: Node, path: string)
      returns (k: nat, steps: seq<Step>, x: Node, chain: seq<Node>, a: string, b: string)
    requires Forest(g) && root in g && Search(g, root, root, Split(Trim(path)), []).Wild?
    ensures var segs, o := Split(Trim(path)), Search(g, root, root, Split(Trim(path)), []);
            && StuckAt(g, root, root, segs, k, steps, x) && o.node == g[x].resources["*"]
            && o.captures != [] && o.captures[|o.captures| - 1].Verbatim? && o.captures[|o.captures| - 1].name == "*"
            && (var value := o.captures[|o.captures| - 1].value;
                path == a + (if k == 0 then value else Join(segs[..k]) + "/" + value) + b)
    ensures OnlySlashes(a) && OnlySlashes(b)
    ensures |steps| == k <= |Split(Trim(path))|
    ensures var kept := Kept(Split(Trim(path))[..k], steps);
            && |chain| == |kept| + 1 && chain[0] == root && chain[|chain| - 1] == x
            && (forall n :: n in chain ==> n in g)
            && forall i :: 0 < i < |chain| ==> g[chain[i]].parent == chain[i - 1] && g[chain[i]].name == kept[i - 1]
  {
    var segs := Split(Trim(path));
    k, steps, x := WildIsStuck(g, root, root, segs, []);
    StuckIsWild(g, root, root, segs, [], k, steps, x);
    a, b := SegmentsGiveBack(path);
    if k > 0 {
      JoinConcat(segs[..k], segs[k..]);
      assert segs[..k] + segs[k..] == segs;
    } else {
      assert segs[0..] == segs;
    }
    WalkFits(g, root, root, segs[..k], steps, x);
    chain := KeptAreTheNames(g, root, root, segs[..k], steps, x);
  }

  // ------------------------------------------------- wrapping

  /** Following Parent from w visits exactly the nodes of chain, wrapped or not. */
  ghost predicate Over(w: Ref, chain: seq<Node>)
    reads chain
    decreases |chain|
  {
    if chain == [] then w == Nil
    else w != Nil && w.node == chain[0] && Over(ParentOf(w), chain[1..])
  }

  lemma {:induction false} RawOver(chain: seq<Node>)
    requires ParentChain(chain)
    ensures Over(Raw(chain[0]), chain)
    decreases |chain|
  {
    if |chain| > 1 {
      assert chain[0].parent == chain[1];
      ChainAbove(chain);
      RawOver(chain[1..]);
    }
  }

  /** Wrapping preserves the node: whatever is picked at each level, the wrapped chain is as
      long as the raw one, and its k-th ancestor wraps the k-th node, so it has that node's
      handler, type, resources and aggregated acceptances. */
  lemma {:induction false} WrappingPreserves(chain: seq<Node>, picks: seq<Pick>)
    requires ParentChain(chain) && |picks| == |chain|
    ensures Over(Wrapped(chain, picks), chain)
    decreases |chain|
  {
    if picks[0] == NoMapping || picks[0].mapping.names == map[] {
      RawOver(chain);
    } else if |chain| > 1 {
      assert chain[0].parent == chain[1];
      ChainAbove(chain);
      WrappingPreserves(chain[1..], picks[1..]);
    }
  }

  function Ancestor(w: Ref, chain: seq<Node>, k: nat): (a: Ref)
    requires Over(w, chain) && k < |chain|
    reads chain
    ensures a != Nil && a.node == chain[k]
    decreases k
  {
    if k == 0 then w else Ancestor(ParentOf(w), chain[1..], k - 1)
  }

  /** The names: an ancestor goes by what the mapping picked at its own level says, as long
      as every level up to it picked a mapping that says anything. */
  lemma {:induction false} WrappedNames(chain: seq<Node>, picks: seq<Pick>, k: nat)
    requires ParentChain(chain) && |picks| == |chain| && k < |chain|
    requires forall i :: 0 <= i <= k ==> picks[i].Picked? && picks[i].mapping.names != map[]
    ensures Over(Wrapped(chain, picks), chain)
    ensures NameOf(Ancestor(Wrapped(chain, picks), chain, k)) == ShownName(picks[k], chain[k].name)
    decreases k
  {
    WrappingPreserves(chain, picks);
    if k > 0 {
      assert chain[0].parent == chain[1];
      ChainAbove(chain);
      WrappedNames(chain[1..], picks[1..], k - 1);
    }
  }

  /** A colon and a name, or a name in braces. */
  ghost predicate Holds(part: string) {
    exists name: string :: part == ":" + name || part == "{" + name + "}"
  }

  /** What matches, spelt out: a pattern made of these parts matches a path that is no shorter and
      repeats every part but the placeholders. */
  lemma MatchesLiterally(slashes: string, pattern: seq<string>, parts: seq<string>)
    requires OnlySlashes(slashes) && |pattern| > 0 && (forall p :: p in pattern ==> '/' !in p)
    requires Join(pattern) != "" && Join(pattern)[0] != '/'
    ensures Matches(slashes + Join(pattern), parts) <==>
            |pattern| <= |parts| && forall i :: 0 <= i < |pattern| ==> parts[i] == pattern[i] || Holds(pattern[i])
  {
    TrimsLeft(slashes, Join(pattern));
    SplitJoin(pattern);
    if |pattern| <= |parts| { RepeatsIff(pattern, parts); }
  }

  lemma RepeatsIff(pattern: seq<string>, parts: seq<string>)
    requires |pattern| <= |parts|
    ensures (forall i :: 0 <= i < |pattern| ==> IsParamPlaceholder(pattern[i]) || parts[i] == pattern[i]) <==>
            (forall i :: 0 <= i < |pattern| ==> parts[i] == pattern[i] || Holds(pattern[i]))
  {
    forall i | 0 <= i < |pattern| ensures IsParamPlaceholder(pattern[i]) <==> Holds(pattern[i]) {
      HoldsIff(pattern[i]);
    }
  }

  lemma HoldsIff(part: string)
    ensures IsParamPlaceholder(part) <==> Holds(part)
  {
    Placeholders(part, "");
  }

  /** Where nothing matches the path, nothing is wrapped. */
  lemma UnmatchedIsRaw(mappings: map<string, Mapping>, parts: seq<string>, chain: seq<Node>, picks: seq<Pick>)
    requires chain != [] && |picks| == |chain|
    requires forall e :: e in mappings ==> !Matches(e, parts)
    requires forall p :: p in picks ==> MayPick(mappings, parts, p)
    ensures Wrapped(chain, picks) == Raw(chain[0])
  {
    assert picks[0] in picks;
  }

  /** A node is only wrapped where the mapping picked has a name for it, or for a node above it. */
  lemma {:induction false} RawUnlessNamed(chain: seq<Node>, picks: seq<Pick>)
    requires chain != [] && |picks| == |chain|
    requires forall k :: 0 <= k < |chain| && picks[k].Picked? ==> chain[k].name !in picks[k].mapping.names
    ensures Wrapped(chain, picks) == Raw(chain[0])
    decreases |chain|
  {
    if |chain| > 1 { RawUnlessNamed(chain[1..], picks[1..]); }
  }

  /** A wrapped node answers for the node inside. */
  method WrappedAcceptances(w: Ref, ghost chain: seq<Node>) returns (r: seq<nat>)
    requires ParentChain(chain) && Over(w, chain)
    ensures r == Aggregate(chain) == Inherited(w, chain)
  {
    r := w.node.AggregatedAcceptances(chain);
    InheritedIsAggregate(w, chain);
  }

  /** The acceptances collected along Parent from a wrapped node. */
  ghost function Inherited(w: Ref, chain: seq<Node>): seq<nat>
    requires Over(w, chain)
    reads chain
    decreases |chain|
  {
    if chain == [] then [] else Inherited(ParentOf(w), chain[1..]) + w.node.acceptances
  }

  lemma {:induction false} InheritedIsAggregate(w: Ref, chain: seq<Node>)
    requires Over(w, chain)
    ensures Inherited(w, chain) == Aggregate(chain)
    decreases |chain|
  {
    if chain != [] { InheritedIsAggregate(ParentOf(w), chain[1..]); }
  }

  // ------------------------------------------------- parameters

  /** No capture between i and n has the key of the i-th. */
  predicate Unshadowed(caps: seq<Capture>, picks: seq<Pick>, i: nat, n: nat)
    requires i < n <= |caps| == |picks|
  {
    n == i + 1 || (KeyFor(caps[n - 1], picks[n - 1]) != KeyFor(caps[i], picks[i]) && Unshadowed(caps, picks, i, n - 1))
  }

  lemma FiledStep(caps: seq<Capture>, picks: seq<Pick>, n: nat)
    requires 0 < n <= |caps| == |picks|
    ensures Filed(caps[..n], picks[..n]) ==
            Filed(caps[..n - 1], picks[..n - 1])[KeyFor(caps[n - 1], picks[n - 1]) := caps[n - 1].value]
  {
    assert caps[..n][..n - 1] == caps[..n - 1] && picks[..n][..n - 1] == picks[..n - 1];
  }

  lemma {:induction false} FiledUpTo(caps: seq<Capture>, picks: seq<Pick>, i: nat, n: nat)
    requires i < n <= |caps| == |picks| && Unshadowed(caps, picks, i, n)
    ensures var key, filed := KeyFor(caps[i], picks[i]), Filed(caps[..n], picks[..n]);
            key in filed && filed[key] == caps[i].value
    decreases n
  {
    FiledStep(caps, picks, n);
    if i < n - 1 { FiledUpTo(caps, picks, i, n - 1); }
  }

  /** A captured value is found under its key unless a later capture has the same key. */
  lemma FiledIsFound(caps: seq<Capture>, picks: seq<Pick>, i: nat)
    requires |picks| == |caps| && i < |caps|
    requires forall j :: i < j < |caps| ==> KeyFor(caps[j], picks[j]) != KeyFor(caps[i], picks[i])
    ensures KeyFor(caps[i], picks[i]) in Filed(caps, picks) &&
            Filed(caps, picks)[KeyFor(caps[i], picks[i])] == caps[i].value
  {
    KeysAreUnshadowed(caps, picks, i, |caps|);
    FiledUpTo(caps, picks, i, |caps|);
    assert caps[..|caps|] == caps && picks[..|caps|] == picks;
  }

  lemma {:induction false} KeysAreUnshadowed(caps: seq<Capture>, picks: seq<Pick>, i: nat, n: nat)
    requires i < n <= |caps| == |picks|
    requires forall j :: i < j < n ==> KeyFor(caps[j], picks[j]) != KeyFor(caps[i], picks[i])
    ensures Unshadowed(caps, picks, i, n)
    decreases n
  {
    if n > i + 1 { KeysAreUnshadowed(caps, picks, i, n - 1); }
  }

  /** The keys, spelt out: a value caught by a wildcard is found under "*", a captured one under the
      name of its node between "[gone-http]" and "_id", or, if the mapping picked has a parameter
      name for that node, under that name after "[gone-http]p:" if it was written in braces, and
      after "[gone-http]" if not. */
  lemma FiledLiterally(caps: seq<Capture>, picks: seq<Pick>, i: nat)
    requires |picks| == |caps| && i < |caps|
    requires forall j :: i < j < |caps| ==> KeyFor(caps[j], picks[j]) != KeyFor(caps[i], picks[i])
    ensures var name, pick, filed := caps[i].name, picks[i], Filed(caps, picks);
            var key := if caps[i].Verbatim? then name
                       else if pick == NoMapping || name !in pick.mapping.names then "[gone-http]" + name + "_id"
                       else if name in pick.mapping.prefixed then "[gone-http]p:" + pick.mapping.names[name]
                       else "[gone-http]" + pick.mapping.names[name];
            key in filed && filed[key] == caps[i].value
  {
    FiledIsFound(caps, picks, i);
  }

  /** The name shown, spelt out: the parameter name without "_id" at its end, if the mapping picked
      has one for the node, and the node's own name otherwise. */
  lemma ShownLiterally(chain: seq<Node>, picks: seq<Pick>, k: nat, custom: string, bare: string)
    requires ParentChain(chain) && |picks| == |chain| && k < |chain|
    requires forall i :: 0 <= i <= k ==> picks[i].Picked? && picks[i].mapping.names != map[]
    ensures Over(Wrapped(chain, picks), chain)
    ensures var names, name := picks[k].mapping.names, chain[k].name;
            var shown := NameOf(Ancestor(Wrapped(chain, picks), chain, k));
            && (name !in names ==> shown == name)
            && (name in names && names[name] == bare + "_id" ==> shown == bare)
            && (name in names && names[name] == custom && (|custom| < 3 || custom[|custom| - 3..] != "_id") ==>
                  shown == custom)
  {
    WrappedNames(chain, picks, k);
    assert (bare + "_id")[..|bare + "_id"| - 3] == bare && (bare + "_id")[|bare + "_id"| - 3..] == "_id";
  }

  /** The acceptances of the upper part of a chain come first, and each node adds its own. */
  lemma {:induction false} AggregateInOrder(a: seq<Node>, b: seq<Node>)
    ensures Aggregate(a + b) == Aggregate(b) + Aggregate(a)
    ensures |a| == 1 ==> Aggregate(a) == a[0].acceptances
  {
    if a == [] {
      assert a + b == b && Aggregate(b) + [] == Aggregate(b);
    } else {
      assert (a + b)[1..] == a[1..] + b;
      AggregateInOrder(a[1..], b);
      assert Aggregate(b) + Aggregate(a[1..]) + a[0].acceptances ==
             Aggregate(b) + (Aggregate(a[1..]) + a[0].acceptances);
    }
  }
}
