/** What routing means, said without the loop, and what adding a node leaves alone. */
module RouteTheorems {
  import opened Routes

  /** What becomes of one path segment: it names a child, or it is captured. */
  datatype Step = Down | Capture

  /** These steps lead from cur to node: a segment that names a child goes down to it, any
      other is captured by an end point, which needs one segment of lookahead or, anywhere
      but at the root, the end of the path.  Only a recursive point may leave segments over. */
  ghost predicate Walks(g: Graph, root: Node, cur: Node, segs: seq<string>, steps: seq<Step>, node: Node)
    requires Forest(g) && cur in g
    decreases |steps|
  {
    var d := g[cur];
    if steps == [] then cur == node && (segs == [] || d.routeType == RecursiveEndPoint)
    else
      && segs != [] && d.routeType != RecursiveEndPoint
      && match steps[0]
         case Down =>
           segs[0] in d.resources && Walks(g, root, d.resources[segs[0]], segs[1..], steps[1..], node)
         case Capture =>
           && segs[0] !in d.resources && d.routeType != Group
           && (if |segs| == 1 then cur != root else segs[1] in d.resources)
           && Walks(g, root, cur, segs[1..], steps[1..], node)
  }

  /** Later captures overwrite earlier ones of the same name. */
  ghost function ParamsOf(g: Graph, cur: Node, segs: seq<string>, steps: seq<Step>,
                          params: map<string, string>): map<string, string>
    requires Forest(g) && cur in g
    decreases |steps|
  {
    if steps == [] || segs == [] then
      if segs != [] && segs[0] !in g[cur].resources then params[ParamKey(g[cur].name) := segs[0]] else params
    else if steps[0] == Down && segs[0] in g[cur].resources then
      ParamsOf(g, g[cur].resources[segs[0]], segs[1..], steps[1..], params)
    else ParamsOf(g, cur, segs[1..], steps[1..], params[ParamKey(g[cur].name) := segs[0]])
  }

  /** Completeness: where a walk exists, routing finds its end and its captures. */
  lemma {:induction false} RouteFollowsWalk(g: Graph, root: Node, cur: Node, segs: seq<string>,
                                            params: map<string, string>, steps: seq<Step>, node: Node)
    requires Forest(g) && cur in g && Walks(g, root, cur, segs, steps, node)
    ensures Route(g, root, cur, segs, params) ==
            Found(node, ParamsOf(g, cur, segs, steps, params),
                  |steps| == |segs| && (steps == [] || steps[|steps| - 1] == Down))
    decreases |steps|
  {
    if steps != [] {
      var d := g[cur];
      if steps[0] == Down {
        RouteFollowsWalk(g, root, d.resources[segs[0]], segs[1..], params, steps[1..], node);
      } else {
        var captured := params[ParamKey(d.name) := segs[0]];
        if |segs| > 1 {
          RouteFollowsWalk(g, root, cur, segs[1..], captured, steps[1..], node);
          assert steps[1..] != [];
        } else {
          assert steps[1..] == [];
        }
      }
    }
  }

  /** Where a walk has come to after i steps. */
  ghost function At(g: Graph, cur: Node, segs: seq<string>, steps: seq<Step>, i: nat): (at: Node)
    requires Forest(g) && cur in g && i <= |steps| <= |segs|
    ensures at in g
    decreases |steps|
  {
    if i == 0 then cur
    else if steps[0] == Down && segs[0] in g[cur].resources then
      At(g, g[cur].resources[segs[0]], segs[1..], steps[1..], i - 1)
    else At(g, cur, segs[1..], steps[1..], i - 1)
  }

  /** No more segment is captured at a node of this name. */
  ghost predicate NoMoreAt(g: Graph, cur: Node, segs: seq<string>, steps: seq<Step>, name: string)
    requires Forest(g) && cur in g
    decreases |steps|
  {
    if steps == [] || segs == [] then segs == [] || segs[0] in g[cur].resources || g[cur].name != name
    else if steps[0] == Down && segs[0] in g[cur].resources then
      NoMoreAt(g, g[cur].resources[segs[0]], segs[1..], steps[1..], name)
    else g[cur].name != name && NoMoreAt(g, cur, segs[1..], steps[1..], name)
  }

  lemma KeysDiffer(a: string, b: string)
    requires a != b
    ensures ParamKey(a) != ParamKey(b)
  {
    assert ParamKey(a)[11..|ParamKey(a)| - 3] == a && ParamKey(b)[11..|ParamKey(b)| - 3] == b;
  }

  lemma {:induction false} ParamStays(g: Graph, cur: Node, segs: seq<string>, steps: seq<Step>,
                                      params: map<string, string>, name: string)
    requires Forest(g) && cur in g && NoMoreAt(g, cur, segs, steps, name) && ParamKey(name) in params
    ensures var r := ParamsOf(g, cur, segs, steps, params);
            ParamKey(name) in r && r[ParamKey(name)] == params[ParamKey(name)]
    decreases |steps|
  {
    if g[cur].name != name { KeysDiffer(g[cur].name, name); }
    if steps != [] && segs != [] {
      if steps[0] == Down && segs[0] in g[cur].resources {
        ParamStays(g, g[cur].resources[segs[0]], segs[1..], steps[1..], params, name);
      } else {
        ParamStays(g, cur, segs[1..], steps[1..], params[ParamKey(g[cur].name) := segs[0]], name);
      }
    }
  }

  /** A captured segment is found under its node's name between "[gone-http]" and "_id", unless
      another is captured later at a node of this name. */
  lemma CaptureIsFound(g: Graph, root: Node, cur: Node, segs: seq<string>, steps: seq<Step>,
                       node: Node, params: map<string, string>, i: nat)
    requires Forest(g) && cur in g && Walks(g, root, cur, segs, steps, node) && i < |steps| <= |segs|
    requires steps[i] == Capture
    requires var at := At(g, cur, segs, steps, i); NoMoreAt(g, at, segs[i + 1..], steps[i + 1..], g[at].name)
    ensures var r := Route(g, root, cur, segs, params);
            var key := "[gone-http]" + g[At(g, cur, segs, steps, i)].name + "_id";
            r.Found? && key in r.params && r.params[key] == segs[i]
  {
    RouteFollowsWalk(g, root, cur, segs, params, steps, node);
    CaptureIsFiled(g, root, cur, segs, steps, node, params, i);
  }

  lemma {:induction false} CaptureIsFiled(g: Graph, root: Node, cur: Node, segs: seq<string>, steps: seq<Step>,
                                          node: Node, params: map<string, string>, i: nat)
    requires Forest(g) && cur in g && Walks(g, root, cur, segs, steps, node) && i < |steps| <= |segs|
    requires steps[i] == Capture
    requires var at := At(g, cur, segs, steps, i); NoMoreAt(g, at, segs[i + 1..], steps[i + 1..], g[at].name)
    ensures var r := ParamsOf(g, cur, segs, steps, params);
            var key := "[gone-http]" + g[At(g, cur, segs, steps, i)].name + "_id";
            key in r && r[key] == segs[i]
    decreases |steps|
  {
    if i == 0 {
      ParamStays(g, cur, segs[1..], steps[1..], params[ParamKey(g[cur].name) := segs[0]], g[cur].name);
    } else {
      assert segs[1..][i..] == segs[i + 1..] && steps[1..][i..] == steps[i + 1..];
      if steps[0] == Down {
        CaptureIsFiled(g, root, g[cur].resources[segs[0]], segs[1..], steps[1..], node, params, i - 1);
      } else {
        CaptureIsFiled(g, root, cur, segs[1..], steps[1..], node, params[ParamKey(g[cur].name) := segs[0]], i - 1);
      }
    }
  }

  /** And the first segment that a recursive point has left is found under its name, unless it is
      the name of a child. */
  lemma {:induction false} RestIsFiled(g: Graph, root: Node, cur: Node, segs: seq<string>, steps: seq<Step>,
                                       node: Node, params: map<string, string>)
    requires Forest(g) && cur in g && Walks(g, root, cur, segs, steps, node) && |steps| < |segs|
    ensures node in g
    ensures var r, key := Route(g, root, cur, segs, params), "[gone-http]" + g[node].name + "_id";
            segs[|steps|] !in g[node].resources ==> r.Found? && key in r.params && r.params[key] == segs[|steps|]
    decreases |steps|
  {
    if steps != [] {
      var next := if steps[0] == Down then g[cur].resources[segs[0]] else cur;
      var more := if steps[0] == Down then params else params[ParamKey(g[cur].name) := segs[0]];
      RestIsFiled(g, root, next, segs[1..], steps[1..], node, more);
      RouteFollowsWalk(g, root, cur, segs, params, steps, node);
      RouteFollowsWalk(g, root, next, segs[1..], more, steps[1..], node);
    }
  }

  /** Soundness: whatever routing finds, a walk leads there. */
  lemma {:induction false} RouteHasWalk(g: Graph, root: Node, cur: Node, segs: seq<string>, params: map<string, string>)
    returns (steps: seq<Step>)
    requires Forest(g) && cur in g && Route(g, root, cur, segs, params).Found?
    ensures Walks(g, root, cur, segs, steps, Route(g, root, cur, segs, params).node)
    decreases |segs|
  {
    steps := [];
    if segs != [] && g[cur].routeType != RecursiveEndPoint {
      var d := g[cur];
      var rest;
      if segs[0] in d.resources {
        rest := RouteHasWalk(g, root, d.resources[segs[0]], segs[1..], params);
        steps := [Down] + rest;
      } else if |segs| > 1 {
        rest := RouteHasWalk(g, root, cur, segs[1..], params[ParamKey(d.name) := segs[0]]);
        steps := [Capture] + rest;
      } else {
        rest := [];
        steps := [Capture];
      }
      assert steps[1..] == rest;
    }
  }

  ghost predicate Leads(g: Graph, root: Node, segs: seq<string>, node: Node)
    requires Forest(g) && root in g
  {
    exists steps :: Walks(g, root, root, segs, steps, node)
  }

  /** Both together: routing a path reaches a node if and only if some walk does, so it finds
      nothing exactly when there is no walk, and the walk decides everything it returns. */
  lemma RouteIffWalk(g: Graph, root: Node, segs: seq<string>, node: Node)
    requires Forest(g) && root in g
    ensures Leads(g, root, segs, node) <==>
            (Route(g, root, root, segs, map[]).Found? && Route(g, root, root, segs, map[]).node == node)
  {
    var r := Route(g, root, root, segs, map[]);
    if Leads(g, root, segs, node) {
      var steps :| Walks(g, root, root, segs, steps, node);
      RouteFollowsWalk(g, root, root, segs, map[], steps, node);
    }
    if r.Found? && r.node == node {
      var steps := RouteHasWalk(g, root, root, segs, map[]);
    }
  }

  /** The path without the captured segments. */
  function Kept(segs: seq<string>, steps: seq<Step>): seq<string>
    requires |steps| <= |segs|
  {
    if steps == [] then []
    else (if steps[0] == Down then [segs[0]] else []) + Kept(segs[1..], steps[1..])
  }

  lemma {:induction false} WalkFits(g: Graph, root: Node, cur: Node, segs: seq<string>, steps: seq<Step>, node: Node)
    requires Forest(g) && cur in g && Walks(g, root, cur, segs, steps, node)
    ensures node in g && |steps| <= |segs|
    ensures g[node].routeType != RecursiveEndPoint ==> |steps| == |segs|
    decreases |steps|
  {
    if steps != [] {
      WalkFits(g, root, if steps[0] == Down then g[cur].resources[segs[0]] else cur, segs[1..], steps[1..], node);
    }
  }

  /** Deleting the captured segments leaves exactly the names from below the start down to
      the node found, each node the parent of the next. */
  lemma {:induction false} KeptAreTheNames(g: Graph, root: Node, cur: Node, segs: seq<string>, steps: seq<Step>,
                                           node: Node)
    returns (chain: seq<Node>)
    requires Forest(g) && cur in g && Walks(g, root, cur, segs, steps, node) && |steps| <= |segs|
    ensures |chain| == |Kept(segs, steps)| + 1 && chain[0] == cur && chain[|chain| - 1] == node
    ensures forall n :: n in chain ==> n in g
    ensures forall i :: 0 < i < |chain| ==>
            g[chain[i]].parent == chain[i - 1] && g[chain[i]].name == Kept(segs, steps)[i - 1]
    decreases |steps|
  {
    if steps == [] {
      chain := [cur];
    } else if steps[0] == Down {
      var rest := KeptAreTheNames(g, root, g[cur].resources[segs[0]], segs[1..], steps[1..], node);
      chain := [cur] + rest;
    } else {
      chain := KeptAreTheNames(g, root, cur, segs[1..], steps[1..], node);
    }
  }

  /** No two captured segments are adjacent. */
  lemma {:induction false} CapturesNotAdjacent(g: Graph, root: Node, cur: Node, segs: seq<string>, steps: seq<Step>,
                                               node: Node)
    requires Forest(g) && cur in g && Walks(g, root, cur, segs, steps, node)
    ensures forall i :: 0 <= i < |steps| - 1 ==> steps[i] == Down || steps[i + 1] == Down
    decreases |steps|
  {
    if steps != [] {
      var rest := steps[1..];
      CapturesNotAdjacent(g, root, if steps[0] == Down then g[cur].resources[segs[0]] else cur, segs[1..], rest, node);
      forall i | 0 <= i < |steps| - 1 ensures steps[i] == Down || steps[i + 1] == Down {
        if i > 0 { assert rest[i - 1] == Down || rest[i] == Down; }
      }
    }
  }

  // ---------------------------------------------------------------- the frame

  /** An unattached point can be added below any node of the forest. */
  lemma AttachedForest(g: Graph, at: Node, point: Node, recursive: bool)
    requires Forest(g) && at in g && point in g && at != point
    requires g[point].parent == null && g[point].name !in g[at].resources
    ensures Forest(Attached(g, at, point, recursive))
  {
  }

  /** Seen from a node, a segment that is not the name of the point means the same. */
  lemma AttachedHere(g: Graph, h: Graph, at: Node, point: Node, recursive: bool, cur: Node, seg: string)
    requires at in g && point in g && at != point && cur in g && cur != point && h == Attached(g, at, point, recursive)
    requires seg != g[point].name
    ensures cur in h && h[cur].name == g[cur].name && h[cur].routeType == g[cur].routeType
    ensures seg in h[cur].resources <==> seg in g[cur].resources
    ensures seg in g[cur].resources ==> h[cur].resources[seg] == g[cur].resources[seg]
  {
  }

  lemma {:induction false} AttachedRoute(g: Graph, h: Graph, root: Node, cur: Node, at: Node, point: Node,
                                         recursive: bool, segs: seq<string>, params: map<string, string>)
    requires Forest(g) && Forest(h) && cur in g && at in g && point in g && at != point && cur != point
    requires h == Attached(g, at, point, recursive) && g[point].parent == null && g[point].name !in segs
    ensures cur in h && Route(h, root, cur, segs, params) == Route(g, root, cur, segs, params)
    decreases |segs|
  {
    AttachedHere(g, h, at, point, recursive, cur, if segs == [] then g[point].name + "/" else segs[0]);
    if segs != [] {
      var d := g[cur];
      if |segs| > 1 { AttachedHere(g, h, at, point, recursive, cur, segs[1]); }
      if segs[0] in d.resources {
        AttachedRoute(g, h, root, d.resources[segs[0]], at, point, recursive, segs[1..], params);
      } else {
        AttachedRoute(g, h, root, cur, at, point, recursive, segs[1..], params[ParamKey(d.name) := segs[0]]);
      }
    }
  }

  /** Routing frame: adding an end point, a group or a recursive point changes nothing for
      a path that does not mention its name. */
  lemma RouteFrame(g: Graph, root: Node, cur: Node, at: Node, point: Node, recursive: bool,
                   segs: seq<string>, params: map<string, string>)
    requires Forest(g) && cur in g && at in g && point in g && at != point && cur != point
    requires g[point].parent == null && g[point].name !in g[at].resources
    requires g[point].name !in segs
    ensures Forest(Attached(g, at, point, recursive))
    ensures Route(Attached(g, at, point, recursive), root, cur, segs, params) == Route(g, root, cur, segs, params)
  {
    AttachedForest(g, at, point, recursive);
    AttachedRoute(g, Attached(g, at, point, recursive), root, cur, at, point, recursive, segs, params);
  }

  /** More nodes that are not reachable make no difference. */
  lemma {:induction false} RouteMonotone(g: Graph, more: Graph, root: Node, cur: Node, segs: seq<string>,
                                         params: map<string, string>)
    requires Forest(g) && Forest(more) && cur in g
    requires forall n :: n in g ==> n in more && more[n] == g[n]
    ensures Route(more, root, cur, segs, params) == Route(g, root, cur, segs, params)
    decreases |segs|
  {
    if segs != [] {
      var d := g[cur];
      if segs[0] in d.resources {
        RouteMonotone(g, more, root, d.resources[segs[0]], segs[1..], params);
      } else {
        RouteMonotone(g, more, root, cur, segs[1..], params[ParamKey(d.name) := segs[0]]);
      }
    }
  }

  /** Every path without this name is routed alike. */
  ghost predicate SameRoutes(g: Graph, h: Graph, root: Node, name: string)
    requires Forest(g) && Forest(h) && root in g && root in h
  {
    forall segs :: name !in segs ==> Route(h, root, root, segs, map[]) == Route(g, root, root, segs, map[])
  }

  /** The two together: more nodes, and then one of them attached. */
  lemma ExtendedRoutes(g0: Graph, g: Graph, h: Graph, root: Node, at: Node, point: Node, recursive: bool)
    requires Forest(g0) && Forest(g) && Forest(h) && (forall n :: n in g0 ==> n in g && g[n] == g0[n])
    requires root in g0 && at in g && point in g && at != point && root != point
    requires h == g || (h == Attached(g, at, point, recursive) && g[point].parent == null)
    ensures root in h && SameRoutes(g0, h, root, g[point].name)
  {
    forall segs | g[point].name !in segs
      ensures root in h && Route(h, root, root, segs, map[]) == Route(g0, root, root, segs, map[])
    {
      RouteMonotone(g0, g, root, root, segs, map[]);
      if h != g { AttachedRoute(g, h, root, root, at, point, recursive, segs, map[]); }
    }
  }

  /** Adding a point, perhaps with nodes of its own below it, to a node of the route in
      place: the route stays a forest, and every path without the new name is routed as before. */
  method Extend(route: DefaultRoute, at: Node, point: Node, recursive: bool, ghost more: set<Node>) returns (ok: bool)
    requires route.Valid() && Forest(View(route.all + more))
    requires at in route.all && point in more && point !in route.all && point.parent == null
    modifies route, at, point
    ensures route.Valid() && route.root == old(route.root) && route.root in old(route.all)
    ensures ok <==> point.name !in old(at.resources)
    ensures ok ==> at.resources == old(at.resources)[point.name := point] && point.parent == at
    ensures SameRoutes(old(View(route.all)), View(route.all), route.root, point.name)
  {
    ghost var g0, g := View(route.all), View(route.all + more);
    route.all := route.all + more;
    ok := at.Add(point, recursive, route.all);
    if ok { AttachedForest(g, at, point, recursive); }
    ExtendedRoutes(g0, g, View(route.all), route.root, at, point, recursive);
  }
}
