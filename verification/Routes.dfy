/** The routing trie of DefaultRoute: nodes that point to their children by name and to
    their parent, built up in place, and the loop that walks a request path down. */
module Routes {
  import opened Paths

  datatype RouteType = EndPoint | Group | RecursiveEndPoint | RootEndPoint

  class Node {
    const name: string
    var handler: nat
    var acceptances: seq<nat>
    var parent: Node?
    var resources: map<string, Node>
    var routeType: RouteType

    constructor (name: string, handler: nat, acceptances: seq<nat>, routeType: RouteType)
      ensures this.name == name && this.handler == handler && this.acceptances == acceptances
      ensures parent == null && resources == map[] && this.routeType == routeType
    {
      this.name, this.handler, this.acceptances := name, handler, acceptances;
      parent, resources, this.routeType := null, map[], routeType;
    }

    /** Adding an end point, a group, or (recursive) a recursive point below this node.
        A missing point and a name that is taken are refused. */
    method Add(point: Node?, recursive: bool, ghost all: set<Node>) returns (ok: bool)
      requires this in all && point != this && (point != null ==> point in all)
      modifies this, point
      ensures ok <==> point != null && point.name !in old(resources)
      ensures View(all) == if ok then Attached(old(View(all)), this, point, recursive) else old(View(all))
      ensures ok ==> resources == old(resources)[point.name := point] && point.parent == this
      ensures ok ==> point.routeType == if recursive then RecursiveEndPoint else old(point.routeType)
    {
      if point == null || point.name in resources {
        return false;
      }
      point.parent := this;
      if recursive { point.routeType := RecursiveEndPoint; }
      resources := resources[point.name := point];
      ok := true;
    }

    /** The acceptances of all ancestors, outermost first, and then the node's own. */
    method AggregatedAcceptances(ghost chain: seq<Node>) returns (r: seq<nat>)
      requires ParentChain(chain) && chain[0] == this
      ensures r == Aggregate(chain)
    {
      r := [];
      var node: Node? := this;
      ghost var i := 0;
      while node != null
        invariant i <= |chain| && node == (if i < |chain| then chain[i] else null)
        invariant Aggregate(chain) == (if i < |chain| then Aggregate(chain[i..]) else []) + r
        decreases |chain| - i
      {
        assert chain[i..][1..] == chain[i + 1..];
        assert Aggregate(chain[i + 1..]) + (node.acceptances + r) == Aggregate(chain[i + 1..]) + node.acceptances + r;
        r := node.acceptances + r;
        node, i := node.parent, i + 1;
      }
    }
  }

  /** chain leads from its first node up to a node without a parent. */
  ghost predicate ParentChain(chain: seq<Node>)
    reads chain
  {
    chain != [] && chain[|chain| - 1].parent == null &&
    forall i {:trigger chain[i].parent} :: 0 <= i < |chain| - 1 ==> chain[i].parent == chain[i + 1]
  }

  function Aggregate(chain: seq<Node>): seq<nat>
    reads chain
  {
    if chain == [] then [] else Aggregate(chain[1..]) + chain[0].acceptances
  }

  // ------------------------------------------------- the trie as a value

  datatype Data = Data(name: string, routeType: RouteType, resources: map<string, Node>, parent: Node?,
                       handler: nat, acceptances: seq<nat>)

  type Graph = map<Node, Data>

  ghost function View(all: set<Node>): Graph
    reads all
  {
    map n | n in all :: Data(n.name, n.routeType, n.resources, n.parent, n.handler, n.acceptances)
  }

  /** Children are filed under their names, and know their one parent. */
  ghost predicate Forest(g: Graph) {
    forall n, k :: n in g && k in g[n].resources ==>
      var c := g[n].resources[k]; c in g && g[c].name == k && g[c].parent == n
  }

  ghost function Attached(g: Graph, at: Node, point: Node, recursive: bool): Graph
    requires at in g && point in g
  {
    g[at := g[at].(resources := g[at].resources[g[point].name := point])]
     [point := g[point].(parent := at, routeType := if recursive then RecursiveEndPoint else g[point].routeType)]
  }

  datatype Result = NotFound | Found(node: Node, params: map<string, string>, isLast: bool)

  function ParamKey(name: string): string { "[gone-http]" + name + "_id" }

  /** Routing from node cur on: a static child first, else a capture with one segment of
      lookahead; a recursive point takes everything; a group takes only static children. */
  ghost function Route(g: Graph, root: Node, cur: Node, segs: seq<string>, params: map<string, string>): Result
    requires Forest(g) && cur in g
    decreases |segs|
  {
    if segs == [] then Found(cur, params, true)
    else
      var d := g[cur];
      var captured := params[ParamKey(d.name) := segs[0]];
      match d.routeType
      case RecursiveEndPoint =>
        Found(cur, if segs[0] in d.resources then params else captured, false)
      case Group =>
        if segs[0] in d.resources then Route(g, root, d.resources[segs[0]], segs[1..], params) else NotFound
      case _ =>
        if segs[0] in d.resources then Route(g, root, d.resources[segs[0]], segs[1..], params)
        else if |segs| == 1 then (if cur == root then NotFound else Found(cur, captured, false))
        else if segs[1] in d.resources then Route(g, root, cur, segs[1..], captured)
        else NotFound
  }

  class DefaultRoute {
    var root: Node
    ghost var all: set<Node>

    ghost predicate Valid()
      reads this, all
    {
      root in all && root.parent == null && Forest(View(all))
    }

    constructor ()
      ensures Valid() && fresh(all) && all == {root} && root.resources == map[] && root.routeType == RootEndPoint
    {
      var n := new Node("", 0, [], EndPoint);
      n.routeType := RootEndPoint;
      root, all := n, {n};
    }

    method RouteNode(path: string) returns (node: Node?, params: map<string, string>, isLast: bool)
      requires Valid()
      ensures var r := if Trim(path) == [] then Found(root, map[], true)
                       else Route(View(all), root, root, Split(Trim(path)), map[]);
              if node == null then r == NotFound else r == Found(node, params, isLast)
    {
      var trimmed := Trim(path);
      params := map[];
      if trimmed == [] {
        return root, map[], true;
      }
      var segs := Split(trimmed);
      LastSegment(trimmed);
      ghost var g := View(all);
      ghost var goal := Route(g, root, root, segs, map[]);
      var current, next: Node? := root, root;
      var idx := 0;
      while idx < |segs|
        invariant idx <= |segs| && current in all
        invariant goal == Route(g, root, current, segs[idx..], params)
        invariant idx == |segs| ==> current == next
      {
        var seg := segs[idx];
        next := if seg in current.resources then current.resources[seg] else null;
        assert segs[idx..][1..] == segs[idx + 1..];
        match current.routeType {
          case RecursiveEndPoint =>
            if next == null { params := params[ParamKey(current.name) := seg]; }
            return current, params, false;
          case Group =>
            if next == null { return null, map[], false; }
            current := next;
          case _ =>
            if idx + 1 == |segs| {
              if next == null {
                if current == root && seg != "" { return null, map[], false; }
                params := params[ParamKey(current.name) := seg];
                return current, params, false;
              }
              return next, params, true;
            } else if next == null {
              if segs[idx + 1] in current.resources {
                params := params[ParamKey(current.name) := seg];
              } else {
                return null, map[], false;
              }
            } else {
              current := next;
            }
        }
        idx := idx + 1;
      }
      node, isLast := current, current == next;
    }
  }
}
