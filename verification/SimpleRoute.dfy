/** SimpleRoute: the trie of Routes registered by path patterns, with wildcards under
    groups, and with custom parameter names laid over the nodes a request found. */
module SimpleRoutes {
  import opened Paths
  import opened Routes
  import opened Patterns

  // ------------------------------------------------- mappings picked

  datatype Pick = NoMapping | Picked(mapping: Mapping)

  /** The pattern is no longer than the path and agrees with it but for placeholders. */
  ghost predicate Matches(endpoint: string, parts: seq<string>) {
    var pattern := Split(TrimLeft(endpoint));
    |pattern| <= |parts| && forall i :: 0 <= i < |pattern| ==> IsParamPlaceholder(pattern[i]) || parts[i] == pattern[i]
  }

  /** What findBestMatchingMapping may return, whatever the order of the map. */
  ghost predicate MayPick(mappings: map<string, Mapping>, parts: seq<string>, pick: Pick) {
    if pick == NoMapping then forall e :: e in mappings ==> !Matches(e, parts)
    else exists e :: e in mappings && Matches(e, parts) && mappings[e] == pick.mapping
  }

  function KeyOf(pick: Pick, name: string): string {
    if pick.Picked? && name in pick.mapping.names then
      (if name in pick.mapping.prefixed then "[gone-http]p:" else "[gone-http]") + pick.mapping.names[name]
    else ParamKey(name)
  }

  /** The name a node goes by under the mapping picked for it. */
  function ShownName(pick: Pick, name: string): string {
    if pick.Picked? && name in pick.mapping.names then
      var custom := pick.mapping.names[name];
      if EndsInId(custom) then custom[..|custom| - 3] else custom
    else name
  }

  // ------------------------------------------------- wrapped nodes

  /** A node, or a node under another name with another parent. */
  datatype Ref = Nil | Raw(node: Node) | Wrapper(node: Node, customName: string, wrappedParent: Ref)

  function NameOf(w: Ref): string
    requires w != Nil
    reads w.node
  {
    if w.Wrapper? then w.customName else w.node.name
  }

  function RefTo(n: Node?): Ref {
    if n == null then Nil else Raw(n)
  }

  function ParentOf(w: Ref): Ref
    requires w != Nil
    reads w.node
  {
    if w.Wrapper? && w.wrappedParent != Nil then w.wrappedParent else RefTo(w.node.parent)
  }

  /** What wrapNodeChainIfNeeded returns for the first of chain, with picks[k] the mapping
      picked at level k of the recursion. */
  function Wrapped(chain: seq<Node>, picks: seq<Pick>): Ref
    requires |picks| == |chain|
    reads chain
  {
    if chain == [] then Nil
    else if picks[0] == NoMapping || picks[0].mapping.names == map[] then Raw(chain[0])
    else
      var above := Wrapped(chain[1..], picks[1..]);
      var name := chain[0].name;
      if name in picks[0].mapping.names then Wrapper(chain[0], ShownName(picks[0], name), above)
      else if above != (if |chain| == 1 then Nil else Raw(chain[1])) then Wrapper(chain[0], name, above)
      else Raw(chain[0])
  }

  // ------------------------------------------------- what a path finds

  /** A captured value is filed under a key of its node's name, or under a name verbatim. */
  datatype Capture = Named(name: string, value: string) | Verbatim(name: string, value: string)

  datatype Outcome = Missing | Hit(node: Node, captures: seq<Capture>, isLast: bool)
    | Wild(node: Node, captures: seq<Capture>)

  /** As Route, but a group that knows no child takes its wildcard, with all that is left,
      and a path that ends at a group below a group finds nothing. */
  ghost function Search(g: Graph, root: Node, cur: Node, segs: seq<string>, caps: seq<Capture>): Outcome
    requires Forest(g) && cur in g
    decreases |segs|
  {
    if segs == [] then (if g[cur].routeType == Group then Missing else Hit(cur, caps, true))
    else
      var d := g[cur];
      match d.routeType
      case RecursiveEndPoint =>
        Hit(cur, if segs[0] in d.resources then caps else caps + [Verbatim(d.name, segs[0])], false)
      case Group =>
        if segs[0] in d.resources then Search(g, root, d.resources[segs[0]], segs[1..], caps)
        else if "*" in d.resources then Wild(d.resources["*"], caps + [Verbatim("*", Join(segs))])
        else Missing
      case _ =>
        var captured := caps + [Named(d.name, segs[0])];
        if |segs| == 1 then
          (if segs[0] in d.resources then Hit(d.resources[segs[0]], caps, true)
           else if cur == root then Missing else Hit(cur, captured, false))
        else if segs[0] in d.resources then Search(g, root, d.resources[segs[0]], segs[1..], caps)
        else if segs[1] in d.resources then Search(g, root, cur, segs[1..], captured)
        else Missing
  }

  function KeyFor(c: Capture, pick: Pick): string {
    if c.Named? then KeyOf(pick, c.name) else c.name
  }

  /** Each capture filed under its key, in order; later ones overwrite earlier ones. */
  function Filed(caps: seq<Capture>, picks: seq<Pick>): map<string, string>
    requires |picks| == |caps|
  {
    if caps == [] then map[]
    else
      var n := |caps| - 1;
      Filed(caps[..n], picks[..n])[KeyFor(caps[n], picks[n]) := caps[n].value]
  }

  /** A mapping that may be picked for each capture whose key depends on one. */
  ghost predicate Keyed(allowed: iset<Pick>, caps: seq<Capture>, picks: seq<Pick>) {
    |picks| == |caps| && forall i :: 0 <= i < |caps| && caps[i].Named? ==> picks[i] in allowed
  }

  /** A mapping that may be picked at each level of the chain. */
  ghost predicate Layered(allowed: iset<Pick>, chain: seq<Node>, picks: seq<Pick>) {
    |picks| == |chain| && forall p :: p in picks ==> p in allowed
  }

  ghost function Pickable(mappings: map<string, Mapping>, parts: seq<string>): iset<Pick> {
    iset p | MayPick(mappings, parts, p)
  }

  ghost predicate Covers(allowed: iset<Pick>, mappings: map<string, Mapping>, parts: seq<string>) {
    forall p {:trigger MayPick(mappings, parts, p)} :: MayPick(mappings, parts, p) ==> p in allowed
  }

  ghost predicate Answers(o: Outcome, allowed: iset<Pick>, node: Node?, wild: bool, params: map<string, string>,
                          isLast: bool, picks: seq<Pick>)
  {
    match o
    case Missing => node == null && !isLast
    case Wild(n, caps) => node == n && wild && !isLast && Keyed(allowed, caps, picks) && params == Filed(caps, picks)
    case Hit(n, caps, last) =>
      node == n && !wild && isLast == last && Keyed(allowed, caps, picks) && params == Filed(caps, picks)
  }

  class SimpleRoute {
    var root: Node
    var endpointMappings: map<string, Mapping>
    ghost var all: set<Node>

    /** The trie is a forest, and only wildcards are recursive. */
    ghost predicate Valid()
      reads this, all
    {
      && root in all && root.parent == null && root.name == "" && Forest(View(all)) && Stars(View(all))
      && root.routeType in {RootEndPoint, EndPoint}
    }

    constructor ()
      ensures Valid() && fresh(all) && all == {root} && root.resources == map[] && root.routeType == RootEndPoint
      ensures endpointMappings == map[]
    {
      var n := new Node("", 0, [], RootEndPoint);
      root, all, endpointMappings := n, {n}, map[];
    }

    // ----------------------------------------------- registration

    method Mark(at: Node)
      requires at in all
      modifies at`routeType
      ensures View(all) == Marked(old(View(all)), at)
    {
      at.routeType := EndPoint;
    }

    method Equip(at: Node, handler: nat, acceptances: seq<nat>)
      requires at in all
      modifies at`handler, at`acceptances
      ensures View(all) == Equipped(old(View(all)), at, handler, acceptances)
    {
      at.handler, at.acceptances := handler, acceptances;
    }

    method Grow(at: Node, name: string, handler: nat, acceptances: seq<nat>, routeType: RouteType) returns (node: Node)
      requires at in all
      modifies this`all, at`resources
      ensures fresh(node) && all == old(all) + {node}
      ensures View(all) == Grown(old(View(all)), at, node, Data(name, routeType, map[], at, handler, acceptances))
    {
      node := new Node(name, handler, acceptances, routeType);
      node.parent := at;
      at.resources := at.resources[name := node];
      all := all + {node};
      ghost var h := Grown(old(View(all)), at, node, Data(name, routeType, map[], at, handler, acceptances));
      forall n | n in all ensures n in h && View(all)[n] == h[n] {
        if n == at || n == node {} else { assert h[n] == old(View(all))[n]; }
      }
    }

    /** One part that is no wildcard: a parameter, a child that is there, or a new child. */
    method RegisterPart(parts: seq<string>, idx: nat, current: Node, handler: nat, acceptances: seq<nat>)
        returns (next: Node)
      requires idx < |parts| && current in all && Forest(View(all))
      modifies this`all, current
      ensures old(all) <= all && fresh(all - old(all))
      ensures IsNext(old(View(all)), parts[idx], current, next)
      ensures View(all) == WithPart(old(View(all)), parts, idx, current, next, handler, acceptances)
    {
      var part, isLast := parts[idx], idx + 1 == |parts|;
      if ExtractParamName(part) != "" {
        Mark(current);
        if isLast { Equip(current, handler, acceptances); }
        next := current;
      } else if part in current.resources {
        next := current.resources[part];
      } else if isLast {
        next := Grow(current, part, handler, acceptances, EndPoint);
      } else {
        next := Grow(current, part, 0, [], Group);
      }
    }

    method RegisterStep(parts: seq<string>, idx: nat, current: Node, handler: nat, acceptances: seq<nat>,
                        ghost g0: Graph)
      returns (next: Node)
      requires idx < |parts| && parts[idx] != "*" &&
               Registering(g0, View(all), root, parts, idx, current, handler, acceptances)
      modifies this`all, current
      ensures old(all) <= all && forall n :: n in all && n !in old(all) ==> fresh(n)
      ensures Registering(g0, View(all), root, parts, idx + 1, next, handler, acceptances)
    {
      ghost var g := View(all);
      next := RegisterPart(parts, idx, current, handler, acceptances);
      RegisterOne(g0, g, root, parts, idx, current, next, handler, acceptances);
    }

    method GrowWildcard(at: Node, handler: nat, acceptances: seq<nat>) returns (wildcard: Node)
      requires at in all
      modifies this`all, at`resources
      ensures old(all) <= all && forall n :: n in all && n !in old(all) ==> fresh(n)
      ensures wildcard !in old(all) &&
              View(all) == Grown(old(View(all)), at, wildcard, WildcardData(at, handler, acceptances))
    {
      wildcard := Grow(at, "*", handler, acceptances, RecursiveEndPoint);
    }

    /** A wildcard ends the pattern. */
    method RegisterWild(parts: seq<string>, idx: nat, current: Node, handler: nat, acceptances: seq<nat>,
                        ghost g0: Graph)
      returns (wildcard: Node)
      requires idx < |parts| && parts[idx] == "*" &&
               Registering(g0, View(all), root, parts, idx, current, handler, acceptances)
      modifies this`all, current
      ensures old(all) <= all && forall n :: n in all && n !in old(all) ==> fresh(n)
      ensures Forest(View(all)) && Stars(View(all)) &&
              Registered(g0, View(all), root, parts, wildcard, handler, acceptances)
    {
      ghost var g := View(all);
      wildcard := GrowWildcard(current, handler, acceptances);
      RegisterWildcard(g0, g, View(all), root, parts, idx, current, wildcard, handler, acceptances);
    }

    /** The loop over the parts; a wildcard ends it, and its parameters are not kept. */
    method RegisterParts(parts: seq<string>, handler: nat, acceptances: seq<nat>) returns (last: Node, mapping: Mapping)
      requires root in all && Forest(View(all)) && Stars(View(all)) && root.name == "" && |parts| > 0
      modifies this`all, all
      ensures old(all) <= all && forall n :: n in all && n !in old(all) ==> fresh(n)
      ensures Forest(View(all)) && Stars(View(all)) &&
              Registered(old(View(all)), View(all), root, parts, last, handler, acceptances)
      ensures mapping == KeptMapping(parts)
    {
      ghost var g0 := View(all);
      StartRegistering(g0, root, parts, handler, acceptances);
      last, mapping := root, Mapping(map[], {});
      for idx := 0 to |parts|
        invariant old(all) <= all && forall n :: n in all && n !in old(all) ==> fresh(n)
        invariant Registering(g0, View(all), root, parts, idx, last, handler, acceptances)
        invariant mapping == MappingOf(parts, idx)
      {
        if parts[idx] == "*" {
          last := RegisterWild(parts, idx, last, handler, acceptances, g0);
          return last, Mapping(map[], {});
        }
        if ExtractParamName(parts[idx]) != "" {
          mapping := WithParam(mapping, last.name, parts[idx]);
        }
        last := RegisterStep(parts, idx, last, handler, acceptances, g0);
      }
      EndRegistering(g0, View(all), root, parts, last, handler, acceptances);
    }

    /** Registers a handler under a pattern.  Whatever was there before, the pattern leads to
        one node, which is equipped with the handler unless the last part is the name of a
        child that was there already; no other node is equipped. */
    method SetEndpoint(path: string, handler: nat, acceptances: seq<nat>) returns (last: Node)
      requires Valid()
      modifies this, all
      ensures Valid() && root == old(root) && old(all) <= all && forall n :: n in all && n !in old(all) ==> fresh(n)
      ensures Trim(path) == [] ==> last == root && View(all) == Equipped(old(View(all)), root, handler, acceptances)
      ensures Trim(path) == [] ==> root.handler == handler && root.acceptances == acceptances
      ensures Trim(path) != [] ==>
                Registered(old(View(all)), View(all), root, Split(Trim(path)), last, handler, acceptances)
      ensures endpointMappings == Remembered(old(endpointMappings), Trim(path), Split(Trim(path)))
    {
      var trimmed := Trim(path);
      if trimmed == [] {
        EquippedExtends(View(all), root, [], root, handler, acceptances);
        Equip(root, handler, acceptances);
        last := root;
      } else {
        last := SetPattern(trimmed, handler, acceptances);
      }
    }

    method SetPattern(path: string, handler: nat, acceptances: seq<nat>) returns (last: Node)
      requires Valid() && path != []
      modifies this, all
      ensures Valid() && root == old(root) && old(all) <= all && forall n :: n in all && n !in old(all) ==> fresh(n)
      ensures Registered(old(View(all)), View(all), root, Split(path), last, handler, acceptances)
      ensures endpointMappings == Remembered(old(endpointMappings), path, Split(path))
    {
      ghost var g0 := View(all);
      var mapping;
      last, mapping := RegisterParts(Split(path), handler, acceptances);
      ExtendsRoot(g0, View(all), root, Split(path));
      assert Valid();
      Remember(path, mapping);
    }

    method Remember(path: string, mapping: Mapping)
      requires Valid()
      modifies this`endpointMappings
      ensures Valid() && View(all) == old(View(all))
      ensures endpointMappings ==
              if mapping.names == map[] then old(endpointMappings) else old(endpointMappings)[path := mapping]
    {
      if mapping.names != map[] {
        endpointMappings := endpointMappings[path := mapping];
      }
    }

    // ----------------------------------------------- routing

    method PathMatchesEndpoint(parts: seq<string>, endpoint: string) returns (ok: bool)
      ensures ok <==> Matches(endpoint, parts)
    {
      var pattern := Split(TrimLeft(endpoint));
      if |pattern| > |parts| {
        return false;
      }
      for i := 0 to |pattern|
        invariant forall k :: 0 <= k < i ==> IsParamPlaceholder(pattern[k]) || parts[k] == pattern[k]
      {
        if !IsParamPlaceholder(pattern[i]) && parts[i] != pattern[i] {
          return false;
        }
      }
      return true;
    }

    /** The first matching mapping in an order nobody controls. */
    method FindBestMatchingMapping(parts: seq<string>) returns (pick: Pick)
      ensures MayPick(endpointMappings, parts, pick)
    {
      var rest := endpointMappings.Keys;
      while rest != {}
        invariant rest <= endpointMappings.Keys
        invariant forall e :: e in endpointMappings && e !in rest ==> !Matches(e, parts)
        decreases |rest|
      {
        var e :| e in rest;
        var ok := PathMatchesEndpoint(parts, e);
        if ok {
          return Picked(endpointMappings[e]);
        }
        rest := rest - {e};
      }
      return NoMapping;
    }

    method GetParamKeyForPath(name: string, parts: seq<string>) returns (key: string)
      ensures exists pick :: MayPick(endpointMappings, parts, pick) && key == KeyOf(pick, name)
    {
      var pick := FindBestMatchingMapping(parts);
      key := KeyOf(pick, name);
    }

    /** A segment captured at the node of this name. */
    method CaptureParam(params: map<string, string>, name: string, value: string, parts: seq<string>,
                        ghost allowed: iset<Pick>, ghost caps: seq<Capture>, ghost picks: seq<Pick>)
      returns (filed: map<string, string>, ghost pick: Pick)
      requires Covers(allowed, endpointMappings, parts) && Keyed(allowed, caps, picks) && params == Filed(caps, picks)
      ensures Keyed(allowed, caps + [Named(name, value)], picks + [pick])
      ensures filed == Filed(caps + [Named(name, value)], picks + [pick])
    {
      var key := GetParamKeyForPath(name, parts);
      pick :| MayPick(endpointMappings, parts, pick) && key == KeyOf(pick, name);
      FiledOneMore(allowed, caps, picks, Named(name, value), pick);
      filed := params[key := value];
    }

    /** What a recursive point or a wildcard captures, filed under a name as it is. */
    method CaptureRest(params: map<string, string>, name: string, value: string,
                       ghost allowed: iset<Pick>, ghost caps: seq<Capture>, ghost picks: seq<Pick>)
      returns (filed: map<string, string>, ghost morePicks: seq<Pick>)
      requires Keyed(allowed, caps, picks) && params == Filed(caps, picks)
      ensures Keyed(allowed, caps + [Verbatim(name, value)], morePicks)
      ensures filed == Filed(caps + [Verbatim(name, value)], morePicks)
    {
      morePicks := picks + [NoMapping];
      FiledOneMore(allowed, caps, picks, Verbatim(name, value), NoMapping);
      filed := params[name := value];
    }

    method WrapNodeChainIfNeeded(node: Node, parts: seq<string>, ghost chain: seq<Node>, ghost allowed: iset<Pick>)
      returns (w: Ref, ghost picks: seq<Pick>)
      requires ParentChain(chain) && chain[0] == node
      requires Covers(allowed, endpointMappings, parts)
      ensures ParentChain(chain) && Layered(allowed, chain, picks) && w == Wrapped(chain, picks)
      ensures w != Nil && w.node == node
      decreases |chain|
    {
      var pick := FindBestMatchingMapping(parts);
      picks := seq(|chain|, i => pick);
      if pick == NoMapping || pick.mapping.names == map[] {
        return Raw(node), picks;
      }
      var wrappedParent := Nil;
      ghost var above := [];
      if node.parent != null {
        ChainAbove(chain);
        wrappedParent, above := WrapNodeChainIfNeeded(node.parent, parts, chain[1..], allowed);
      } else {
        assert |chain| == 1;
      }
      picks := [pick] + above;
      assert picks[1..] == above;
      if node.name in pick.mapping.names {
        w := Wrapper(node, ShownName(pick, node.name), wrappedParent);
      } else if wrappedParent != RefTo(node.parent) {
        w := Wrapper(node, node.name, wrappedParent);
      } else {
        w := Raw(node);
      }
    }

    /** The loop over the segments, up to the wrapping of the node found. */
    method Descend(segs: seq<string>, ghost allowed: iset<Pick>)
      returns (node: Node?, wild: bool, params: map<string, string>, isLast: bool, ghost chain: seq<Node>,
               ghost picks: seq<Pick>)
      requires root in all && root.parent == null && Forest(View(all))
      requires |segs| > 0 && segs[|segs| - 1] != ""
      requires Covers(allowed, endpointMappings, segs)
      ensures Answers(Search(old(View(all)), root, root, segs, []), allowed, node, wild, params, isLast, picks)
      ensures node != null && !wild ==> ClimbsTo(chain, node, root)
    {
      node, wild, params, isLast, chain, picks := null, false, map[], false, [root], [];
      ghost var g := View(all);
      ghost var goal := Search(g, root, root, segs, []);
      var current, next: Node? := root, root;
      ghost var caps: seq<Capture>, pick := [], NoMapping;
      var idx := 0;
      while idx < |segs|
        invariant idx <= |segs| && current in all && g == View(all)
        invariant goal == Search(g, root, current, segs[idx..], caps)
        invariant idx == |segs| ==> current == next
        invariant ClimbsTo(chain, current, root)
        invariant Keyed(allowed, caps, picks) && params == Filed(caps, picks)
      {
        var seg := segs[idx];
        next := if seg in current.resources then current.resources[seg] else null;
        assert segs[idx..][1..] == segs[idx + 1..];
        match current.routeType {
          case RecursiveEndPoint =>
            if next == null {
              params, picks := CaptureRest(params, current.name, seg, allowed, caps, picks);
            }
            node := current;
            return;
          case Group =>
            if next == null {
              if "*" in current.resources {
                params, picks := CaptureRest(params, "*", Join(segs[idx..]), allowed, caps, picks);
                node, wild := current.resources["*"], true;
              }
              return;
            }
            ChainBelow(next, chain, root);
            chain := [next] + chain;
            current := next;
          case _ =>
            if next != null {
              ChainBelow(next, chain, root);
              chain := [next] + chain;
              if idx + 1 == |segs| {
                node, isLast := next, true;
                return;
              }
              current := next;
            } else {
              if idx + 1 == |segs| {
                if current == root && seg != "" { return; }
              } else if segs[idx + 1] !in current.resources {
                return;
              }
              params, pick := CaptureParam(params, current.name, seg, segs, allowed, caps, picks);
              caps, picks := caps + [Named(current.name, seg)], picks + [pick];
              if idx + 1 == |segs| {
                node := current;
                return;
              }
            }
        }
        idx := idx + 1;
      }
      if current.routeType != Group {
        node, isLast := current, current == next;
      }
    }

    /** Whatever mappings are picked, the node and the values are those of Search; the picks
        only decide the keys and the names. */
    method RouteNode(path: string)
      returns (node: Ref, params: map<string, string>, isLast: bool,
               ghost chain: seq<Node>, ghost keyPicks: seq<Pick>, ghost picks: seq<Pick>)
      requires Valid()
      ensures Trim(path) == [] ==> node == Raw(root) && params == map[] && isLast
      ensures var allowed := Pickable(endpointMappings, Split(Trim(path)));
        Trim(path) != [] ==>
        match Search(old(View(all)), root, root, Split(Trim(path)), [])
          case Missing => node == Nil && !isLast
          case Wild(n, caps) =>
            node == Raw(n) && !isLast && Keyed(allowed, caps, keyPicks) && params == Filed(caps, keyPicks)
          case Hit(n, caps, last) =>
            && ClimbsTo(chain, n, root)
            && Layered(allowed, chain, picks) && node == Wrapped(chain, picks) && isLast == last
            && Keyed(allowed, caps, keyPicks) && params == Filed(caps, keyPicks)
    {
      var trimmed := Trim(path);
      picks := [];
      if trimmed == [] {
        return Raw(root), map[], true, [root], [], [];
      }
      var segs := Split(trimmed);
      LastSegment(trimmed);
      ghost var allowed := Pickable(endpointMappings, segs);
      var found, wild;
      found, wild, params, isLast, chain, keyPicks := Descend(segs, allowed);
      if found == null {
        node := Nil;
      } else if wild {
        node := Raw(found);
      } else {
        node, picks := WrapNodeChainIfNeeded(found, segs, chain, allowed);
      }
    }
  }

  lemma ChainAbove(chain: seq<Node>)
    requires ParentChain(chain) && chain[0].parent != null
    ensures |chain| > 1 && ParentChain(chain[1..]) && chain[1] == chain[0].parent
  {
  }

  /** chain leads from a node up to the root. */
  ghost predicate ClimbsTo(chain: seq<Node>, from: Node, root: Node)
    reads chain
  {
    ParentChain(chain) && chain[0] == from && chain[|chain| - 1] == root
  }

  lemma ChainBelow(n: Node, chain: seq<Node>, root: Node)
    requires chain != [] && ClimbsTo(chain, chain[0], root) && n.parent == chain[0]
    ensures ClimbsTo([n] + chain, n, root)
  {
  }

  lemma FiledOneMore(allowed: iset<Pick>, caps: seq<Capture>, picks: seq<Pick>, c: Capture, pick: Pick)
    requires Keyed(allowed, caps, picks) && (c.Named? ==> pick in allowed)
    ensures Keyed(allowed, caps + [c], picks + [pick])
    ensures Filed(caps + [c], picks + [pick]) == Filed(caps, picks)[KeyFor(c, pick) := c.value]
  {
    assert (caps + [c])[..|caps|] == caps && (picks + [pick])[..|picks|] == picks;
  }
}
