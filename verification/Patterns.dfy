/** Path patterns as SimpleRoute registers them, and what registering one does to the trie. */
module Patterns {
  import opened Routes

  // ------------------------------------------------- placeholders

  predicate Braced(part: string) {
    "{" <= part && part[|part| - 1] == '}'
  }

  predicate IsParamPlaceholder(part: string) {
    ":" <= part || Braced(part)
  }

  /** Empty also for the placeholders without a name, which count as static segments. */
  function ExtractParamName(part: string): (r: string)
    ensures r != "" ==> IsParamPlaceholder(part)
    ensures IsParamPlaceholder(part) ==> r != "" || part == ":" || part == "{}"
  {
    if ":" <= part then part[1..] else if Braced(part) then part[1..|part| - 1] else ""
  }

  /** The placeholders: a name after a colon or in braces, and nothing else. */
  lemma Placeholders(part: string, name: string)
    ensures ExtractParamName(":" + name) == ExtractParamName("{" + name + "}") == name
    ensures var n := ExtractParamName(part); n != "" ==> part == ":" + n || part == "{" + n + "}"
    ensures IsParamPlaceholder(part) <==> (exists n: string :: part == ":" + n || part == "{" + n + "}")
  {
    var braced := "{" + name + "}";
    assert braced[0] == '{' && braced[|braced| - 1] == '}' && braced[1..|braced| - 1] == name;
    assert (":" + name)[1..] == name && ":" <= ":" + name;
    if ":" <= part { assert part == ":" + part[1..]; }
    if Braced(part) && |part| > 1 { assert part == "{" + part[1..|part| - 1] + "}"; }
  }

  predicate EndsInId(name: string) {
    |name| >= 3 && name[|name| - 3..] == "_id"
  }

  /** Parameter names by node name, and the nodes whose parameter was written in braces. */
  datatype Mapping = Mapping(names: map<string, string>, prefixed: set<string>)

  predicate IsParam(part: string) {
    ExtractParamName(part) != ""
  }

  /** The name of the node the first n parts lead to: parameters stay at their node. */
  function NameAt(pattern: seq<string>, n: nat): string
    requires n <= |pattern|
  {
    if n == 0 then ""
    else if IsParam(pattern[n - 1]) then NameAt(pattern, n - 1)
    else pattern[n - 1]
  }

  /** Braces always name their parameter, a colon only one that ends in _id. */
  function WithParam(m: Mapping, at: string, part: string): Mapping {
    var param := ExtractParamName(part);
    if Braced(part) then Mapping(m.names[at := param], m.prefixed + {at})
    else if EndsInId(param) then m.(names := m.names[at := param])
    else m
  }

  /** The parameter names among the first n parts, each filed under the part before it. */
  function MappingOf(pattern: seq<string>, n: nat): Mapping
    requires n <= |pattern|
  {
    if n == 0 then Mapping(map[], {})
    else if IsParam(pattern[n - 1]) then WithParam(MappingOf(pattern, n - 1), NameAt(pattern, n - 1), pattern[n - 1])
    else MappingOf(pattern, n - 1)
  }

  /** A pattern with a wildcard keeps none. */
  function KeptMapping(pattern: seq<string>): Mapping {
    if "*" in pattern then Mapping(map[], {}) else MappingOf(pattern, |pattern|)
  }

  /** A mapping is stored under the path if there is any parameter in it to speak of. */
  function Remembered(mappings: map<string, Mapping>, path: string, pattern: seq<string>): map<string, Mapping> {
    if path == [] || KeptMapping(pattern).names == map[] then mappings else mappings[path := KeptMapping(pattern)]
  }

  // ------------------------------------------------- the trie

  /** Only wildcards are recursive. */
  ghost predicate Stars(g: Graph) {
    forall n :: n in g && g[n].routeType == RecursiveEndPoint ==> g[n].name == "*"
  }

  /** The pattern leads from cur to last: a parameter stays at an end point, a wildcard ends
      the pattern, and any other part goes down to the child of its name. */
  ghost predicate Laid(g: Graph, cur: Node, pattern: seq<string>, last: Node)
    requires Forest(g) && cur in g
    decreases |pattern|
  {
    if pattern == [] then cur == last
    else if IsParam(pattern[0]) then g[cur].routeType == EndPoint && Laid(g, cur, pattern[1..], last)
    else if pattern[0] == "*" then
      "*" in g[cur].resources && g[cur].resources["*"] == last && g[last].routeType == RecursiveEndPoint
    else pattern[0] in g[cur].resources && Laid(g, g[cur].resources[pattern[0]], pattern[1..], last)
  }

  /** One more part at the end of a pattern without a wildcard. */
  lemma {:induction false} LaidOneMore(g: Graph, cur: Node, pattern: seq<string>, at: Node, part: string, last: Node)
    requires Forest(g) && cur in g && at in g && "*" !in pattern
    requires Laid(g, cur, pattern, at) && Laid(g, at, [part], last)
    ensures Laid(g, cur, pattern + [part], last)
    decreases |pattern|
  {
    if pattern == [] {
      assert [] + [part] == [part];
    } else {
      assert pattern[0] in pattern && forall p :: p in pattern[1..] ==> p in pattern;
      assert (pattern + [part])[1..] == pattern[1..] + [part];
      LaidOneMore(g, if IsParam(pattern[0]) then cur else g[cur].resources[pattern[0]], pattern[1..], at, part, last);
    }
  }

  /** What becomes of a trie while a pattern with these parts is registered: nodes stay where
      they are, some become end points, and nothing changes but at the root and at nodes and
      children named by a part that is no parameter; only a wildcard is ever replaced. */
  ghost predicate Extends(g: Graph, h: Graph, root: Node, parts: seq<string>) {
    forall n :: n in g ==> n in h && DataExtends(g[n], h[n], n == root, parts)
  }

  ghost predicate DataExtends(d: Data, e: Data, isRoot: bool, parts: seq<string>) {
    && e.name == d.name && e.parent == d.parent
    && (e.routeType == d.routeType || (e.routeType == EndPoint && (isRoot || d.name in parts)))
    && (!isRoot && d.name !in parts ==> e.resources == d.resources)
    && (forall k :: k in d.resources ==> k in e.resources && (k != "*" ==> e.resources[k] == d.resources[k]))
    && (forall k :: k in e.resources && (k !in parts || IsParam(k)) ==>
       k in d.resources && e.resources[k] == d.resources[k])
  }

  /** No node but one has another handler or other acceptances. */
  ghost predicate Spares(g: Graph, h: Graph, but: Node?) {
    forall n :: n in g && n != but ==> n in h && h[n].handler == g[n].handler && h[n].acceptances == g[n].acceptances
  }

  lemma ExtendsTransitive(g: Graph, h: Graph, i: Graph, root: Node, parts: seq<string>)
    requires Extends(g, h, root, parts) && Extends(h, i, root, parts)
    ensures Extends(g, i, root, parts)
  {
    forall n | n in g ensures n in i && DataExtends(g[n], i[n], n == root, parts) {
      assert DataExtends(g[n], h[n], n == root, parts) && DataExtends(h[n], i[n], n == root, parts);
    }
  }

  /** Extending a trie moves no pattern without a wildcard. */
  lemma {:induction false} LaidStays(g: Graph, h: Graph, root: Node, parts: seq<string>, cur: Node,
                                     pattern: seq<string>, last: Node)
    requires Forest(g) && Forest(h) && Extends(g, h, root, parts) && cur in g
    requires "*" !in pattern && Laid(g, cur, pattern, last)
    ensures Laid(h, cur, pattern, last)
    decreases |pattern|
  {
    if pattern != [] {
      assert pattern[0] in pattern && forall p :: p in pattern[1..] ==> p in pattern;
      assert DataExtends(g[cur], h[cur], cur == root, parts);
      var next := if IsParam(pattern[0]) then cur else g[cur].resources[pattern[0]];
      LaidStays(g, h, root, parts, next, pattern[1..], last);
    }
  }

  // ------------------------------------------------- the changes, one by one

  ghost function Marked(g: Graph, at: Node): Graph
    requires at in g
  {
    g[at := g[at].(routeType := EndPoint)]
  }

  ghost function Equipped(g: Graph, at: Node, handler: nat, acceptances: seq<nat>): Graph
    requires at in g
  {
    g[at := g[at].(handler := handler, acceptances := acceptances)]
  }

  ghost function Grown(g: Graph, at: Node, node: Node, d: Data): Graph
    requires at in g
  {
    g[at := g[at].(resources := g[at].resources[d.name := node])][node := d]
  }

  ghost predicate Touched(g: Graph, root: Node, parts: seq<string>, at: Node) {
    at in g && (at == root || g[at].name in parts)
  }

  lemma MarkedExtends(g: Graph, root: Node, parts: seq<string>, at: Node)
    requires Forest(g) && Stars(g) && Touched(g, root, parts, at)
    ensures Forest(Marked(g, at)) && Stars(Marked(g, at)) && Extends(g, Marked(g, at), root, parts)
  {
  }

  lemma EquippedExtends(g: Graph, root: Node, parts: seq<string>, at: Node, handler: nat, acceptances: seq<nat>)
    requires Forest(g) && Stars(g) && at in g
    ensures var h := Equipped(g, at, handler, acceptances); Forest(h) && Stars(h) && Extends(g, h, root, parts)
  {
  }

  /** What a grown trie h looks like, node by node. */
  lemma GrownForest(g: Graph, h: Graph, at: Node, node: Node, d: Data)
    requires Forest(g) && Stars(g) && at in g && node !in g && h == Grown(g, at, node, d)
    requires d.resources == map[] && d.parent == at && (d.routeType == RecursiveEndPoint ==> d.name == "*")
    ensures Forest(h) && Stars(h)
  {
    forall n, k | n in h && k in h[n].resources
      ensures var c := h[n].resources[k]; c in h && h[c].name == k && h[c].parent == n
    {
      if n in g && !(n == at && k == d.name) {
        assert g[n].resources[k] in g;
        assert g[n].resources[k] != node;
        assert g[n].resources[k] == at ==> h[at].parent == g[at].parent;
      }
    }
  }

  lemma GrownExtends(g: Graph, h: Graph, root: Node, parts: seq<string>, at: Node, node: Node, d: Data)
    requires Touched(g, root, parts, at) && node !in g && h == Grown(g, at, node, d)
    requires d.name in parts && !IsParam(d.name) && (d.name in g[at].resources ==> d.name == "*")
    ensures Extends(g, h, root, parts)
  {
  }

  // ------------------------------------------------- registering, part by part

  /** The first idx parts are laid out from the root to at, and g differs from g0 by that. */
  ghost predicate Progress(g0: Graph, g: Graph, root: Node, parts: seq<string>, idx: nat, at: Node) {
    && Forest(g0) && Forest(g) && Stars(g) && root in g0 && Extends(g0, g, root, parts)
    && idx <= |parts| && "*" !in parts[..idx] && root in g && Touched(g, root, parts, at)
    && Laid(g, root, parts[..idx], at)
  }

  /** One step further: the trie was extended, and the next part leads from at to next. */
  lemma OneMorePart(g0: Graph, g: Graph, h: Graph, root: Node, parts: seq<string>, idx: nat, at: Node, next: Node)
    requires Progress(g0, g, root, parts, idx, at) && idx < |parts|
    requires Forest(h) && Stars(h) && Extends(g, h, root, parts) && at in h && Laid(h, at, [parts[idx]], next)
    ensures Extends(g0, h, root, parts) && root in h && Laid(h, root, parts[..idx + 1], next)
  {
    ExtendsTransitive(g0, g, h, root, parts);
    LaidStays(g, h, root, parts, root, parts[..idx], at);
    LaidUpTo(h, root, parts, idx, at, next);
  }

  lemma LaidUpTo(h: Graph, root: Node, parts: seq<string>, idx: nat, at: Node, next: Node)
    requires Forest(h) && root in h && at in h && idx < |parts| && "*" !in parts[..idx]
    requires Laid(h, root, parts[..idx], at) && Laid(h, at, [parts[idx]], next)
    ensures Laid(h, root, parts[..idx + 1], next)
  {
    assert parts[..idx + 1] == parts[..idx] + [parts[idx]];
    LaidOneMore(h, root, parts[..idx], at, parts[idx], next);
  }

  lemma GrownLeads(h: Graph, at: Node, node: Node, d: Data)
    requires Forest(h) && at in h && node in h && h[node] == d && !IsParam(d.name)
    requires d.name in h[at].resources && h[at].resources[d.name] == node
    requires d.name == "*" ==> d.routeType == RecursiveEndPoint
    ensures Laid(h, at, [d.name], node)
  {
  }

  lemma TouchedStays(g: Graph, h: Graph, root: Node, parts: seq<string>, idx: nat, node: Node)
    requires idx < |parts| && "*" !in parts[..idx] && parts[idx] != "*" && node in h && h[node].name == parts[idx]
    ensures "*" !in parts[..idx + 1] && Touched(h, root, parts, node)
  {
    assert parts[idx] in parts;
  }

  lemma ParamLaid(g0: Graph, g: Graph, root: Node, parts: seq<string>, idx: nat, at: Node)
    requires Progress(g0, g, root, parts, idx, at) && idx < |parts| && IsParam(parts[idx])
    ensures Progress(g0, Marked(g, at), root, parts, idx + 1, at)
  {
    MarkedExtends(g, root, parts, at);
    OneMorePart(g0, g, Marked(g, at), root, parts, idx, at, at);
  }

  lemma StaticLaid(g0: Graph, g: Graph, root: Node, parts: seq<string>, idx: nat, at: Node)
    requires Progress(g0, g, root, parts, idx, at) && idx < |parts| && !IsParam(parts[idx]) && parts[idx] != "*"
    requires parts[idx] in g[at].resources
    ensures Progress(g0, g, root, parts, idx + 1, g[at].resources[parts[idx]])
  {
    OneMorePart(g0, g, g, root, parts, idx, at, g[at].resources[parts[idx]]);
  }

  /** Growing by one node leads to that node. */
  lemma GrownStep(g: Graph, h: Graph, root: Node, parts: seq<string>, at: Node, node: Node, d: Data)
    requires Forest(g) && Stars(g) && Touched(g, root, parts, at) && node !in g && h == Grown(g, at, node, d)
    requires d.resources == map[] && d.parent == at && (d.routeType == RecursiveEndPoint <==> d.name == "*")
    requires d.name in parts && !IsParam(d.name) && (d.name in g[at].resources ==> d.name == "*")
    ensures Forest(h) && Stars(h) && Extends(g, h, root, parts) && at in h && Laid(h, at, [d.name], node)
  {
    GrownForest(g, h, at, node, d);
    GrownExtends(g, h, root, parts, at, node, d);
    GrownLeads(h, at, node, d);
  }

  lemma NodeLaid(g0: Graph, g: Graph, h: Graph, root: Node, parts: seq<string>, idx: nat, at: Node, node: Node, d: Data)
    requires Progress(g0, g, root, parts, idx, at) && idx < |parts| && !IsParam(d.name) && parts[idx] == d.name
    requires node !in g && h == Grown(g, at, node, d)
    requires d.resources == map[] && d.parent == at && (d.routeType == RecursiveEndPoint <==> d.name == "*")
    requires d.name in g[at].resources ==> d.name == "*"
    ensures Forest(h) && Stars(h) && Extends(g0, h, root, parts) && root in h && Laid(h, root, parts[..idx + 1], node)
  {
    GrownStep(g, h, root, parts, at, node, d);
    OneMorePart(g0, g, h, root, parts, idx, at, node);
  }

  lemma ChildLaid(g0: Graph, g: Graph, root: Node, parts: seq<string>, idx: nat, at: Node, node: Node, d: Data)
    requires Progress(g0, g, root, parts, idx, at) && idx < |parts| && !IsParam(parts[idx]) &&
             parts[idx] == d.name != "*"
    requires d.name !in g[at].resources && node !in g && d.resources == map[] && d.parent == at &&
             d.routeType != RecursiveEndPoint
    ensures Progress(g0, Grown(g, at, node, d), root, parts, idx + 1, node)
  {
    var h := Grown(g, at, node, d);
    NodeLaid(g0, g, h, root, parts, idx, at, node, d);
    TouchedStays(g, h, root, parts, idx, node);
  }

  lemma WildcardLaid(g0: Graph, g: Graph, h: Graph, root: Node, parts: seq<string>, idx: nat, at: Node, node: Node,
                     d: Data)
    requires Progress(g0, g, root, parts, idx, at) && idx < |parts| && parts[idx] == d.name == "*"
    requires node !in g && h == Grown(g, at, node, d)
    requires d.resources == map[] && d.parent == at && d.routeType == RecursiveEndPoint
    ensures Forest(h) && Stars(h) && Extends(g0, h, root, parts) && root in h && Laid(h, root, parts, node)
  {
    NodeLaid(g0, g, h, root, parts, idx, at, node, d);
    LaidWhole(h, root, parts, idx, node);
  }

  lemma LaidWhole(h: Graph, root: Node, parts: seq<string>, idx: nat, node: Node)
    requires Forest(h) && root in h && idx < |parts| && parts[idx] == "*" && Laid(h, root, parts[..idx + 1], node)
    ensures Laid(h, root, parts, node)
  {
    assert parts[..idx + 1] + parts[idx + 1..] == parts;
    LaidPastWildcard(h, root, parts[..idx + 1], parts[idx + 1..], node);
  }

  /** What follows a wildcard does not matter. */
  lemma {:induction false} LaidPastWildcard(g: Graph, cur: Node, pattern: seq<string>, rest: seq<string>, last: Node)
    requires Forest(g) && cur in g && pattern != [] && pattern[|pattern| - 1] == "*" && Laid(g, cur, pattern, last)
    ensures Laid(g, cur, pattern + rest, last)
    decreases |pattern|
  {
    var all := pattern + rest;
    assert all[1..] == pattern[1..] + rest;
    if IsParam(pattern[0]) {
      LaidPastWildcard(g, cur, pattern[1..], rest, last);
    } else if pattern[0] != "*" {
      LaidPastWildcard(g, g[cur].resources[pattern[0]], pattern[1..], rest, last);
    }
  }

  lemma EquippedLaid(g0: Graph, g: Graph, root: Node, parts: seq<string>, at: Node, handler: nat, acceptances: seq<nat>)
    requires Progress(g0, g, root, parts, |parts|, at)
    ensures Progress(g0, Equipped(g, at, handler, acceptances), root, parts, |parts|, at)
  {
    var h := Equipped(g, at, handler, acceptances);
    EquippedExtends(g, root, parts, at, handler, acceptances);
    ExtendsTransitive(g0, g, h, root, parts);
    assert parts[..|parts|] == parts;
    LaidStays(g, h, root, parts, root, parts, at);
  }

  // ------------------------------------------------- registering, with the handler

  /** The handler goes to the last node, but not if its name was that of a child already. */
  ghost predicate Sets(g0: Graph, parts: seq<string>, last: Node)
    requires parts != []
  {
    last !in g0 || IsParam(parts[|parts| - 1])
  }

  ghost predicate SameChildren(g: Graph, h: Graph) {
    forall n :: n in g ==> n in h && h[n].resources == g[n].resources
  }

  /** The state of a registration after idx parts: until a node is added no child is, and the
      handler is set with the last part. */
  ghost predicate Books(g0: Graph, g: Graph, parts: seq<string>, idx: nat, at: Node, handler: nat,
                        acceptances: seq<nat>)
    requires 0 < |parts| && idx <= |parts| && at in g
  {
    && g[at].name == NameAt(parts, idx)
    && (if at in g0 then SameChildren(g0, g) else g[at].resources == map[])
    && Spares(g0, g, if idx == |parts| && Sets(g0, parts, at) then at else null)
    && (idx == |parts| && Sets(g0, parts, at) ==>
          g[at].handler == handler && g[at].acceptances == acceptances && g[at].routeType == EndPoint)
  }

  /** One of the first idx parts is a parameter, and stands at a node of this name. */
  ghost predicate Hosts(parts: seq<string>, idx: nat, name: string)
    requires idx <= |parts|
  {
    exists i :: 0 <= i < idx && IsParam(parts[i]) && NameAt(parts, i) == name
  }

  /** What kinds of nodes there are: a node that was there becomes an end point at most, by a
      parameter that stands at it; a new one has no handler, and is a group but for that, unless
      it is the last. */
  ghost predicate Kinds(g0: Graph, g: Graph, parts: seq<string>, idx: nat, but: Node?)
    requires idx <= |parts|
  {
    forall n :: n in g && (n in g0 || n != but) ==> KindOf(g0, g[n], parts, idx, n)
  }

  ghost predicate KindOf(g0: Graph, d: Data, parts: seq<string>, idx: nat, n: Node)
    requires idx <= |parts|
  {
    && (n !in g0 ==> d.handler == 0 && d.acceptances == [])
    && (|| d.routeType == (if n in g0 then g0[n].routeType else Group)
        || (d.routeType == EndPoint && Hosts(parts, idx, d.name)))
  }

  lemma KindStays(g0: Graph, d: Data, parts: seq<string>, idx: nat, n: Node)
    requires idx < |parts| && KindOf(g0, d, parts, idx, n)
    ensures KindOf(g0, d, parts, idx + 1, n)
  {
  }

  lemma KindsLater(g0: Graph, g: Graph, parts: seq<string>, idx: nat, but: Node?)
    requires idx <= |parts| && Kinds(g0, g, parts, idx, but)
    ensures Kinds(g0, g, parts, |parts|, but)
  {
  }

  lemma KindsParam(g0: Graph, g: Graph, parts: seq<string>, idx: nat, at: Node, handler: nat, acceptances: seq<nat>)
    requires idx < |parts| && IsParam(parts[idx]) && at in g && g[at].name == NameAt(parts, idx)
    requires Kinds(g0, g, parts, idx, null)
    ensures Kinds(g0, EquippedIf(idx + 1 == |parts|, Marked(g, at), at, handler, acceptances), parts, idx + 1,
                  if idx + 1 == |parts| then at else null)
  {
    var h := EquippedIf(idx + 1 == |parts|, Marked(g, at), at, handler, acceptances);
    assert Hosts(parts, idx + 1, g[at].name);
    forall n | n in h && (n in g0 || n != (if idx + 1 == |parts| then at else null))
      ensures KindOf(g0, h[n], parts, idx + 1, n)
    {
      KindStays(g0, g[n], parts, idx, n);
    }
  }

  lemma KindsStatic(g0: Graph, g: Graph, parts: seq<string>, idx: nat, but: Node?)
    requires idx < |parts| && Kinds(g0, g, parts, idx, null)
    ensures Kinds(g0, g, parts, idx + 1, but)
  {
    forall n | n in g ensures KindOf(g0, g[n], parts, idx + 1, n) { KindStays(g0, g[n], parts, idx, n); }
  }

  lemma KindsNew(g0: Graph, g: Graph, parts: seq<string>, idx: nat, at: Node, node: Node, d: Data, but: Node?)
    requires idx < |parts| && at in g && node !in g && node !in g0 && Kinds(g0, g, parts, idx, null)
    requires but == node || (d.handler == 0 && d.acceptances == [] && d.routeType == Group)
    ensures Kinds(g0, Grown(g, at, node, d), parts, idx + 1, but)
  {
    var h := Grown(g, at, node, d);
    forall n | n in h && (n in g0 || n != but) ensures KindOf(g0, h[n], parts, idx + 1, n) {
      if n != node { KindStays(g0, g[n], parts, idx, n); }
    }
  }

  ghost predicate Registering(g0: Graph, g: Graph, root: Node, parts: seq<string>, idx: nat, at: Node,
                              handler: nat, acceptances: seq<nat>)
  {
    && Progress(g0, g, root, parts, idx, at) && 0 < |parts| && Books(g0, g, parts, idx, at, handler, acceptances)
    && Kinds(g0, g, parts, idx, if idx == |parts| then at else null)
  }

  ghost function EquippedIf(b: bool, g: Graph, at: Node, handler: nat, acceptances: seq<nat>): Graph
    requires at in g
  {
    if b then Equipped(g, at, handler, acceptances) else g
  }

  lemma RegisterParam(g0: Graph, g: Graph, root: Node, parts: seq<string>, idx: nat, at: Node, handler: nat,
                      acceptances: seq<nat>)
    requires Registering(g0, g, root, parts, idx, at, handler, acceptances) && idx < |parts| && IsParam(parts[idx])
    ensures Registering(g0, EquippedIf(idx + 1 == |parts|, Marked(g, at), at, handler, acceptances), root, parts,
                        idx + 1, at, handler, acceptances)
  {
    ParamLaid(g0, g, root, parts, idx, at);
    if idx + 1 == |parts| { EquippedLaid(g0, Marked(g, at), root, parts, at, handler, acceptances); }
    ParamBooks(g0, g, parts, idx, at, handler, acceptances);
    KindsParam(g0, g, parts, idx, at, handler, acceptances);
  }

  lemma ParamBooks(g0: Graph, g: Graph, parts: seq<string>, idx: nat, at: Node, handler: nat, acceptances: seq<nat>)
    requires idx < |parts| && IsParam(parts[idx]) && at in g && Books(g0, g, parts, idx, at, handler, acceptances)
    ensures Books(g0, EquippedIf(idx + 1 == |parts|, Marked(g, at), at, handler, acceptances), parts, idx + 1, at,
                  handler, acceptances)
  {
  }

  lemma RegisterStatic(g0: Graph, g: Graph, root: Node, parts: seq<string>, idx: nat, at: Node, handler: nat,
                       acceptances: seq<nat>)
    requires Registering(g0, g, root, parts, idx, at, handler, acceptances) && idx < |parts|
    requires !IsParam(parts[idx]) && parts[idx] != "*" && parts[idx] in g[at].resources
    ensures Registering(g0, g, root, parts, idx + 1, g[at].resources[parts[idx]], handler, acceptances)
  {
    StaticLaid(g0, g, root, parts, idx, at);
    KindsStatic(g0, g, parts, idx, if idx + 1 == |parts| then g[at].resources[parts[idx]] else null);
    assert g0[at].resources[parts[idx]] in g0;
  }

  ghost function NewChild(parts: seq<string>, idx: nat, at: Node, handler: nat, acceptances: seq<nat>): Data
    requires idx < |parts|
  {
    if idx + 1 == |parts| then Data(parts[idx], EndPoint, map[], at, handler, acceptances)
    else Data(parts[idx], Group, map[], at, 0, [])
  }

  lemma RegisterNew(g0: Graph, g: Graph, root: Node, parts: seq<string>, idx: nat, at: Node, node: Node,
                    handler: nat, acceptances: seq<nat>)
    requires Registering(g0, g, root, parts, idx, at, handler, acceptances) && idx < |parts|
    requires !IsParam(parts[idx]) && parts[idx] != "*" && parts[idx] !in g[at].resources && node !in g
    ensures Registering(g0, Grown(g, at, node, NewChild(parts, idx, at, handler, acceptances)), root, parts, idx + 1,
                        node, handler, acceptances)
  {
    ChildLaid(g0, g, root, parts, idx, at, node, NewChild(parts, idx, at, handler, acceptances));
    NewBooks(g0, g, parts, idx, at, node, handler, acceptances);
    KindsNew(g0, g, parts, idx, at, node, NewChild(parts, idx, at, handler, acceptances),
             if idx + 1 == |parts| then node else null);
  }

  lemma NewBooks(g0: Graph, g: Graph, parts: seq<string>, idx: nat, at: Node, node: Node, handler: nat,
                 acceptances: seq<nat>)
    requires idx < |parts| && !IsParam(parts[idx]) && at in g && Books(g0, g, parts, idx, at, handler, acceptances)
    requires node !in g && forall n :: n in g0 ==> n in g
    ensures Books(g0, Grown(g, at, node, NewChild(parts, idx, at, handler, acceptances)), parts, idx + 1, node,
                  handler, acceptances)
  {
  }

  ghost predicate IsNext(g: Graph, part: string, at: Node, next: Node)
    requires at in g
  {
    if IsParam(part) then next == at
    else if part in g[at].resources then next == g[at].resources[part]
    else next !in g
  }

  ghost function WithPart(g: Graph, parts: seq<string>, idx: nat, at: Node, next: Node, handler: nat,
                          acceptances: seq<nat>): Graph
    requires idx < |parts| && at in g
  {
    if IsParam(parts[idx]) then EquippedIf(idx + 1 == |parts|, Marked(g, at), at, handler, acceptances)
    else if parts[idx] in g[at].resources then g
    else Grown(g, at, next, NewChild(parts, idx, at, handler, acceptances))
  }

  lemma RegisterOne(g0: Graph, g: Graph, root: Node, parts: seq<string>, idx: nat, at: Node, next: Node,
                    handler: nat, acceptances: seq<nat>)
    requires Registering(g0, g, root, parts, idx, at, handler, acceptances) && idx < |parts| && parts[idx] != "*"
    requires IsNext(g, parts[idx], at, next)
    ensures Registering(g0, WithPart(g, parts, idx, at, next, handler, acceptances), root, parts, idx + 1, next,
                        handler, acceptances)
  {
    if IsParam(parts[idx]) {
      RegisterParam(g0, g, root, parts, idx, at, handler, acceptances);
    } else if parts[idx] in g[at].resources {
      RegisterStatic(g0, g, root, parts, idx, at, handler, acceptances);
    } else {
      RegisterNew(g0, g, root, parts, idx, at, next, handler, acceptances);
    }
  }

  // ------------------------------------------------- a registration as a whole

  /** What registering a pattern guarantees. */
  ghost predicate Registered(g0: Graph, g: Graph, root: Node, parts: seq<string>, last: Node, handler: nat,
                             acceptances: seq<nat>)
    requires 0 < |parts| && Forest(g)
  {
    && root in g && Laid(g, root, parts, last) && Extends(g0, g, root, parts) && last in g
    && (if "*" in parts || Sets(g0, parts, last) then
          && Spares(g0, g, last) && g[last].handler == handler && g[last].acceptances == acceptances
          && g[last].routeType == (if "*" in parts then RecursiveEndPoint else EndPoint)
        else Spares(g0, g, null))
    && Kinds(g0, g, parts, |parts|, last)
  }

  lemma ExtendsRoot(g: Graph, h: Graph, root: Node, parts: seq<string>)
    requires Extends(g, h, root, parts) && root in g
    ensures root in h && h[root].name == g[root].name && h[root].parent == g[root].parent
    ensures h[root].routeType in {g[root].routeType, EndPoint}
  {
    assert DataExtends(g[root], h[root], true, parts);
  }

  lemma StartRegistering(g: Graph, root: Node, parts: seq<string>, handler: nat, acceptances: seq<nat>)
    requires Forest(g) && Stars(g) && root in g && g[root].name == "" && 0 < |parts|
    ensures Registering(g, g, root, parts, 0, root, handler, acceptances)
  {
    assert parts[..0] == [];
  }

  lemma EndRegistering(g0: Graph, g: Graph, root: Node, parts: seq<string>, last: Node, handler: nat,
                       acceptances: seq<nat>)
    requires Registering(g0, g, root, parts, |parts|, last, handler, acceptances)
    ensures Registered(g0, g, root, parts, last, handler, acceptances) && Stars(g)
    ensures parts[..|parts|] == parts && "*" !in parts
  {
    assert parts[..|parts|] == parts;
  }

  function WildcardData(at: Node, handler: nat, acceptances: seq<nat>): Data {
    Data("*", RecursiveEndPoint, map[], at, handler, acceptances)
  }

  lemma WildcardBooks(g0: Graph, g: Graph, h: Graph, parts: seq<string>, idx: nat, at: Node, node: Node, handler: nat,
                      acceptances: seq<nat>)
    requires idx < |parts| && at in g && Books(g0, g, parts, idx, at, handler, acceptances)
    requires node !in g && (forall n :: n in g0 ==> n in g) &&
             h == Grown(g, at, node, WildcardData(at, handler, acceptances))
    ensures Spares(g0, h, node) && node in h && h[node] == WildcardData(at, handler, acceptances)
  {
  }

  lemma RegisterWildcard(g0: Graph, g: Graph, h: Graph, root: Node, parts: seq<string>, idx: nat, at: Node, node: Node,
                         handler: nat, acceptances: seq<nat>)
    requires Registering(g0, g, root, parts, idx, at, handler, acceptances) && idx < |parts| && parts[idx] == "*"
    requires node !in g && h == Grown(g, at, node, WildcardData(at, handler, acceptances))
    ensures Forest(h) && Stars(h) && Registered(g0, h, root, parts, node, handler, acceptances)
  {
    WildcardBooks(g0, g, h, parts, idx, at, node, handler, acceptances);
    WildcardLaid(g0, g, h, root, parts, idx, at, node, WildcardData(at, handler, acceptances));
    KindsNew(g0, g, parts, idx, at, node, WildcardData(at, handler, acceptances), node);
    KindsLater(g0, h, parts, idx + 1, node);
  }
}
