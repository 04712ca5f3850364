/** What the pipeline promises over several operations. */
module PipelineTheorems {
  import opened Delivery
  import opened DeliveryCounts
  import opened Pipeline

  // ------------------------------------------------------------ stale contexts

  ghost predicate NextPath(path: seq<Context>)
    reads path
  {
    forall i {:trigger path[i].next} :: 0 <= i < |path| - 1 ==> path[i].next == path[i + 1]
  }

  /** Following next from any context ever linked, even from one that has been removed
      since, reaches the tail: the removal times strictly increase on the way. */
  lemma {:induction false} NextReachesTail(p: Pipeline, c: Context) returns (path: seq<Context>)
    requires p.Valid() && p.StaleValid() && c in p.Known()
    ensures path != [] && path[0] == c && path[|path| - 1] == p.tail && NextPath(path)
    ensures forall x :: x in path ==> x in p.Known()
    decreases if c in p.chain then 0 else |p.stale| - StaleIndex(p, c)
  {
    if c in p.chain {
      var i :| 0 <= i < |p.chain| && p.chain[i] == c;
      path := p.chain[i..];
    } else {
      var i := StaleIndex(p, c);
      var n := p.stale[i].next;
      if n in p.stale[i + 1..] {
        var j :| i < j < |p.stale| && p.stale[j] == n;
        assert StaleIndex(p, n) == j;
      }
      var rest := NextReachesTail(p, n);
      path := [c] + rest;
    }
  }

  /** And following prev reaches the head, where it ends. */
  lemma {:induction false} PrevReachesHead(p: Pipeline, c: Context) returns (path: seq<Context>)
    requires p.Valid() && p.StaleValid() && c in p.Known()
    ensures Upward(path) && path[0] == c && path[|path| - 1] == p.head
    decreases if c in p.chain then 0 else |p.stale| - StaleIndex(p, c)
  {
    if c in p.chain {
      var i :| 0 <= i < |p.chain| && p.chain[i] == c;
      ChainUpward(p, i);
      path := WayUp(p.chain, i);
      assert path[i] == p.chain[0];
    } else {
      var i := StaleIndex(p, c);
      var n := p.stale[i].prev;
      if n in p.stale[i + 1..] {
        var j :| i < j < |p.stale| && p.stale[j] == n;
        assert StaleIndex(p, n) == j;
      }
      var rest := PrevReachesHead(p, n);
      path := [c] + rest;
      assert path[1..] == rest;
    }
  }

  lemma {:induction false} ChainUpward(p: Pipeline, i: nat)
    requires p.Valid() && i < |p.chain|
    ensures Upward(WayUp(p.chain, i)) && WayUp(p.chain, i)[0] == p.chain[i]
  {
    var up := WayUp(p.chain, i);
    if i > 0 {
      ChainUpward(p, i - 1);
      assert up[1..] == WayUp(p.chain, i - 1) && up[1] == p.chain[i - 1];
    }
  }

  /** When c was removed. */
  ghost function StaleIndex(p: Pipeline, c: Context): (i: nat)
    reads p
    ensures c in p.stale ==> i < |p.stale| && p.stale[i] == c
  {
    if c in p.stale then (var i :| 0 <= i < |p.stale| && p.stale[i] == c; i) else 0
  }

  /** The stops are those of the path, and from each the way back ends at the head. */
  ghost predicate Along(down: seq<seq<Context>>, path: seq<Context>, head: Context) {
    |down| == |path| && forall k :: 0 <= k < |path| ==>
      down[k] != [] && down[k][0] == path[k] && down[k][|down[k]| - 1] == head
  }

  lemma AlongCons(up: seq<Context>, rest: seq<seq<Context>>, path: seq<Context>, head: Context)
    requires path != [] && Along(rest, path[1..], head) && up != [] && up[0] == path[0] && up[|up| - 1] == head
    ensures Along([up] + rest, path, head)
  {
    forall k | 1 <= k < |path| ensures ([up] + rest)[k] == rest[k - 1] && path[k] == path[1..][k - 1] {}
  }

  /** A way to the tail through contexts that were linked once. */
  ghost predicate Followable(p: Pipeline, path: seq<Context>)
    reads p, path
  {
    path != [] && path[|path| - 1] == p.tail && NextPath(path) && forall x :: x in path ==> x in p.Known()
  }

  lemma PathGoesOn(p: Pipeline, path: seq<Context>)
    requires Followable(p, path) && |path| > 1
    ensures Followable(p, path[1..]) && path[0].next == path[1] && path[0] in p.Known()
  {
  }

  lemma DownwardCons(up: seq<Context>, rest: seq<seq<Context>>)
    requires Upward(up) && Downward(rest) && up[0].next == rest[0][0]
    ensures Downward([up] + rest)
  {
    assert ([up] + rest)[1..] == rest;
  }

  lemma DownwardEnd(up: seq<Context>)
    requires Upward(up) && up[0].next == null
    ensures Downward([up] + [])
  {
  }

  /** Every context on the way to the tail has its own way to the head. */
  lemma {:induction false} Unrolled(p: Pipeline, path: seq<Context>) returns (down: seq<seq<Context>>)
    requires p.Valid() && p.StaleValid() && Followable(p, path)
    ensures Downward(down) && Along(down, path, p.head)
    decreases |path|
  {
    var up := PrevReachesHead(p, path[0]);
    if |path| > 1 {
      PathGoesOn(p, path);
      var rest := Unrolled(p, path[1..]);
      DownwardCons(up, rest);
      AlongCons(up, rest, path, p.head);
      down := [up] + rest;
    } else {
      DownwardEnd(up);
      down := [up] + [];
    }
  }

  /** These contexts are visited as often as the scripts say. */
  ghost predicate Counted(trace: seq<Visit<Context>>, on: seq<seq<Seat<Context>>>, xs: set<Context>)
    requires Seated(on)
  {
    forall x :: x in xs ==>
      Count(trace, ReadAt(x)) == ReadVisits(on, x) && Count(trace, ErrorAt(x)) == ReportVisits(on, x)
  }

  lemma AllCounted(on: seq<seq<Seat<Context>>>, xs: set<Context>)
    requires Calm(on)
    ensures !FireRead(on).panicked && Counted(FireRead(on).trace, on, xs)
  {
    PanicsAreContained(on);
    forall x | x in xs
      ensures Count(FireRead(on).trace, ReadAt(x)) == ReadVisits(on, x)
      ensures Count(FireRead(on).trace, ErrorAt(x)) == ReportVisits(on, x)
    {
      ReadsCount(on, x);
    }
  }

  /** Stale contexts still deliver: a read fired from any context ever linked, even from one
      that has been removed since, is delivered along a way to the tail, and errors on that
      way are delivered along ways to the head. */
  method FireReadFrom(p: Pipeline, c: Context)
    returns (trace: seq<Visit<Context>>, panicked: bool, ghost path: seq<Context>, ghost down: seq<seq<Context>>)
    requires p.Valid() && p.StaleValid() && c in p.Known()
    ensures NextPath(path) && path != [] && path[0] == c && path[|path| - 1] == p.tail
    ensures Downward(down) && Along(down, path, p.head)
    ensures Outcome(trace, panicked) == FireRead(AllSeats(down[1..]))
    ensures c != p.tail && Usual(AllSeats(down[1..])) ==>
              var on := AllSeats(down[1..]);
              !panicked && trace == Reads(on, Stop(on) + 1) + Reaction(on, Stop(on))
    ensures Calm(AllSeats(down[1..])) ==> !panicked && Counted(trace, AllSeats(down[1..]), Members(down))
  {
    path := NextReachesTail(p, c);
    down := Unrolled(p, path);
    assert forall x :: x in Members(down) ==> allocated(x);
    trace, panicked := c.FireRead(down);
    if c != p.tail && Usual(AllSeats(down[1..])) { ReadIsDelivered(AllSeats(down[1..])); }
    if Calm(AllSeats(down[1..])) { AllCounted(AllSeats(down[1..]), Members(down)); }
  }

  /** The links leave no choice: there is one way up and one way down from a context. */
  lemma {:induction false} UpwardUnique(a: seq<Context>, b: seq<Context>)
    requires Upward(a) && Upward(b) && a[0] == b[0]
    ensures a == b
    decreases |a|
  {
    if |a| == 1 || |b| == 1 {
      assert |a| == |b| == 1;
    } else {
      UpwardUnique(a[1..], b[1..]);
      assert a == [a[0]] + a[1..] && b == [b[0]] + b[1..];
    }
  }

  lemma {:induction false} DownwardUnique(a: seq<seq<Context>>, b: seq<seq<Context>>)
    requires Downward(a) && Downward(b) && a[0][0] == b[0][0]
    ensures a == b
    decreases |a|
  {
    UpwardUnique(a[0], b[0]);
    if |a| == 1 || |b| == 1 {
      assert |a| == |b| == 1;
    } else {
      DownwardUnique(a[1..], b[1..]);
      assert a == [a[0]] + a[1..] && b == [b[0]] + b[1..];
    }
  }

  lemma {:induction false} ChainDownward(p: Pipeline, i: nat)
    requires p.Valid() && i < |p.chain|
    ensures Downward(WayDown(p.chain, i)) && WayDown(p.chain, i)[0] != [] && WayDown(p.chain, i)[0][0] == p.chain[i]
    decreases |p.chain| - i
  {
    ChainUpward(p, i);
    WayDownCons(p.chain, i);
    if i + 1 < |p.chain| {
      ChainDownward(p, i + 1);
      assert p.chain[i].next == p.chain[i + 1];
      DownwardCons(WayUp(p.chain, i), WayDown(p.chain, i + 1));
    } else {
      DownwardEnd(WayUp(p.chain, i));
    }
  }

  ghost predicate Full(down: seq<seq<Context>>) {
    forall k :: 0 <= k < |down| ==> down[k] != []
  }

  lemma WaysAreFull(cs: seq<Context>, i: nat)
    requires i <= |cs|
    ensures Full(WayDown(cs, i))
  {
    forall k | 0 <= k < |cs| - i ensures WayDown(cs, i)[k] != [] { assert |WayUp(cs, i + k)| > 0; }
  }

  /** Taking the seats of the ways in a list gives the ways in the list of the seats. */
  lemma SeatsDown(cs: seq<Context>, i: nat)
    requires i <= |cs|
    ensures Full(WayDown(cs, i)) && AllSeats(WayDown(cs, i)) == WayDown(Seats(cs), i)
  {
    WaysAreFull(cs, i);
    forall k | 0 <= k < |cs| - i ensures AllSeats(WayDown(cs, i))[k] == WayDown(Seats(cs), i)[k] {
      assert Seats(WayUp(cs, i + k)) == WayUp(Seats(cs), i + k);
    }
  }

  lemma LinkedSeats(cs: seq<Context>, i: nat)
    requires i < |cs|
    ensures Full(WayDown(cs, i)[1..]) && AllSeats(WayDown(cs, i)[1..]) == WayDown(Seats(cs), i + 1)
  {
    assert WayDown(cs, i)[1..] == WayDown(cs, i + 1);
    SeatsDown(cs, i + 1);
  }

  lemma DownFromLinked(cs: seq<Context>, i: nat, n: nat)
    requires i + 1 + n < |cs| && UsualList(Seats(cs)) && i + 1 + n == ListStop(Seats(cs), i + 1)
    ensures Full(WayDown(cs, i)[1..]) && Seated(WayDown(Seats(cs), i + 1))
    ensures FireRead(AllSeats(WayDown(cs, i)[1..])) ==
            Outcome(Reads(WayDown(Seats(cs), i + 1), n + 1) + ListReaction(Seats(cs), i + 1 + n), false)
  {
    assert Full(WayDown(cs, i)[1..]) && AllSeats(WayDown(cs, i)[1..]) == WayDown(Seats(cs), i + 1) by {
      LinkedSeats(cs, i);
    }
    ListDelivery(Seats(cs), i + 1, n);
  }

  /** From a context that is linked, the read goes up the list, past n more handlers that
      pass it on, and an error goes down the list. */
  method FireReadInList(p: Pipeline, c: Context, ghost i: nat)
      returns (trace: seq<Visit<Context>>, panicked: bool, ghost n: nat)
    requires p.Valid() && i + 1 < |p.chain| && p.chain[i] == c && UsualList(Seats(p.chain))
    ensures i + 1 + n < |p.chain| && i + 1 + n == ListStop(Seats(p.chain), i + 1)
    ensures Seated(WayDown(Seats(p.chain), i + 1)) && !panicked
    ensures trace == Reads(WayDown(Seats(p.chain), i + 1), n + 1) + ListReaction(Seats(p.chain), i + 1 + n)
  {
    n := ListStop(Seats(p.chain), i + 1) - i - 1;
    ChainDownward(p, i);
    DownFromLinked(p.chain, i, n);
    trace, panicked := c.FireRead(WayDown(p.chain, i));
  }

  // --------------------------------------------------------------------- runs

  /** The operations that keep the links of what they remove. */
  datatype Op =
    | OpAddLast(e: Entry)
    | OpAddBefore(target: string, e: Entry)
    | OpRemove(handler: Handler)
    | OpRemoveByName(name: string)

  /** Operations on plain handlers, none of them aimed at the head sentinel. */
  predicate Ordinary(op: Op) {
    match op
    case OpAddLast(e) => e.handler.Plain?
    case OpAddBefore(target, e) => e.handler.Plain? && target != HEAD
    case _ => true
  }

  function Perform(v: seq<Entry>, op: Op): seq<Entry> {
    match op
    case OpAddLast(e) => AddedLast(v, e)
    case OpAddBefore(target, e) => AddedBefore(v, target, e)
    case OpRemove(handler) => Without(v, Is(handler))
    case OpRemoveByName(name) => if name == HEAD || name == TAIL then v else Without(v, Named(name))
  }

  function PerformAll(v: seq<Entry>, ops: seq<Op>): seq<Entry>
    decreases |ops|
  {
    if ops == [] then v else PerformAll(Perform(v, ops[0]), ops[1..])
  }

  /** Any sequence of operations refines the sequence operations, and leaves every context
      that was ever linked on a way to the tail and on a way to the head. */
  method RunAll(p: Pipeline, ops: seq<Op>)
    requires p.Valid() && p.StaleValid() && forall op :: op in ops ==> Ordinary(op)
    modifies p, p.chain
    ensures p.Valid() && p.StaleValid() && old(p.Known()) <= p.Known()
    ensures p.Entries() == PerformAll(old(p.Entries()), ops)
  {
    for i := 0 to |ops|
      invariant p.Valid() && p.StaleValid() && old(p.Known()) <= p.Known()
      invariant fresh(set c | c in p.chain && c !in old(p.chain))
      invariant PerformAll(p.Entries(), ops[i..]) == PerformAll(old(p.Entries()), ops)
    {
      assert ops[i] in ops && ops[i..][1..] == ops[i + 1..];
      RunOne(p, ops[i]);
    }
  }

  method RunOne(p: Pipeline, op: Op)
    requires p.Valid() && p.StaleValid() && Ordinary(op)
    modifies p, p.chain
    ensures p.Valid() && p.StaleValid() && old(p.Known()) <= p.Known()
    ensures fresh(set c | c in p.chain && c !in old(p.chain))
    ensures p.Entries() == Perform(old(p.Entries()), op)
    ensures || (p.stale == old(p.stale) && (p.chain == old(p.chain) || Put(old(p.chain), p.chain)))
            || p.Taken(old(p.chain), old(p.stale))
  {
    match op
    case OpAddLast(e) => p.AddLast(e.name, e.handler);
    case OpAddBefore(target, e) =>
      var crashed := p.AddBefore(target, e.name, e.handler);
    case OpRemove(handler) => p.Remove(handler);
    case OpRemoveByName(name) => p.RemoveByName(name);
  }

  // ------------------------------------------------------------- the operations, position by position

  /** AddBefore puts a plain handler right before the first one with the target name, or at the end
      if nobody has that name and it is the tail's; otherwise it changes nothing. */
  lemma AddedBeforeLiterally(v: seq<Entry>, target: string, e: Entry, k: nat)
    requires e.handler.Plain? && k <= |v| && forall i :: 0 <= i < k ==> v[i].name != target
    requires k < |v| ==> v[k].name == target
    ensures var r := AddedBefore(v, target, e);
            if k < |v| || target == "DEFAULT_TAIL_HANDLER_CONTEXT" then
              && |r| == |v| + 1 && r[k] == e
              && (forall i :: 0 <= i < k ==> r[i] == v[i]) && (forall i :: k <= i < |v| ==> r[i + 1] == v[i])
            else r == v
  {
    FirstIndex(v, Named(target), k);
  }

  /** The k-th entry is gone, if there is one, and the others are there in their order. */
  predicate TakesOut(v: seq<Entry>, r: seq<Entry>, k: nat) {
    if k < |v| then
      && |r| == |v| - 1
      && (forall i :: 0 <= i < k && i < |r| ==> r[i] == v[i]) && (forall i :: k <= i < |r| ==> r[i] == v[i + 1])
    else r == v
  }

  /** Removing by name takes out the first entry with that name. */
  lemma WithoutName(v: seq<Entry>, name: string, k: nat)
    requires k <= |v| && (forall i :: 0 <= i < k ==> v[i].name != name) && (k < |v| ==> v[k].name == name)
    ensures TakesOut(v, Without(v, Named(name)), k)
  {
    FirstIndex(v, Named(name), k);
  }

  /** Removing a handler takes out the first entry with that handler. */
  lemma WithoutHandler(v: seq<Entry>, handler: Handler, k: nat)
    requires k <= |v| && (forall i :: 0 <= i < k ==> v[i].handler != handler) && (k < |v| ==> v[k].handler == handler)
    ensures TakesOut(v, Without(v, Is(handler)), k)
  {
    FirstIndex(v, Is(handler), k);
  }

  /** The sentinels' names cannot be removed, and the head's cannot be aimed at. */
  lemma Sentinels(v: seq<Entry>, e: Entry)
    ensures Perform(v, OpRemoveByName("DEFAULT_HEAD_HANDLER_CONTEXT")) == v
    ensures Perform(v, OpRemoveByName("DEFAULT_TAIL_HANDLER_CONTEXT")) == v
    ensures !Ordinary(OpAddBefore("DEFAULT_HEAD_HANDLER_CONTEXT", e))
  {
  }

  // ------------------------------------------------------------- replacement

  /** AddBefore(n) and then RemoveByName(n) puts the new handler into the place of the old
      one, if and only if the new one goes by another name (or they are the same anyway). */
  lemma ReplaceInPlace(v: seq<Entry>, n: string, e: Entry)
    requires e.handler.Plain? && n != HEAD && n != TAIL
    requires IndexOf(v, Named(n)) < |v|
    ensures var k := IndexOf(v, Named(n));
            Perform(Perform(v, OpAddBefore(n, e)), OpRemoveByName(n)) == v[k := e] <==> e.name != n || v[k] == e
  {
    var k := IndexOf(v, Named(n));
    assert Perform(v, OpAddBefore(n, e)) == Inserted(v, k, e);
    if e.name != n { ReplacedByOther(v, n, e); } else { ReplacedBySame(v, n, e); }
    SameUpdate(v, k, e);
  }

  lemma ReplacedByOther(v: seq<Entry>, n: string, e: Entry)
    requires IndexOf(v, Named(n)) < |v| && e.name != n
    ensures var k := IndexOf(v, Named(n)); Without(Inserted(v, k, e), Named(n)) == v[k := e]
  {
    var k := IndexOf(v, Named(n));
    var w := Inserted(v, k, e);
    FirstAfterInsert(v, e, Named(n));
    assert Without(w, Named(n)) == w[..k + 1] + w[k + 2..];
    DropNext(v, k, e);
  }

  lemma ReplacedBySame(v: seq<Entry>, n: string, e: Entry)
    requires IndexOf(v, Named(n)) < |v| && e.name == n
    ensures Without(Inserted(v, IndexOf(v, Named(n)), e), Named(n)) == v
  {
    var k := IndexOf(v, Named(n));
    var w := Inserted(v, k, e);
    FirstAfterInsert(v, e, Named(n));
    assert Without(w, Named(n)) == w[..k] + w[k + 1..];
    DropNeighbour(v, k, e);
  }

  lemma {:induction false} FirstAfterInsert(v: seq<Entry>, e: Entry, key: Key)
    ensures var k := IndexOf(v, key);
            IndexOf(Inserted(v, k, e), key) == if Matches(e, key) then k else k + 1
  {
    var k := IndexOf(v, key);
    if k == 0 {
      assert Inserted(v, 0, e) == [e] + v;
      assert ([e] + v)[1..] == v;
    } else {
      FirstAfterInsert(v[1..], e, key);
      assert Inserted(v, k, e) == [v[0]] + Inserted(v[1..], k - 1, e);
      assert ([v[0]] + Inserted(v[1..], k - 1, e))[1..] == Inserted(v[1..], k - 1, e);
    }
  }

  lemma DropNeighbour(v: seq<Entry>, k: nat, e: Entry)
    requires k < |v|
    ensures var w := Inserted(v, k, e); w[..k] + w[k + 1..] == v
  {
  }

  lemma DropNext(v: seq<Entry>, k: nat, e: Entry)
    requires k < |v|
    ensures var w := Inserted(v, k, e); w[..k + 1] + w[k + 2..] == v[k := e]
  {
  }

  lemma SameUpdate(v: seq<Entry>, k: nat, e: Entry)
    requires k < |v|
    ensures v == v[k := e] <==> v[k] == e
  {
    assert v[k := e][k] == e;
  }

  lemma {:induction false} IndexIsFirst(v: seq<Entry>, key: Key)
    ensures var k := IndexOf(v, key);
            (forall i :: 0 <= i < k ==> !Matches(v[i], key)) && (k < |v| ==> Matches(v[k], key))
  {
    if v != [] && !Matches(v[0], key) {
      IndexIsFirst(v[1..], key);
    }
  }

  // ------------------------------------------------------------- initializers

  /** Everything that gets linked when this entry is added, in order. */
  function Flatten(e: Entry): (r: seq<Entry>)
    ensures r != []
    decreases e, 1
  {
    [e] + match e.handler
          case Plain(_, _) => []
          case Initializer(_, adds) => FlattenAll(adds)
  }

  function FlattenAll(adds: seq<Entry>): seq<Entry>
    decreases adds, 0
  {
    if adds == [] then [] else Flatten(adds[0]) + FlattenAll(adds[1..])
  }

  function Initializers(v: seq<Entry>): nat {
    if v == [] then 0 else (if v[0].handler.Initializer? then 1 else 0) + Initializers(v[1..])
  }

  lemma {:induction false} InitializersConcat(a: seq<Entry>, b: seq<Entry>)
    ensures Initializers(a + b) == Initializers(a) + Initializers(b)
    ensures Initializers(a) <= |a|
  {
    if a == [] {
      assert a + b == b;
    } else {
      assert (a + b)[1..] == a[1..] + b;
      InitializersConcat(a[1..], b);
    }
  }

  /** However deeply initializers are nested, adding one appends everything it brings along
      and drops from the front as many handlers as there are initializers among them. */
  lemma {:induction false} AddedLastClosed(v: seq<Entry>, e: Entry)
    ensures Initializers(Flatten(e)) <= |Flatten(e)|
    ensures AddedLast(v, e) == (v + Flatten(e))[Initializers(Flatten(e))..]
    decreases e, 1
  {
    match e.handler
    case Plain(_, _) =>
      assert Flatten(e) == [e] && Initializers([e]) == 0;
    case Initializer(_, adds) =>
      AddedAllClosed(v + [e], adds);
      InitializerCounts(e, FlattenAll(adds));
      DropOneMore(v, e, FlattenAll(adds), Initializers(FlattenAll(adds)));
  }

  lemma InitializerCounts(e: Entry, rest: seq<Entry>)
    requires e.handler.Initializer?
    ensures Initializers([e] + rest) == 1 + Initializers(rest)
  {
    assert ([e] + rest)[1..] == rest;
  }

  lemma DropOneMore(v: seq<Entry>, e: Entry, rest: seq<Entry>, n: nat)
    requires n <= |rest|
    ensures (v + [e] + rest)[n..][1..] == (v + ([e] + rest))[1 + n..]
  {
    assert v + [e] + rest == v + ([e] + rest);
  }

  lemma {:induction false} AddedAllClosed(v: seq<Entry>, adds: seq<Entry>)
    ensures Initializers(FlattenAll(adds)) <= |FlattenAll(adds)|
    ensures AddedAll(v, adds) == (v + FlattenAll(adds))[Initializers(FlattenAll(adds))..]
    decreases adds, 0
  {
    if adds == [] {
      assert v + [] == v;
    } else {
      var f, rest := Flatten(adds[0]), FlattenAll(adds[1..]);
      AddedLastClosed(v, adds[0]);
      AddedAllClosed(AddedLast(v, adds[0]), adds[1..]);
      InitializersConcat(f, rest);
      DropDrop(v, f, Initializers(f), rest, Initializers(rest));
    }
  }

  lemma DropDrop(v: seq<Entry>, f: seq<Entry>, k: nat, rest: seq<Entry>, l: nat)
    requires k <= |f| && l <= |rest|
    ensures ((v + f)[k..] + rest)[l..] == (v + (f + rest))[k + l..]
  {
    assert (v + f)[k..] + rest == (v + (f + rest))[k..];
  }

  /** Setting up an empty pipeline with an initializer leaves exactly the plain handlers it
      added, in order. */
  lemma InitializerOnEmpty(name: string, id: nat, adds: seq<Entry>)
    requires forall e :: e in adds ==> e.handler.Plain?
    ensures AddedLast([], Entry(name, Initializer(id, adds))) == adds
  {
    var e := Entry(name, Initializer(id, adds));
    AddedAllPlain([e], adds);
    assert [] + [e] == [e] && ([e] + adds)[1..] == adds;
  }

  lemma {:induction false} AddedAllPlain(v: seq<Entry>, adds: seq<Entry>)
    requires forall e :: e in adds ==> e.handler.Plain?
    ensures AddedAll(v, adds) == v + adds
    decreases |adds|
  {
    if adds == [] {
      assert v + adds == v;
    } else {
      assert adds[0] in adds && AddedLast(v, adds[0]) == v + [adds[0]];
      AddedAllPlain(v + [adds[0]], adds[1..]);
      assert v + [adds[0]] + adds[1..] == v + adds;
    }
  }

  /** The initializer disappears from a pipeline of plain handlers if and only if that
      pipeline was empty; otherwise it stays, and the first handler goes in its place. */
  lemma InitializerLeavesIffEmpty(v: seq<Entry>, name: string, id: nat, adds: seq<Entry>)
    requires (forall e :: e in v ==> e.handler.Plain?) && (forall e :: e in adds ==> e.handler.Plain?)
    ensures var e := Entry(name, Initializer(id, adds));
            AddedLast(v, e) == (v + [e] + adds)[1..] && (e !in AddedLast(v, e) <==> v == [])
  {
    var e := Entry(name, Initializer(id, adds));
    AddedAllPlain(v + [e], adds);
    var w := v + [e] + adds;
    if v != [] {
      assert w[1..][|v| - 1] == e;
    } else {
      assert w[1..] == adds;
    }
  }
}
