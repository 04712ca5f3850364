/** The handler pipeline: a doubly linked list of contexts between two sentinels. */
module Pipeline {
  import opened Delivery

  /** A handler: what it does with events, and, if it is an initializer, the handlers it
      adds when it is added, before it removes the first handler of the pipeline. */
  datatype Handler =
    | Plain(id: nat, script: Script)
    | Initializer(id: nat, adds: seq<Entry>)
  {
    function Behaviour(): Script {
      if Plain? then script else PASS
    }
  }

  datatype Entry = Entry(name: string, handler: Handler)

  const HEAD := "DEFAULT_HEAD_HANDLER_CONTEXT"
  const TAIL := "DEFAULT_TAIL_HANDLER_CONTEXT"

  class Context {
    const name: string
    const handler: Handler
    var next: Context?
    var prev: Context?

    constructor (name: string, handler: Handler)
      ensures this.name == name && this.handler == handler && next == null && prev == null
    {
      this.name, this.handler := name, handler;
      next, prev := null, null;
    }

    /** Follows the next link, under a deferred recovery.  The contexts that can be followed
        from here are given by down; nothing is asked of the pipeline they are in, or were. */
    method FireRead(ghost down: seq<seq<Context>>) returns (trace: seq<Visit<Context>>, panicked: bool)
      requires Downward(down) && down[0][0] == this
      ensures Outcome(trace, panicked) == Delivery.FireRead(AllSeats(down[1..]))
      decreases |down|, 1, 0
    {
      trace, panicked := [], false;
      if next != null {
        trace, panicked := next.Read(down[1..]);
        if panicked {
          var caught, again := next.ErrorCaught(down[1]);
          trace, panicked := trace + caught, again;
        }
      }
    }

    /** The Read callback of the handler. */
    method Read(ghost down: seq<seq<Context>>) returns (trace: seq<Visit<Context>>, panicked: bool)
      requires Downward(down) && down[0][0] == this
      ensures Outcome(trace, panicked) == Delivery.Read(AllSeats(down))
      decreases |down|, 3, 0
    {
      trace, panicked := DoReadActs(handler.Behaviour().onRead, down);
      assert AllSeats(down)[1..] == AllSeats(down[1..]) && AllSeats(down)[0][1..] == Seats(down[0][1..]);
      trace := [ReadAt(this)] + trace;
    }

    method DoReadActs(acts: seq<ReadAct>, ghost down: seq<seq<Context>>)
        returns (trace: seq<Visit<Context>>, panicked: bool)
      requires Downward(down) && down[0][0] == this
      ensures Outcome(trace, panicked) == ReadActs(AllSeats(down[1..]), Seats(down[0][1..]), acts)
      decreases |down|, 2, |acts|
    {
      if acts == [] { return [], false; }
      assert forall c :: c in Members(down) ==> allocated(c);
      match acts[0] {
        case FireOn => trace, panicked := FireRead(down);
        case Report => trace, panicked := FireErrorCaught(down[0]);
        case PanicNow => return [], true;
      }
      if !panicked {
        var more;
        more, panicked := DoReadActs(acts[1..], down);
        trace := trace + more;
      }
    }

    /** Follows the prev link, under a deferred recovery. */
    method FireErrorCaught(ghost up: seq<Context>) returns (trace: seq<Visit<Context>>, panicked: bool)
      requires Upward(up) && up[0] == this
      ensures Outcome(trace, panicked) == Delivery.FireErrorCaught(Seats(up[1..]))
      decreases 0, |up|, 1, 0
    {
      trace, panicked := [], false;
      if prev != null {
        trace, panicked := prev.ErrorCaught(up[1..]);
        if panicked {
          var caught, again := prev.ErrorCaught(up[1..]);
          trace, panicked := trace + caught, again;
        }
      }
    }

    /** The ErrorCaught callback of the handler. */
    method ErrorCaught(ghost up: seq<Context>) returns (trace: seq<Visit<Context>>, panicked: bool)
      requires Upward(up) && up[0] == this
      ensures Outcome(trace, panicked) == Delivery.ErrorCaught(Seats(up))
      decreases 0, |up|, 3, 0
    {
      trace, panicked := DoErrorActs(handler.Behaviour().onError, up);
      assert Seats(up)[1..] == Seats(up[1..]);
      trace := [ErrorAt(this)] + trace;
    }

    method DoErrorActs(acts: seq<ErrorAct>, ghost up: seq<Context>) returns (trace: seq<Visit<Context>>, panicked: bool)
      requires Upward(up) && up[0] == this
      ensures Outcome(trace, panicked) == ErrorActs(Seats(up[1..]), acts)
      decreases 0, |up|, 2, |acts|
    {
      if acts == [] { return [], false; }
      if acts[0] == PanicAgain { return [], true; }
      trace, panicked := FireErrorCaught(up);
      if !panicked {
        var more;
        more, panicked := DoErrorActs(acts[1..], up);
        trace := trace + more;
      }
    }
  }

  /** What can be followed from the first of these contexts: prev links, to the end. */
  ghost predicate Upward(up: seq<Context>)
    reads up
    decreases |up|
  {
    up != [] && if |up| == 1 then up[0].prev == null else up[0].prev == up[1] && Upward(up[1..])
  }

  ghost function Members(down: seq<seq<Context>>): (r: set<Context>)
    ensures forall k, c :: 0 <= k < |down| && c in down[k] ==> c in r
  {
    set k, c | 0 <= k < |down| && c in down[k] :: c
  }

  /** Next links, to the end, and from each context the prev links. */
  ghost predicate Downward(down: seq<seq<Context>>)
    reads Members(down)
    ensures Downward(down) ==> forall k :: 0 <= k < |down| ==> down[k] != []
    decreases |down|
  {
    && down != [] && Upward(down[0])
    && if |down| == 1 then down[0][0].next == null
       else down[1] != [] && down[0][0].next == down[1][0] &&
            (assert forall c :: c in Members(down[1..]) ==> c in Members(down); Downward(down[1..]))
  }

  function SeatOf(c: Context): Seat<Context> { Seat(c, c.handler.Behaviour()) }

  function Seats(cs: seq<Context>): seq<Seat<Context>> {
    seq(|cs|, i requires 0 <= i < |cs| => SeatOf(cs[i]))
  }

  function AllSeats(down: seq<seq<Context>>): (r: seq<seq<Seat<Context>>>)
    requires forall k :: 0 <= k < |down| ==> down[k] != []
    ensures Seated(r)
  {
    seq(|down|, k requires 0 <= k < |down| => Seats(down[k]))
  }

  ghost predicate Distinct(cs: seq<Context>) {
    forall i, j :: 0 <= i < j < |cs| ==> cs[i] != cs[j]
  }

  /** Each context knows the next one and the one before. */
  ghost predicate Linked(cs: seq<Context>)
    reads cs
  {
    && (forall i {:trigger cs[i].next} :: 0 <= i < |cs| - 1 ==> cs[i].next == cs[i + 1])
    && (forall i {:trigger cs[i].prev} :: 1 <= i < |cs| ==> cs[i].prev == cs[i - 1])
  }

  /** One context was put in front of the k-th. */
  ghost predicate PutAt(was: seq<Context>, now: seq<Context>, k: nat) {
    1 <= k < |was| && |now| == |was| + 1 && now == was[..k] + [now[k]] + was[k..] && now[k] !in was
  }

  ghost predicate Put(was: seq<Context>, now: seq<Context>) {
    exists k :: PutAt(was, now, k)
  }

  /** The k-th context was taken out. */
  ghost predicate TakenAt(was: seq<Context>, now: seq<Context>, k: nat) {
    1 <= k < |was| - 1 && now == was[..k] + was[k + 1..]
  }

  lemma DistinctInsert(cs: seq<Context>, k: nat, c: Context)
    requires Distinct(cs) && k <= |cs| && c !in cs
    ensures Distinct(cs[..k] + [c] + cs[k..])
    ensures forall x :: x in cs[..k] + [c] + cs[k..] <==> x in cs || x == c
  {
    forall x | x in cs ensures x in cs[..k] + [c] + cs[k..] {
      assert cs == cs[..k] + cs[k..];
    }
  }

  lemma DistinctRemove(cs: seq<Context>, k: nat)
    requires Distinct(cs) && k < |cs|
    ensures Distinct(cs[..k] + cs[k + 1..]) && forall c :: c in cs[..k] + cs[k + 1..] <==> c in cs && c != cs[k]
  {
    forall c | c in cs && c != cs[k] ensures c in cs[..k] + cs[k + 1..] {
      var i :| 0 <= i < |cs| && cs[i] == c;
      if i < k { assert cs[..k][i] == c; } else { assert cs[k + 1..][i - k - 1] == c; }
    }
  }

  // The next lemmas: the links of cs are in order but for one in each direction.

  lemma LinkedInsert(cs: seq<Context>, k: nat, c: Context)
    requires 1 <= k < |cs|
    requires forall i {:trigger cs[i].next} :: 0 <= i < |cs| - 1 && i != k - 1 ==> cs[i].next == cs[i + 1]
    requires forall i {:trigger cs[i].prev} :: 1 <= i < |cs| && i != k ==> cs[i].prev == cs[i - 1]
    requires c.next == cs[k] && c.prev == cs[k - 1] && cs[k].prev == c && cs[k - 1].next == c
    ensures Linked(cs[..k] + [c] + cs[k..])
  {
    var d := cs[..k] + [c] + cs[k..];
    forall i | 0 <= i < |d| - 1 ensures d[i].next == d[i + 1] {
      if i < k - 1 { assert d[i] == cs[i]; } else if i > k { assert d[i] == cs[i - 1]; }
    }
    forall i | 1 <= i < |d| ensures d[i].prev == d[i - 1] {
      if i < k { assert d[i] == cs[i]; } else if i > k + 1 { assert d[i] == cs[i - 1]; }
    }
  }

  lemma LinkedRemove(cs: seq<Context>, k: nat)
    requires 1 <= k < |cs| - 1
    requires forall i {:trigger cs[i].next} :: 0 <= i < |cs| - 1 && i != k - 1 ==> cs[i].next == cs[i + 1]
    requires forall i {:trigger cs[i].prev} :: 1 <= i < |cs| && i != k + 1 ==> cs[i].prev == cs[i - 1]
    requires cs[k - 1].next == cs[k + 1] && cs[k + 1].prev == cs[k - 1]
    ensures Linked(cs[..k] + cs[k + 1..])
  {
    var d := cs[..k] + cs[k + 1..];
    forall i | 0 <= i < |d| - 1 ensures d[i].next == d[i + 1] {
      if i < k - 1 { assert d[i] == cs[i]; } else if i > k - 1 { assert d[i] == cs[i + 1]; }
    }
    forall i | 1 <= i < |d| ensures d[i].prev == d[i - 1] {
      if i < k { assert d[i] == cs[i]; } else if i > k { assert d[i] == cs[i + 1]; }
    }
  }

  class Pipeline {
    const head: Context
    const tail: Context
    /** The contexts from head to tail. */
    ghost var chain: seq<Context>
    /** The contexts that were removed and kept their links, oldest removal first. */
    ghost var stale: seq<Context>

    /** Doubly linked, acyclic, and closed by the sentinels. */
    ghost predicate Valid()
      reads this, chain
    {
      && |chain| >= 2 && chain[0] == head && chain[|chain| - 1] == tail
      && Distinct(chain) && Linked(chain) && head.prev == null && tail.next == null
      && head.name == HEAD && tail.name == TAIL
    }

    /** A removed context still points to one that is linked, or was removed later. */
    ghost predicate StaleValid()
      reads this, chain, stale
    {
      && (forall i :: 0 <= i < |stale| ==> stale[i] !in chain)
      && (forall i, j :: 0 <= i < j < |stale| ==> stale[i] != stale[j])
      && (forall i {:trigger stale[i].next} :: 0 <= i < |stale| ==>
         stale[i].next in chain || stale[i].next in stale[i + 1..])
      && (forall i {:trigger stale[i].prev} :: 0 <= i < |stale| ==>
         stale[i].prev in chain || stale[i].prev in stale[i + 1..])
    }

    /** Everything that can still be followed: linked now, or removed with its links kept. */
    ghost function Known(): set<Context>
      reads this
    {
      (set c | c in chain) + (set c | c in stale)
    }

    /** The user contexts. */
    ghost function Nodes(): seq<Context>
      requires |chain| >= 2
      reads this
    {
      chain[1..|chain| - 1]
    }

    /** One context was taken out, and its links were left as they were. */
    ghost predicate Taken(chainWas: seq<Context>, staleWas: seq<Context>)
      reads this, chainWas
    {
      exists k: nat :: TakenAt(chainWas, chain, k) && stale == staleWas + [chainWas[k]] &&
             chainWas[k].next == chainWas[k + 1] && chainWas[k].prev == chainWas[k - 1]
    }

    constructor ()
      ensures Valid() && StaleValid() && Nodes() == [] && stale == [] && fresh(chain)
    {
      var h := new Context(HEAD, Plain(0, HEAD_SCRIPT));
      var t := new Context(TAIL, Plain(0, TAIL_SCRIPT));
      h.next := t;
      t.prev := h;
      head, tail := h, t;
      chain, stale := [h, t], [];
    }

    /** What the pipeline holds, in order. */
    ghost function Entries(): (r: seq<Entry>)
      requires |chain| >= 2
      reads this, chain
      ensures |r| == |chain| - 2
    {
      View(Nodes())
    }

    /** Links ctx in front of the target. */
    method LinkBefore(ctx: Context, target: Context, ghost k: nat)
      requires Valid() && 1 <= k < |chain| && chain[k] == target && ctx !in chain
      modifies this`chain, ctx, chain
      ensures Valid() && chain == old(chain)[..k] + [ctx] + old(chain)[k..]
      ensures old(StaleValid()) && ctx !in stale ==> StaleValid()
      ensures Known() == old(Known()) + {ctx}
    {
      DistinctInsert(chain, k, ctx);
      ctx.next := target;
      ctx.prev := target.prev;
      ctx.next.prev := ctx;
      ctx.prev.next := ctx;
      LinkedInsert(chain, k, ctx);
      chain := chain[..k] + [ctx] + chain[k..];
    }

    /** Takes ctx out of the list; its own links stay as they are. */
    method Unlink(ctx: Context, ghost k: nat)
      requires Valid() && 1 <= k < |chain| - 1 && chain[k] == ctx
      modifies this`chain, this`stale, chain
      ensures Valid() && chain == old(chain)[..k] + old(chain)[k + 1..]
      ensures stale == old(stale) + [ctx]
      ensures ctx.next == old(ctx.next) && ctx.prev == old(ctx.prev)
      ensures old(StaleValid()) ==> StaleValid()
      ensures Known() == old(Known())
    {
      DistinctRemove(chain, k);
      ctx.next.prev := ctx.prev;
      ctx.prev.next := ctx.next;
      LinkedRemove(chain, k);
      chain, stale := chain[..k] + chain[k + 1..], stale + [ctx];
      if old(StaleValid()) { StaleAfterUnlink(ctx); }
    }

    twostate lemma StaleAfterUnlink(ctx: Context)
      requires old(StaleValid()) && stale == old(stale) + [ctx]
      requires ctx in old(chain) && forall c :: c in chain <==> c in old(chain) && c != ctx
      requires ctx.next in chain && ctx.prev in chain
      requires forall c :: c in old(stale) ==> unchanged(c)
      ensures StaleValid()
    {
      forall i | 0 <= i < |stale|
        ensures stale[i].next in chain || stale[i].next in stale[i + 1..]
        ensures stale[i].prev in chain || stale[i].prev in stale[i + 1..]
      {
        if i < |old(stale)| {
          assert stale[i] in old(stale) && stale[i + 1..] == old(stale)[i + 1..] + [ctx];
        }
      }
    }

    /** Appends a handler and tells it so. */
    method AddLast(name: string, elem: Handler)
      requires Valid()
      modifies this, chain
      ensures Valid() && fresh(set c | c in chain && c !in old(chain))
      ensures Entries() == AddedLast(old(Entries()), Entry(name, elem))
      ensures elem.Plain? ==> old(Known()) <= Known() && (old(StaleValid()) ==> StaleValid())
      ensures elem.Plain? ==> Put(old(chain), chain) && stale == old(stale)
      decreases elem, 1
    {
      AppendNew(name, elem);
      Added(elem);
    }

    method AppendNew(name: string, elem: Handler)
      requires Valid()
      modifies this`chain, chain
      ensures Valid() && fresh(set c | c in chain && c !in old(chain))
      ensures Entries() == old(Entries()) + [Entry(name, elem)]
      ensures old(Known()) <= Known() && (old(StaleValid()) ==> StaleValid())
      ensures Put(old(chain), chain) && stale == old(stale)
    {
      var ctx := new Context(name, elem);
      Append(ctx);
      assert PutAt(old(chain), chain, |old(chain)| - 1);
    }

    /** Links ctx in front of the tail. */
    method Append(ctx: Context)
      requires Valid() && ctx !in chain && ctx !in stale
      modifies this`chain, ctx, chain
      ensures Valid() && chain == old(chain)[..|old(chain)| - 1] + [ctx] + old(chain)[|old(chain)| - 1..]
      ensures Entries() == old(Entries()) + [Entry(ctx.name, ctx.handler)]
      ensures old(StaleValid()) ==> StaleValid()
      ensures Known() == old(Known()) + {ctx}
    {
      LinkBefore(ctx, tail, |chain| - 1);
      ViewAppend(old(chain), ctx);
    }

    /** The handler's Added callback. */
    method Added(elem: Handler)
      requires Valid() && |chain| > 2
      modifies this, chain
      ensures Valid() && fresh(set c | c in chain && c !in old(chain))
      ensures Entries() == AfterAdded(old(Entries()), elem)
      ensures elem.Plain? ==> chain == old(chain) && stale == old(stale) && (old(StaleValid()) ==> StaleValid())
      decreases elem, 0
    {
      match elem
      case Plain(_, _) =>
      case Initializer(_, adds) =>
        for i := 0 to |adds|
          invariant Valid() && fresh(set c | c in chain && c !in old(chain))
          invariant |Entries()| > 0 && AddedAll(Entries(), adds[i..]) == AddedAll(old(Entries()), adds)
        {
          AddLast(adds[i].name, adds[i].handler);
        }
        RemoveFirst();
    }

    /** Drops the first handler and clears its links.  On a pipeline without handlers it
        hits the tail sentinel instead, which loses its way back to the head. */
    method RemoveFirst()
      requires Valid()
      modifies this, chain
      ensures |old(chain)| > 2 ==> Valid() && chain == [head] + old(chain)[2..] && stale == old(stale)
      ensures |old(chain)| > 2 ==> Entries() == old(Entries())[1..]
      ensures |old(chain)| > 2 ==> old(chain)[1].next == null && old(chain)[1].prev == null
      ensures |old(chain)| == 2 ==> chain == old(chain) && tail.prev == null && !Valid()
    {
      var first := head.next;
      if first.next != null {
        first.next.prev := head;
        head.next := first.next;
        ViewTail(chain, head);
        chain := [head] + chain[2..];
      }
      first.next := null;
      first.prev := null;
    }

    /** Walks from the head to the first context with this name; null if there is none. */
    method FindByName(name: string) returns (found: Context?, ghost k: nat)
      requires Valid()
      ensures k <= |chain| && found == (if k < |chain| then chain[k] else null)
      ensures forall i :: 0 <= i < k ==> chain[i].name != name
      ensures k < |chain| ==> chain[k].name == name
      ensures if found == null then forall c :: c in chain ==> c.name != name else found in chain && found.name == name
    {
      found, k := head, 0;
      while found != null && found.name != name
        invariant k <= |chain| && found == (if k < |chain| then chain[k] else null)
        invariant forall i :: 0 <= i < k ==> chain[i].name != name
        decreases |chain| - k
      {
        found, k := found.next, k + 1;
      }
    }

    /** Inserts a handler in front of the first one with the target name.  Aiming at the
        head sentinel crashes half-way and leaves the list damaged. */
    method AddBefore(target: string, name: string, elem: Handler) returns (crashed: bool)
      requires Valid()
      modifies this, chain
      ensures crashed <==> target == HEAD
      ensures crashed ==> chain == old(chain) && !Valid()
      ensures crashed ==> head.prev != null && fresh(head.prev) && head.prev !in chain && head.prev.next == head
      ensures !crashed ==> Valid() && fresh(set c | c in chain && c !in old(chain))
      ensures !crashed ==> Entries() == AddedBefore(old(Entries()), target, Entry(name, elem))
      ensures !crashed && elem.Plain? ==> old(Known()) <= Known() && (old(StaleValid()) ==> StaleValid())
      ensures !crashed && elem.Plain? ==> (chain == old(chain) || Put(old(chain), chain)) && stale == old(stale)
    {
      ghost var v := Entries();
      var targetCtx, k := FindByName(target);
      NamesAgree(target, k);
      if targetCtx == null {
        return false;
      }
      if targetCtx.prev == null {
        LinkOneWay(name, elem);
        return true;
      }
      AddedBeforeAt(v, target, Entry(name, elem), k - 1);
      AddInFrontOf(targetCtx, name, elem, k);
      crashed := false;
    }

    method AddInFrontOf(target: Context, name: string, elem: Handler, ghost k: nat)
      requires Valid() && 1 <= k < |chain| && chain[k] == target
      modifies this, chain
      ensures Valid() && fresh(set c | c in chain && c !in old(chain))
      ensures Entries() == AfterAdded(Inserted(old(Entries()), k - 1, Entry(name, elem)), elem)
      ensures elem.Plain? ==> old(Known()) <= Known() && (old(StaleValid()) ==> StaleValid())
      ensures elem.Plain? ==> Put(old(chain), chain) && stale == old(stale)
    {
      InsertNew(name, elem, target, k);
      Added(elem);
    }

    /** In front of the head there is nothing to link to: the new context is linked one way
        only, and the source crashes. */
    method LinkOneWay(name: string, elem: Handler)
      requires Valid()
      modifies head
      ensures head.prev != null && fresh(head.prev) && head.prev !in chain && head.prev.next == head && !Valid()
    {
      var ctx := new Context(name, elem);
      ctx.next := head;
      head.prev := ctx;
    }

    method InsertBefore(ctx: Context, target: Context, ghost k: nat)
      requires Valid() && 1 <= k < |chain| && chain[k] == target && ctx !in Known()
      modifies this`chain, ctx, chain
      ensures Valid() && chain == old(chain)[..k] + [ctx] + old(chain)[k..]
      ensures Entries() == Inserted(old(Entries()), k - 1, Entry(ctx.name, ctx.handler))
      ensures old(Known()) <= Known() && (old(StaleValid()) ==> StaleValid())
    {
      ghost var was := chain;
      LinkBefore(ctx, target, k);
      ViewInsert(was, chain, k, ctx);
    }

    /** A new context in front of the target, which is not the head. */
    method InsertNew(name: string, elem: Handler, target: Context, ghost k: nat)
      requires Valid() && 1 <= k < |chain| && chain[k] == target
      modifies this`chain, chain
      ensures Valid() && fresh(set c | c in chain && c !in old(chain))
      ensures Entries() == Inserted(old(Entries()), k - 1, Entry(name, elem))
      ensures old(Known()) <= Known() && (old(StaleValid()) ==> StaleValid())
      ensures Put(old(chain), chain) && stale == old(stale)
    {
      var ctx := new Context(name, elem);
      InsertBefore(ctx, target, k);
      assert PutAt(old(chain), chain, k);
    }

    /** Finding a name among the contexts is finding it among the entries. */
    lemma NamesAgree(name: string, k: nat)
      requires Valid() && k <= |chain|
      requires forall i :: 0 <= i < k ==> chain[i].name != name
      requires k < |chain| ==> chain[k].name == name
      ensures k == 0 <==> name == HEAD
      ensures k > 0 ==> IndexOf(Entries(), Named(name)) == if k - 1 < |Entries()| then k - 1 else |Entries()|
      ensures k == |chain| - 1 ==> name == TAIL
      ensures k == |chain| ==> name != TAIL
    {
      if k > 0 {
        FirstIndex(Entries(), Named(name), if k - 1 < |Entries()| then k - 1 else |Entries()|);
      }
    }

    /** The first k contexts are not what is looked for. */
    lemma Passed(key: Key, k: nat)
      requires Valid() && 1 <= k < |chain|
      requires forall i :: 1 <= i < k ==> !Matches(Entry(chain[i].name, chain[i].handler), key)
      ensures forall i :: 0 <= i < k - 1 ==> !Matches(Entries()[i], key)
    {
      forall i | 0 <= i < k - 1 ensures !Matches(Entries()[i], key) {
        assert Entries()[i] == Entry(chain[i + 1].name, chain[i + 1].handler);
      }
    }

    /** Removes the first handler that is this one. */
    method Remove(elem: Handler)
      requires Valid()
      modifies this, chain
      ensures Valid() && Entries() == Without(old(Entries()), Is(elem))
      ensures (chain == old(chain) && stale == old(stale)) || Taken(old(chain), old(stale))
      ensures fresh(set c | c in chain && c !in old(chain))
      ensures Known() == old(Known()) && (old(StaleValid()) ==> StaleValid())
    {
      var final: Context? := head.next;
      ghost var k := 1;
      while final != null && final != tail
        invariant 1 <= k < |chain| && final == chain[k]
        invariant forall i :: 1 <= i < k ==> chain[i].handler != elem
        invariant Valid() && chain == old(chain) && stale == old(stale) && (old(StaleValid()) ==> StaleValid())
        decreases |chain| - k
      {
        if final.handler == elem {
          Passed(Is(elem), k);
          WithoutFirst(Entries(), Is(elem), k - 1);
          DropNode(final, k);
          return;
        }
        final, k := final.next, k + 1;
      }
      assert k == |chain| - 1;
      Passed(Is(elem), k);
      WithoutFirst(Entries(), Is(elem), |Entries()|);
    }

    method DropNode(ctx: Context, ghost k: nat)
      requires Valid() && 1 <= k < |chain| - 1 && chain[k] == ctx
      modifies this`chain, this`stale, chain
      ensures Valid() && Entries() == old(Entries())[..k - 1] + old(Entries())[k..]
      ensures Taken(old(chain), old(stale))
      ensures fresh(set c | c in chain && c !in old(chain))
      ensures old(StaleValid()) ==> StaleValid()
      ensures Known() == old(Known())
    {
      Unlink(ctx, k);
      ViewRemove(old(chain), k);
      assert TakenAt(old(chain), chain, k);
    }

    /** Removes the first handler with this name; the sentinels cannot be removed. */
    method RemoveByName(name: string)
      requires Valid()
      modifies this, chain
      ensures Valid()
      ensures Entries() == if name == HEAD || name == TAIL then old(Entries())
                           else Without(old(Entries()), Named(name))
      ensures (chain == old(chain) && stale == old(stale)) || Taken(old(chain), old(stale))
      ensures fresh(set c | c in chain && c !in old(chain))
      ensures Known() == old(Known()) && (old(StaleValid()) ==> StaleValid())
    {
      var final: Context? := head.next;
      ghost var k := 1;
      while final != null
        invariant 1 <= k <= |chain| && final == (if k < |chain| then chain[k] else null)
        invariant name != HEAD && name != TAIL ==> forall i :: 1 <= i < k ==> chain[i].name != name
        invariant Valid() && chain == old(chain) && stale == old(stale) && (old(StaleValid()) ==> StaleValid())
        decreases |chain| - k
      {
        if final.name == name && name != HEAD && name != TAIL {
          WithoutFirst(Entries(), Named(name), k - 1);
          DropNode(final, k);
          return;
        }
        final, k := final.next, k + 1;
      }
      if name != HEAD && name != TAIL {
        WithoutFirst(Entries(), Named(name), |Entries()|);
      }
    }

    /** Forgets all handlers at once. */
    method Clear()
      requires Valid()
      modifies this, chain
      ensures Valid() && Entries() == []
    {
      if head.next != null {
        head.next.prev := null;
      }
      if tail.prev != null {
        tail.prev.next := null;
      }
      head.next := tail;
      tail.prev := head;
      chain := [head, tail];
    }
  }

  function View(nodes: seq<Context>): (r: seq<Entry>)
    ensures |r| == |nodes| && forall i :: 0 <= i < |nodes| ==> r[i] == Entry(nodes[i].name, nodes[i].handler)
  {
    seq(|nodes|, i requires 0 <= i < |nodes| => Entry(nodes[i].name, nodes[i].handler))
  }

  lemma ViewInsert(chain: seq<Context>, after: seq<Context>, k: nat, ctx: Context)
    requires 1 <= k < |chain| && after == chain[..k] + [ctx] + chain[k..]
    ensures View(after[1..|after| - 1]) == Inserted(View(chain[1..|chain| - 1]), k - 1, Entry(ctx.name, ctx.handler))
  {
    var nodes := chain[1..|chain| - 1];
    assert after[1..|after| - 1] == nodes[..k - 1] + [ctx] + nodes[k - 1..];
    ViewConcat(nodes[..k - 1] + [ctx], nodes[k - 1..]);
    ViewConcat(nodes[..k - 1], [ctx]);
    ViewSplit(nodes, k - 1);
  }

  lemma ViewAppend(chain: seq<Context>, ctx: Context)
    requires 2 <= |chain|
    ensures var after := chain[..|chain| - 1] + [ctx] + chain[|chain| - 1..];
            View(after[1..|after| - 1]) == View(chain[1..|chain| - 1]) + [Entry(ctx.name, ctx.handler)]
  {
    var after := chain[..|chain| - 1] + [ctx] + chain[|chain| - 1..];
    assert after[1..|after| - 1] == chain[1..|chain| - 1] + [ctx];
    ViewConcat(chain[1..|chain| - 1], [ctx]);
  }

  lemma ViewTail(chain: seq<Context>, head: Context)
    requires 2 < |chain|
    ensures var after := [head] + chain[2..];
            View(after[1..|after| - 1]) == View(chain[1..|chain| - 1])[1..]
  {
    var after := [head] + chain[2..];
    assert after[1..|after| - 1] == chain[1..|chain| - 1][1..];
    ViewSplit(chain[1..|chain| - 1], 1);
  }

  lemma ViewRemove(chain: seq<Context>, k: nat)
    requires 1 <= k < |chain| - 1
    ensures var after := chain[..k] + chain[k + 1..];
            var v := View(chain[1..|chain| - 1]);
            View(after[1..|after| - 1]) == v[..k - 1] + v[k..]
  {
    var after := chain[..k] + chain[k + 1..];
    var nodes := chain[1..|chain| - 1];
    assert after[1..|after| - 1] == nodes[..k - 1] + nodes[k..];
    ViewConcat(nodes[..k - 1], nodes[k..]);
    ViewSplit(nodes, k - 1);
    ViewSplit(nodes, k);
  }

  lemma ViewConcat(a: seq<Context>, b: seq<Context>)
    ensures View(a + b) == View(a) + View(b)
  {
  }

  lemma ViewSplit(a: seq<Context>, k: nat)
    requires k <= |a|
    ensures View(a[..k]) == View(a)[..k] && View(a[k..]) == View(a)[k..]
  {
  }

  // -------------------------------------------------- the sequence operations

  function AddedLast(v: seq<Entry>, e: Entry): (r: seq<Entry>)
    ensures |r| >= |v|
    decreases e, 0
  {
    AfterAdded(v + [e], e.handler)
  }

  function AfterAdded(v: seq<Entry>, h: Handler): (r: seq<Entry>)
    requires v != []
    ensures |r| >= |v| - 1
    decreases h, 1
  {
    match h
    case Plain(_, _) => v
    case Initializer(_, adds) => AddedAll(v, adds)[1..]
  }

  function AddedAll(v: seq<Entry>, adds: seq<Entry>): (r: seq<Entry>)
    ensures |r| >= |v|
    decreases adds, 2
  {
    if adds == [] then v else AddedAll(AddedLast(v, adds[0]), adds[1..])
  }

  /** What an operation looks for. */
  datatype Key = Named(name: string) | Is(handler: Handler)

  predicate Matches(e: Entry, key: Key) {
    match key
    case Named(name) => e.name == name
    case Is(handler) => e.handler == handler
  }

  function Inserted(v: seq<Entry>, k: nat, e: Entry): seq<Entry>
    requires k <= |v|
  {
    v[..k] + [e] + v[k..]
  }

  /** The first position that matches the key, or the length. */
  function IndexOf(v: seq<Entry>, key: Key): (k: nat)
    ensures k <= |v|
  {
    if v == [] || Matches(v[0], key) then 0 else 1 + IndexOf(v[1..], key)
  }

  lemma {:induction false} FirstIndex(v: seq<Entry>, key: Key, k: nat)
    requires k <= |v| && (forall i :: 0 <= i < k ==> !Matches(v[i], key)) && (k < |v| ==> Matches(v[k], key))
    ensures IndexOf(v, key) == k
  {
    if k > 0 {
      FirstIndex(v[1..], key, k - 1);
    }
  }

  /** A name that only the tail sentinel carries stands for the end of the pipeline. */
  function AddedBefore(v: seq<Entry>, target: string, e: Entry): seq<Entry> {
    var k := IndexOf(v, Named(target));
    if k < |v| || target == TAIL then AfterAdded(Inserted(v, k, e), e.handler) else v
  }

  lemma AddedBeforeAt(v: seq<Entry>, target: string, e: Entry, k: nat)
    requires IndexOf(v, Named(target)) == (if k < |v| then k else |v|) && k <= |v| && (k == |v| ==> target == TAIL)
    ensures AddedBefore(v, target, e) == AfterAdded(Inserted(v, k, e), e.handler)
  {
  }

  function Without(v: seq<Entry>, key: Key): seq<Entry> {
    var k := IndexOf(v, key);
    if k < |v| then v[..k] + v[k + 1..] else v
  }

  lemma WithoutFirst(v: seq<Entry>, key: Key, k: nat)
    requires k <= |v| && (forall i :: 0 <= i < k ==> !Matches(v[i], key)) && (k < |v| ==> Matches(v[k], key))
    ensures Without(v, key) == if k < |v| then v[..k] + v[k + 1..] else v
  {
    FirstIndex(v, key, k);
  }
}
