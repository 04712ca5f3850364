/** Every shutdown comes to rest: once nobody arrives any more, every step of a callback or
    of the cascade lowers a rank, and a state in which nothing moves is always within reach. */
module ShutdownTermination {
  import opened Shutdown

  /** A step of a callback or of the cascade; callers and newcomers come from outside. */
  predicate Internal(e: Event) {
    !e.Derive? && !e.Activate? && !e.Deactivate?
  }

  function Below(n: nat): (r: set<nat>)
    ensures |r| == n && forall c: nat :: c in r <==> c < n
  {
    if n == 0 then {} else Below(n - 1) + {n - 1}
  }

  /** How many of n channels an iteration has still to visit. */
  function Ahead(n: nat, visited: set<nat>): nat {
    |Below(n) - visited|
  }

  lemma VisitOne(n: nat, visited: set<nat>, c: nat)
    requires c < n && c !in visited
    ensures Ahead(n, visited + {c}) == Ahead(n, visited) - 1
  {
    assert Below(n) - visited == (Below(n) - (visited + {c})) + {c};
  }

  lemma VisitNone(n: nat)
    ensures Ahead(n, {}) == n
  {
    assert Below(n) - {} == Below(n);
  }

  function CallbackRank(cb: Callback, n: nat): nat {
    match cb
    case NotStarted => 2 * n + 9
    case Begin => 2 * n + 8
    case Range(visited) => 2 * Ahead(n, visited) + 7
    case Await(visited, child) => 2 * Ahead(n, visited + {child}) + 8
    case FireInactive => 6
    case FireUnregistered => 5
    case CompleteClose => 4
    case Release => 3
    case RefuseUnregistered => 2
    case _ => 0
  }

  function CascadeRank(cs: Cascade, n: nat): nat {
    match cs
    case Idle => 2 * n + 3
    case Ranging(_, visited) => 2 * Ahead(n, visited) + 1
    case Entering(_, visited, _) => 2 * Ahead(n, visited) + 2
    case CascadeDone => 0
  }

  function SumRanks(chans: seq<Chan>, n: nat): nat {
    if chans == [] then 0 else CallbackRank(chans[0].callback, n) + SumRanks(chans[1..], n)
  }

  function Rank(s: State): nat {
    SumRanks(s.chans, |s.chans|) + CascadeRank(s.cascade, |s.chans|)
  }

  lemma {:induction false} SumUpdate(chans: seq<Chan>, c: nat, ch: Chan, n: nat)
    requires c < |chans|
    ensures SumRanks(chans[c := ch], n) + CallbackRank(chans[c].callback, n) ==
            SumRanks(chans, n) + CallbackRank(ch.callback, n)
  {
    if c == 0 {
      assert chans[0 := ch][1..] == chans[1..];
    } else {
      assert chans[c := ch][1..] == chans[1..][c - 1 := ch];
      SumUpdate(chans[1..], c - 1, ch, n);
    }
  }

  // ------------------------------------------------- every step lowers the rank

  lemma MovedLowers(ch: Chan, server: bool, n: nat)
    requires InPlan(ch, server) && !ch.callback.NotStarted? && !ch.callback.Finished? && !ch.callback.RefuseFinished?
    ensures CallbackRank(Moved(ch, server).callback, n) < CallbackRank(ch.callback, n)
  {
    VisitNone(n);
  }

  lemma DeactivatedLowers(ch: Chan, server: bool, n: nat)
    requires InPlan(ch, server)
    ensures CallbackRank(Deactivated(ch, server).callback, n) <= CallbackRank(ch.callback, n)
  {
  }

  lemma ProceedLowers(s: State, c: nat)
    requires Inv(s) && Enabled(s, Proceed(c))
    ensures |ProceedStep(s, c).chans| == |s.chans| && Rank(ProceedStep(s, c)) < Rank(s)
  {
    var ch := s.chans[c];
    assert InPlan(ch, c == 0);
    MovedLowers(ch, c == 0, |s.chans|);
    SumUpdate(s.chans, c, Moved(ch, c == 0), |s.chans|);
  }

  lemma PickedIsAhead(s: State, child: nat)
    requires Inv(s) && Enabled(s, Pick(child))
    ensures child < |s.chans| && s.chans[0].callback.Range? && child !in s.chans[0].callback.visited
  {
  }

  lemma PickLowers(s: State, child: nat)
    requires Inv(s) && Enabled(s, Pick(child))
    ensures |Apply(s, Pick(child)).chans| == |s.chans| && Rank(Apply(s, Pick(child))) < Rank(s)
  {
    PickedIsAhead(s, child);
    WaitLowers(s.chans, child, |s.chans|);
  }

  lemma WaitLowers(chans: seq<Chan>, child: nat, n: nat)
    requires chans != [] && chans[0].callback.Range? && child < n && child !in chans[0].callback.visited
    ensures SumRanks(chans[0 := chans[0].(callback := Await(chans[0].callback.visited, child))], n) < SumRanks(chans, n)
  {
    var visited := chans[0].callback.visited;
    VisitOne(n, visited, child);
    SumUpdate(chans, 0, chans[0].(callback := Await(visited, child)), n);
  }

  lemma CascadeLowers(s: State, e: Event)
    requires Inv(s) && Enabled(s, e) && (e.CascadeBegin? || e.CascadePick? || e.CascadeEnd?)
    ensures |Apply(s, e).chans| == |s.chans| && Rank(Apply(s, e)) < Rank(s)
  {
    match e
    case CascadeBegin => VisitNone(|s.chans|);
    case CascadePick(child) => CascadePickLowers(s.cascade, child, s.chans[child].alive == Up, |s.chans|);
    case _ =>
  }

  lemma CascadePickLowers(cs: Cascade, child: nat, up: bool, n: nat)
    requires cs.Ranging? && child !in cs.visited && child < n
    ensures var visited := cs.visited + {child};
            CascadeRank(if up then Entering(cs.start, visited, child) else Ranging(cs.start, visited), n) <
            CascadeRank(cs, n)
  {
    VisitOne(n, cs.visited, child);
  }

  lemma EnterLowers(s: State)
    requires Inv(s) && Enabled(s, CascadeEnter)
    ensures |Apply(s, CascadeEnter).chans| == |s.chans| && Rank(Apply(s, CascadeEnter)) < Rank(s)
  {
    var c := s.cascade.child;
    assert InPlan(s.chans[c], c == 0);
    DeactivatedLowers(s.chans[c], c == 0, |s.chans|);
    SumUpdate(s.chans, c, Deactivated(s.chans[c], c == 0), |s.chans|);
  }

  /** Every internal step lowers the rank, and a deactivation from outside does not raise it. */
  lemma EventLowers(s: State, e: Event)
    requires Inv(s) && Enabled(s, e) && !e.Derive? && !e.Activate?
    ensures Rank(Apply(s, e)) + (if Internal(e) then 1 else 0) <= Rank(s)
  {
    match e
    case Proceed(c) => ProceedLowers(s, c);
    case Pick(child) => PickLowers(s, child);
    case CascadeEnter => EnterLowers(s);
    case Deactivate(c) =>
      assert InPlan(s.chans[c], c == 0);
      DeactivatedLowers(s.chans[c], c == 0, |s.chans|);
      SumUpdate(s.chans, c, Deactivated(s.chans[c], c == 0), |s.chans|);
    case _ => CascadeLowers(s, e);
  }

  function Moves(es: seq<Event>): nat {
    if es == [] then 0 else (if Internal(es[0]) then 1 else 0) + Moves(es[1..])
  }

  /** However often the channels are deactivated from outside, callbacks and cascade make no
      more steps than the rank allows. */
  lemma {:induction false} BoundedShutdown(s: State, es: seq<Event>)
    requires Inv(s) && IsRun(s, es) && NoNewcomers(es)
    ensures Moves(es) + Rank(After(s, es)) <= Rank(s)
    decreases |es|
  {
    if es != [] {
      EventLowers(s, es[0]);
      InvStep(s, es[0]);
      assert forall i :: 0 <= i < |es[1..]| ==> es[1..][i] == es[i + 1];
      BoundedShutdown(Apply(s, es[0]), es[1..]);
    }
  }

  // ------------------------------------------------- and a state at rest is reached

  predicate AllInternal(es: seq<Event>) {
    forall i :: 0 <= i < |es| ==> Internal(es[i])
  }

  lemma NextMove(s: State) returns (e: Event)
    requires |s.chans| > 0 && !Stuck(s)
    ensures Internal(e) && Enabled(s, e)
  {
    if c: nat :| Enabled(s, Proceed(c)) {
      e := Proceed(c);
    } else if c: nat :| Enabled(s, Pick(c)) {
      e := Pick(c);
    } else if c: nat :| Enabled(s, CascadePick(c)) {
      e := CascadePick(c);
    } else if Enabled(s, CascadeBegin) {
      e := CascadeBegin;
    } else if Enabled(s, CascadeEnter) {
      e := CascadeEnter;
    } else {
      e := CascadeEnd;
    }
  }

  lemma {:induction false} ComesToRest(s: State) returns (es: seq<Event>)
    requires Inv(s)
    ensures IsRun(s, es) && AllInternal(es) && Stuck(After(s, es)) && |es| <= Rank(s)
    decreases Rank(s)
  {
    es := [];
    if !Stuck(s) {
      var e := NextMove(s);
      EventLowers(s, e);
      InvStep(s, e);
      var rest := ComesToRest(Apply(s, e));
      es := [e] + rest;
      assert es[1..] == rest;
    }
  }

  lemma {:induction false} RunsOn(s: State, a: seq<Event>, b: seq<Event>)
    requires |s.chans| > 0 && IsRun(s, a) && IsRun(After(s, a), b)
    ensures IsRun(s, a + b) && After(s, a + b) == After(After(s, a), b)
    decreases |a|
  {
    if a == [] {
      assert a + b == b;
    } else {
      assert (a + b)[1..] == a[1..] + b;
      RunsOn(Apply(s, a[0]), a[1..], b);
    }
  }

  /** Every shutdown can be completed, and cannot but be: whatever happened since a server
      with activated children was deactivated, as long as nobody arrived, callbacks and
      cascade come to rest after finitely many steps of their own, and then every channel has
      fired its whole plan and the map is empty. */
  lemma ShutdownFinishes(before: seq<Event>, during: seq<Event>) returns (more: seq<Event>)
    requires IsRun(Init(), before)
    requires var s0 := After(Init(), before);
             && s0.chans[0].alive == Up
             && (forall c :: 0 < c < |s0.chans| ==> s0.chans[c].alive == Up || s0.chans[c].alive == Down)
             && IsRun(s0, during) && NoNewcomers(during) && After(s0, during).chans[0].alive == Down
    ensures var s0 := After(Init(), before);
            && AllInternal(more) && IsRun(s0, during + more) && Stuck(After(s0, during + more))
            && Moves(during) + |more| <= Rank(s0)
            && var s := After(s0, during + more);
               s.childMap == {} && forall c :: 0 <= c < |s.chans| ==> s.chans[c].fired == Plan(c == 0)
  {
    var s0 := After(Init(), before);
    InvRun(Init(), before);
    InvRun(s0, during);
    CoveredRun(s0, during);
    BoundedShutdown(s0, during);
    var s1 := After(s0, during);
    more := ComesToRest(s1);
    RunsOn(s0, during, more);
    InternalStays(s1, more);
    CoveredRun(s1, more);
    CoveredStuck(After(s1, more));
  }

  /** No step of its own brings a server up again. */
  lemma {:induction false} InternalStays(s: State, es: seq<Event>)
    requires Inv(s) && IsRun(s, es) && AllInternal(es) && s.chans[0].alive == Down
    ensures After(s, es).chans[0].alive == Down && NoNewcomers(es)
    decreases |es|
  {
    if es != [] {
      InvStep(s, es[0]);
      assert forall i :: 0 <= i < |es[1..]| ==> es[1..][i] == es[i + 1];
      InternalStays(Apply(s, es[0]), es[1..]);
    }
  }
}
