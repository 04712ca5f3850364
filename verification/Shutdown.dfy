/** Deactivation of channels, and the shutdown of a server channel that waits for its
    children while they remove themselves from the map it iterates over.

    Channel 0 is the server, every other channel one of its children.  The part of
    inactiveChannel that runs under the lock is one step, which any number of callers
    may take at any time.  The callback chained to the one-shot alive future runs on its
    own, one observable action per step, and so does the cascade that a server chains to
    its alive future when it is activated.  Iterating over the child map visits every key
    that stays in the map from beginning to end; a key that comes or goes meanwhile may
    or may not be visited. */
module Shutdown {

  /** What alive is: no future yet, a pending one, a completed one, or one that failed at once. */
  datatype Alive = Never | Up | Down | Refused

  /** The observable actions of a deactivation. */
  datatype Fired = Inactive | Unregistered | Closed | Released

  /** Where the callback of a channel is. */
  datatype Callback =
    | NotStarted
    | Begin                                        // a server is about to iterate over its children
    | Range(visited: set<nat>)                     // between two children
    | Await(visited: set<nat>, child: nat)         // waiting for the close future of a child
    | FireInactive | FireUnregistered | CompleteClose | Release | Finished
    | RefuseUnregistered | RefuseFinished          // inactiveChannel on a channel never activated

  datatype Chan = Chan(alive: Alive, callback: Callback, closeDone: bool, fired: seq<Fired>, wins: nat)

  datatype Cascade =
    | Idle
    | Ranging(start: set<nat>, visited: set<nat>)
    | Entering(start: set<nat>, visited: set<nat>, child: nat)   // found it active, about to deactivate it
    | CascadeDone

  datatype State = State(
    chans: seq<Chan>,
    childMap: set<nat>,
    awaited: set<nat>,        // the children in the map when the server began to wait, and those it came to later
    cascade: Cascade
  )

  datatype Event =
    | Derive                  // the server accepts a new child
    | Activate(c: nat)        // activeChannel
    | Deactivate(c: nat)      // somebody calls inactiveChannel
    | Proceed(c: nat)         // the callback of c makes its next step
    | Pick(child: nat)        // the waiting server comes to this child
    | CascadeBegin
    | CascadePick(child: nat) // the cascade comes to this child
    | CascadeEnter
    | CascadeEnd

  const FRESH := Chan(Never, NotStarted, false, [], 0)

  function Init(): State { State([FRESH], {}, {}, Idle) }

  predicate Enabled(s: State, e: Event)
    requires |s.chans| > 0
  {
    match e
    case Derive => true
    // one activation, before any deactivation
    case Activate(c) => c < |s.chans| && s.chans[c].alive == Never
    case Deactivate(c) => c < |s.chans|
    case Proceed(c) =>
      c < |s.chans| &&
      (match s.chans[c].callback
       case NotStarted => false
       case Finished => false
       case RefuseFinished => false
       case Range(visited) => s.awaited * s.childMap <= visited
       case Await(_, child) => child < |s.chans| && s.chans[child].closeDone
       case _ => true)
    case Pick(child) =>
      s.chans[0].callback.Range? && child in s.awaited + s.childMap && child !in s.chans[0].callback.visited
    case CascadeBegin => s.cascade == Idle && s.chans[0].alive == Down
    case CascadePick(child) =>
      s.cascade.Ranging? && child in s.cascade.start + s.childMap && child !in s.cascade.visited && child < |s.chans|
    case CascadeEnter => s.cascade.Entering? && s.cascade.child < |s.chans|
    case CascadeEnd => s.cascade.Ranging? && s.cascade.start * s.childMap <= s.cascade.visited
  }

  function SetChan(s: State, c: nat, ch: Chan): State
    requires c < |s.chans|
  {
    s.(chans := s.chans[c := ch])
  }

  /** The locked part of inactiveChannel; the caller learns success if wins goes up. */
  function Deactivated(ch: Chan, server: bool): Chan {
    match ch.alive
    case Never => ch.(alive := Refused, callback := RefuseUnregistered)
    case Up => ch.(alive := Down, callback := if server then Begin else FireInactive, wins := ch.wins + 1)
    case _ => ch
  }

  function Apply(s: State, e: Event): State
    requires |s.chans| > 0 && Enabled(s, e)
  {
    match e
    case Derive => s.(chans := s.chans + [FRESH], childMap := s.childMap + {|s.chans|})
    case Activate(c) => SetChan(s, c, s.chans[c].(alive := Up))
    case Deactivate(c) => SetChan(s, c, Deactivated(s.chans[c], c == 0))
    case Proceed(c) => ProceedStep(s, c)
    case Pick(child) =>
      SetChan(s, 0, s.chans[0].(callback := Await(s.chans[0].callback.visited, child))).(awaited := s.awaited + {child})
    case CascadeBegin => s.(cascade := Ranging(s.childMap, {}))
    case CascadePick(child) =>
      var cs := s.cascade;
      s.(cascade := if s.chans[child].alive == Up then Entering(cs.start, cs.visited + {child}, child)
                    else Ranging(cs.start, cs.visited + {child}))
    case CascadeEnter =>
      var cs := s.cascade;
      SetChan(s, cs.child, Deactivated(s.chans[cs.child], cs.child == 0)).(cascade := Ranging(cs.start, cs.visited))
    case CascadeEnd => s.(cascade := CascadeDone)
  }

  /** One step of the callback of c, with its effect on the child map. */
  function ProceedStep(s: State, c: nat): State
    requires |s.chans| > 0 && Enabled(s, Proceed(c))
  {
    var ch := s.chans[c];
    var s' := SetChan(s, c, Moved(ch, c == 0));
    if ch.callback == Begin then s'.(awaited := s.childMap)
    else if ch.callback == Release then s'.(childMap := s.childMap - {c})
    else s'
  }

  /** The step as the channel itself sees it. */
  function Moved(ch: Chan, server: bool): Chan {
    match ch.callback
    case Begin => ch.(callback := Range({}))
    case Range(_) => ch.(callback := FireInactive)
    case Await(visited, child) => ch.(callback := Range(visited + {child}))
    case FireInactive => Fire(ch, Inactive, FireUnregistered)
    case FireUnregistered => Fire(ch, Unregistered, if server then Release else CompleteClose)
    case CompleteClose => Fire(ch, Closed, Release).(closeDone := true)
    case Release => Fire(ch, Released, Finished)
    case RefuseUnregistered => Fire(ch, Unregistered, RefuseFinished)
    case _ => ch
  }

  function Fire(ch: Chan, f: Fired, next: Callback): Chan {
    ch.(fired := ch.fired + [f], callback := next)
  }

  // ---------------------------------------------------------------- invariant

  /** The actions of a full deactivation, in order. */
  function Plan(server: bool): seq<Fired> {
    if server then [Inactive, Unregistered, Released] else [Inactive, Unregistered, Closed, Released]
  }

  /** The callback has passed the wait for the children. */
  predicate Past(cb: Callback) {
    cb.FireInactive? || cb.FireUnregistered? || cb.CompleteClose? || cb.Release? || cb.Finished?
  }

  predicate OnlyServer(cb: Callback) { cb.Begin? || cb.Range? || cb.Await? }

  /** The log of one channel is the part of its plan that its callback has passed. */
  predicate InPlan(ch: Chan, server: bool) {
    && (ch.alive == Down <==> OnlyServer(ch.callback) || Past(ch.callback))
    && (ch.alive == Refused <==> ch.callback.RefuseUnregistered? || ch.callback.RefuseFinished?)
    && ch.wins == (if ch.alive == Down then 1 else 0)
    && (if server then !ch.callback.CompleteClose? && !ch.closeDone else !OnlyServer(ch.callback))
    && (!server ==> (ch.closeDone <==> ch.callback.Release? || ch.callback.Finished?))
    && ch.fired == (match ch.callback
                    case FireUnregistered => [Inactive]
                    case CompleteClose => [Inactive, Unregistered]
                    case Release => if server then [Inactive, Unregistered] else [Inactive, Unregistered, Closed]
                    case Finished => Plan(server)
                    case RefuseFinished => [Unregistered]
                    case _ => [])
  }

  ghost predicate AllInPlan(s: State) {
    |s.chans| > 0 && forall c :: 0 <= c < |s.chans| ==> InPlan(s.chans[c], c == 0)
  }

  /** A child is in the map from the moment it is derived until it is released. */
  ghost predicate MapExact(s: State) {
    && (forall c :: c in s.childMap || c in s.awaited ==> 0 < c < |s.chans|)
    && (forall c :: 0 < c < |s.chans| ==> (c in s.childMap <==> s.chans[c].callback != Finished))
  }

  predicate ClosedChild(s: State, c: nat) { c < |s.chans| && s.chans[c].closeDone }

  /** The server only gets past a child that has closed. */
  ghost predicate WaitSound(s: State)
    requires |s.chans| > 0
  {
    match s.chans[0].callback
    case Range(visited) => forall c :: c in visited ==> ClosedChild(s, c)
    case Await(visited, child) => (forall c :: c in visited ==> ClosedChild(s, c)) && child in s.awaited
    case cb => Past(cb) ==> forall c :: c in s.awaited ==> ClosedChild(s, c)
  }

  ghost predicate Inv(s: State) {
    AllInPlan(s) && MapExact(s) && WaitSound(s) && (s.cascade != Idle ==> s.chans[0].alive == Down) &&
    (s.cascade.Entering? ==> s.cascade.child < |s.chans|)
  }

  // Channels one at a time.

  lemma MovedInPlan(ch: Chan, server: bool)
    requires InPlan(ch, server)
    ensures InPlan(Moved(ch, server), server) && (ch.closeDone ==> Moved(ch, server).closeDone)
  {
  }

  lemma DeactivatedInPlan(ch: Chan, server: bool)
    requires InPlan(ch, server)
    ensures InPlan(Deactivated(ch, server), server) && Deactivated(ch, server).closeDone == ch.closeDone
    ensures Deactivated(ch, server).callback == Finished <==> ch.callback == Finished
  {
  }

  /** Channel c changes to ch within its plan, and leaves the map when it finishes. */
  ghost predicate Changes(s: State, c: nat, ch: Chan, s': State) {
    && c < |s.chans| && s'.chans == s.chans[c := ch] && InPlan(ch, c == 0)
    && (s.chans[c].closeDone ==> ch.closeDone)
    && (s.chans[c].callback == Finished ==> ch.callback == Finished)
    && (forall x :: x in s'.childMap <==> x in s.childMap && !(x == c && ch.callback == Finished))
  }

  lemma ChangesKeep(s: State, c: nat, ch: Chan, s': State)
    requires Inv(s) && Changes(s, c, ch, s')
    requires forall x :: x in s'.awaited ==> x in s.awaited || x in s.childMap
    ensures AllInPlan(s') && MapExact(s')
  {
  }

  /** The wait is not affected by what another channel does. */
  lemma ChangesKeepWait(s: State, c: nat, ch: Chan, s': State)
    requires Inv(s) && Changes(s, c, ch, s') && s'.awaited == s.awaited
    requires c == 0 ==>
               || ch.callback == s.chans[0].callback || ch.callback == Begin
               || (!OnlyServer(ch.callback) && !Past(ch.callback))
    ensures WaitSound(s')
  {
    assert forall x :: ClosedChild(s, x) ==> ClosedChild(s', x);
  }

  lemma ProceedKeeps(s: State, c: nat)
    requires Inv(s) && Enabled(s, Proceed(c))
    ensures Inv(ProceedStep(s, c))
  {
    var ch, s' := s.chans[c], ProceedStep(s, c);
    MovedInPlan(ch, c == 0);
    ChangesKeep(s, c, Moved(ch, c == 0), s');
    if c != 0 {
      ChangesKeepWait(s, c, Moved(ch, false), s');
    } else {
      assert forall x :: ClosedChild(s, x) ==> ClosedChild(s', x);
      if ch.callback.Range? {
        forall x | x in s.awaited ensures ClosedChild(s', x) {
          if x in s.childMap { assert x in s.awaited * s.childMap; } else { assert InPlan(s.chans[x], false); }
        }
      }
    }
  }

  lemma DeactivateKeeps(s: State, c: nat, cascade: Cascade)
    requires Inv(s) && c < |s.chans| && (cascade == s.cascade || (s.cascade != Idle && cascade.Ranging?))
    ensures Inv(SetChan(s, c, Deactivated(s.chans[c], c == 0)).(cascade := cascade))
  {
    var ch := Deactivated(s.chans[c], c == 0);
    var s' := SetChan(s, c, ch).(cascade := cascade);
    DeactivatedInPlan(s.chans[c], c == 0);
    ChangesKeep(s, c, ch, s');
    ChangesKeepWait(s, c, ch, s');
  }

  lemma ActivateKeeps(s: State, c: nat)
    requires Inv(s) && Enabled(s, Activate(c))
    ensures Inv(Apply(s, Activate(c)))
  {
    var ch := s.chans[c].(alive := Up);
    ChangesKeep(s, c, ch, SetChan(s, c, ch));
    ChangesKeepWait(s, c, ch, SetChan(s, c, ch));
  }

  lemma PickKeeps(s: State, child: nat)
    requires Inv(s) && Enabled(s, Pick(child))
    ensures Inv(Apply(s, Pick(child)))
  {
    var s' := Apply(s, Pick(child));
    ChangesKeep(s, 0, s'.chans[0], s');
    assert forall x :: ClosedChild(s, x) ==> ClosedChild(s', x);
  }

  lemma DeriveKeeps(s: State)
    requires Inv(s)
    ensures Inv(Apply(s, Derive))
  {
    var s' := Apply(s, Derive);
    assert forall x :: ClosedChild(s, x) ==> ClosedChild(s', x);
  }

  lemma InvStep(s: State, e: Event)
    requires Inv(s) && Enabled(s, e)
    ensures Inv(Apply(s, e))
  {
    match e
    case Derive => DeriveKeeps(s);
    case Activate(c) => ActivateKeeps(s, c);
    case Deactivate(c) => DeactivateKeeps(s, c, s.cascade);
    case Proceed(c) => ProceedKeeps(s, c);
    case Pick(child) => PickKeeps(s, child);
    case CascadeEnter => DeactivateKeeps(s, s.cascade.child, Ranging(s.cascade.start, s.cascade.visited));
    case _ =>
  }

  // --------------------------------------------------------------------- runs

  predicate IsRun(s: State, es: seq<Event>)
    requires |s.chans| > 0
    decreases |es|
  {
    es == [] || (Enabled(s, es[0]) && |Apply(s, es[0]).chans| > 0 && IsRun(Apply(s, es[0]), es[1..]))
  }

  function After(s: State, es: seq<Event>): (r: State)
    requires |s.chans| > 0 && IsRun(s, es)
    ensures |r.chans| > 0
    decreases |es|
  {
    if es == [] then s else After(Apply(s, es[0]), es[1..])
  }

  lemma {:induction false} InvRun(s: State, es: seq<Event>)
    requires Inv(s) && IsRun(s, es)
    ensures Inv(After(s, es))
    decreases |es|
  {
    if es != [] {
      InvStep(s, es[0]);
      InvRun(Apply(s, es[0]), es[1..]);
    }
  }

  /** One-shot deactivation: however many callers call inactiveChannel, at most one learns
      success, and exactly one once the channel is down; the actions of the deactivation
      happen at most once each, in the order of the plan, and only if somebody succeeded.
      A channel that was never activated fires Unregistered at most once and nothing else. */
  lemma OneShot(es: seq<Event>, c: nat)
    requires IsRun(Init(), es) && c < |After(Init(), es).chans|
    ensures var ch := After(Init(), es).chans[c];
            && ch.wins == (if ch.alive == Down then 1 else 0)
            && (ch.wins == 1 ==> ch.fired <= if c == 0 then [Inactive, Unregistered, Released]
                                             else [Inactive, Unregistered, Closed, Released])
            && (ch.wins == 0 ==> ch.fired <= [Unregistered])
            && (ch.fired != [] ==> ch.alive == Down || ch.alive == Refused)
  {
    InvRun(Init(), es);
    assert InPlan(After(Init(), es).chans[c], c == 0);
  }

  /** The children that a run makes the server wait for: those in the map when its callback
      begins to iterate, and those it comes to later. */
  function WaitedFor(s: State, es: seq<Event>): set<nat>
    requires |s.chans| > 0 && IsRun(s, es)
    decreases |es|
  {
    if es == [] then {}
    else
      (match es[0]
       case Proceed(c) => if c == 0 && s.chans[0].callback == Begin then s.childMap else {}
       case Pick(child) => {child}
       case _ => {}) + WaitedFor(Apply(s, es[0]), es[1..])
  }

  predicate NotWaiting(cb: Callback) { cb.NotStarted? || cb.Begin? || cb.RefuseUnregistered? || cb.RefuseFinished? }

  lemma {:induction false} AwaitedIsWaitedFor(s: State, es: seq<Event>)
    requires Inv(s) && IsRun(s, es) && (NotWaiting(s.chans[0].callback) ==> s.awaited == {})
    ensures After(s, es).awaited == s.awaited + WaitedFor(s, es)
    decreases |es|
  {
    if es != [] {
      InvStep(s, es[0]);
      AwaitedStep(s, es[0]);
      AwaitedIsWaitedFor(Apply(s, es[0]), es[1..]);
    }
  }

  lemma AwaitedStep(s: State, e: Event)
    requires Inv(s) && Enabled(s, e) && (NotWaiting(s.chans[0].callback) ==> s.awaited == {})
    ensures var s' := Apply(s, e);
            && |s'.chans| > 0 && (NotWaiting(s'.chans[0].callback) ==> s'.awaited == {})
            && s'.awaited == s.awaited + (match e
                                          case Proceed(c) =>
                                            if c == 0 && s.chans[0].callback == Begin then s.childMap else {}
                                          case Pick(child) => {child}
                                          case _ => {})
  {
    assert InPlan(s.chans[0], true);
  }

  lemma InitWaits(es: seq<Event>)
    requires IsRun(Init(), es)
    ensures After(Init(), es).awaited == WaitedFor(Init(), es)
  {
    AwaitedIsWaitedFor(Init(), es);
  }

  /** The server is about to wait for c, or waits for it, or c is closed. */
  ghost predicate BoundTo(s: State, c: nat)
    requires |s.chans| > 0
  {
    ClosedChild(s, c) || c in (if NotWaiting(s.chans[0].callback) then s.childMap else s.awaited)
  }

  lemma BoundStep(s: State, e: Event, c: nat)
    requires Inv(s) && Enabled(s, e) && BoundTo(s, c)
    ensures |Apply(s, e).chans| > 0 && BoundTo(Apply(s, e), c)
  {
    InvStep(s, e);
    assert InPlan(s.chans[0], true);
    assert c < |s.chans| ==> InPlan(s.chans[c], c == 0);
  }

  lemma {:induction false} BoundRun(s: State, es: seq<Event>, c: nat)
    requires Inv(s) && IsRun(s, es) && BoundTo(s, c)
    ensures BoundTo(After(s, es), c)
    decreases |es|
  {
    if es != [] {
      InvStep(s, es[0]);
      BoundStep(s, es[0], c);
      BoundRun(Apply(s, es[0]), es[1..], c);
    }
  }

  /** What a child has done when it is closed. */
  predicate HasClosed(s: State, c: nat) {
    c < |s.chans| && [Inactive, Unregistered, Closed] <= s.chans[c].fired && s.chans[c].closeDone
  }

  /** Shutdown ordering: when a server fires Inactive, every child that was there before its
      callback began has already fired Inactive and then Unregistered and completed its close
      future, although the children delete themselves from the map meanwhile. */
  lemma ShutdownOrder(before: seq<Event>, during: seq<Event>, c: nat)
    requires IsRun(Init(), before)
    requires var s0 := After(Init(), before);
             && (s0.chans[0].alive != Down || s0.chans[0].callback == Begin) && 0 < c < |s0.chans|
             && IsRun(s0, during) && Inactive in After(s0, during).chans[0].fired
    ensures HasClosed(After(After(Init(), before), during), c)
  {
    var s0 := After(Init(), before);
    InvRun(Init(), before);
    assert InPlan(s0.chans[0], true) && InPlan(s0.chans[c], false);
    InvRun(s0, during);
    BoundRun(s0, during, c);
    PastIsClosed(After(s0, during), c);
  }

  lemma PastIsClosed(s: State, c: nat)
    requires Inv(s) && BoundTo(s, c) && Inactive in s.chans[0].fired
    ensures HasClosed(s, c)
  {
    assert InPlan(s.chans[0], true);
    assert Past(s.chans[0].callback);
    assert ClosedChild(s, c) && InPlan(s.chans[c], c == 0);
  }

  /** And so has every child that it came to while it waited. */
  lemma WaitedForHasClosed(es: seq<Event>, c: nat)
    requires IsRun(Init(), es)
    requires Inactive in After(Init(), es).chans[0].fired && c in WaitedFor(Init(), es)
    ensures HasClosed(After(Init(), es), c)
  {
    InvRun(Init(), es);
    InitWaits(es);
    var s := After(Init(), es);
    assert InPlan(s.chans[0], true) && InPlan(s.chans[c], false);
    assert Past(s.chans[0].callback);
  }

  /** A channel that was never activated, once somebody deactivates it, keeps refusing. */
  lemma {:induction false} StaysRefused(s: State, es: seq<Event>, c: nat)
    requires Inv(s) && IsRun(s, es) && c < |s.chans| && s.chans[c].alive == Refused
    ensures c < |After(s, es).chans| && After(s, es).chans[c].alive == Refused
    decreases |es|
  {
    if es != [] {
      InvStep(s, es[0]);
      assert InPlan(s.chans[c], c == 0);
      StaysRefused(Apply(s, es[0]), es[1..], c);
    }
  }

  // ---------------------------------------------------------------- liveness

  /** No callback and no cascade can make another step. */
  ghost predicate Stuck(s: State)
    requires |s.chans| > 0
  {
    && (forall c: nat :: !Enabled(s, Proceed(c)))
    && (forall c: nat :: !Enabled(s, Pick(c)) && !Enabled(s, CascadePick(c)))
    && !Enabled(s, CascadeBegin) && !Enabled(s, CascadeEnter) && !Enabled(s, CascadeEnd)
  }

  lemma StuckChild(s: State, c: nat)
    requires Inv(s) && Stuck(s) && 0 < c < |s.chans| && s.chans[c].alive == Down
    ensures s.chans[c].fired == Plan(false) && s.chans[c].closeDone && c !in s.childMap
  {
    assert InPlan(s.chans[c], false) && !Enabled(s, Proceed(c));
  }

  /** Deactivating a channel that was never activated: nobody succeeds, and when nothing moves any
      more the channel has fired Unregistered, once, and nothing else. */
  lemma RefusalFires(before: seq<Event>, c: nat, after: seq<Event>)
    requires IsRun(Init(), before)
    requires var s0 := After(Init(), before);
             && c < |s0.chans| && s0.chans[c].alive == Never
             && |Apply(s0, Deactivate(c)).chans| > 0 && IsRun(Apply(s0, Deactivate(c)), after)
             && Stuck(After(Apply(s0, Deactivate(c)), after))
    ensures var s := After(Apply(After(Init(), before), Deactivate(c)), after);
            c < |s.chans| && s.chans[c].fired == [Unregistered] && s.chans[c].wins == 0
  {
    var s0 := After(Init(), before);
    var s1 := Apply(s0, Deactivate(c));
    InvRun(Init(), before);
    InvStep(s0, Deactivate(c));
    InvRun(s1, after);
    StaysRefused(s1, after, c);
    assert InPlan(After(s1, after).chans[c], c == 0) && !Enabled(After(s1, after), Proceed(c));
  }

  /** When nothing moves any more, a deactivated server has finished its shutdown if and
      only if every child it had to wait for has been deactivated after an activation. */
  lemma ServerFinishesIff(es: seq<Event>)
    requires IsRun(Init(), es) && Stuck(After(Init(), es)) && After(Init(), es).chans[0].alive == Down
    ensures var s := After(Init(), es);
            s.chans[0].fired == [Inactive, Unregistered, Released] <==>
            forall c :: c in WaitedFor(Init(), es) ==> c < |s.chans| && s.chans[c].alive == Down
  {
    InvRun(Init(), es);
    InitWaits(es);
    ServerFinishesWhenStuck(After(Init(), es));
  }

  lemma ServerFinishesWhenStuck(s: State)
    requires Inv(s) && Stuck(s) && s.chans[0].alive == Down
    ensures s.chans[0].fired == Plan(true) <==> forall c :: c in s.awaited ==> c < |s.chans| && s.chans[c].alive == Down
  {
    var cb := s.chans[0].callback;
    StuckServer(s);
    if cb.Await? {
      if cb.child < |s.chans| && s.chans[cb.child].alive == Down { StuckChild(s, cb.child); }
    } else {
      forall c | c in s.awaited ensures c < |s.chans| && s.chans[c].alive == Down {
        assert ClosedChild(s, c) && InPlan(s.chans[c], false);
      }
    }
  }

  lemma StuckServer(s: State)
    requires Inv(s) && Stuck(s) && s.chans[0].alive == Down
    ensures var cb := s.chans[0].callback;
            (cb == Finished && s.chans[0].fired == Plan(true)) ||
            (cb.Await? && cb.child in s.awaited && !s.chans[cb.child].closeDone && s.chans[0].fired == [])
  {
    var cb := s.chans[0].callback;
    forall c | cb.Range? && c in s.awaited * s.childMap ensures c in cb.visited {
      assert !Enabled(s, Pick(c));
    }
    assert InPlan(s.chans[0], true) && !Enabled(s, Proceed(0));
  }

  /** Nobody arrives during the shutdown. */
  predicate NoNewcomers(es: seq<Event>) {
    forall i :: 0 <= i < |es| ==> !es[i].Derive? && !es[i].Activate?
  }

  /** Every child has been activated, and the cascade will not overlook one that is still up. */
  ghost predicate Covered(s: State) {
    && (forall c :: 0 < c < |s.chans| ==> s.chans[c].alive == Up || s.chans[c].alive == Down)
    && (forall c :: c in s.childMap && c < |s.chans| && s.chans[c].alive == Up ==>
          WillReach(s.cascade, c))
  }

  predicate WillReach(cascade: Cascade, c: nat) {
    match cascade
    case Idle => true
    case Ranging(start, visited) => c in start && c !in visited
    case Entering(start, visited, child) => c in start && (c !in visited || c == child)
    case CascadeDone => false
  }

  lemma CoveredStep(s: State, e: Event)
    requires Inv(s) && Covered(s) && Enabled(s, e) && !e.Derive? && !e.Activate?
    ensures Covered(Apply(s, e))
  {
  }

  lemma {:induction false} CoveredRun(s: State, es: seq<Event>)
    requires Inv(s) && Covered(s) && IsRun(s, es) && NoNewcomers(es)
    ensures Inv(After(s, es)) && Covered(After(s, es))
    decreases |es|
  {
    if es != [] {
      InvStep(s, es[0]);
      CoveredStep(s, es[0]);
      assert forall i :: 0 <= i < |es[1..]| ==> es[1..][i] == es[i + 1];
      CoveredRun(Apply(s, es[0]), es[1..]);
    }
  }

  /** The cascade and the wait together shut everything down: if every child has been
      activated before the server is deactivated, and nobody arrives afterwards, then when
      nothing moves any more every channel has fired its whole plan and the map is empty. */
  lemma ShutdownCompletes(before: seq<Event>, during: seq<Event>)
    requires IsRun(Init(), before)
    requires var s0 := After(Init(), before);
             && s0.chans[0].alive == Up
             && (forall c :: 0 < c < |s0.chans| ==> s0.chans[c].alive == Up || s0.chans[c].alive == Down)
             && IsRun(s0, during) && NoNewcomers(during)
             && After(s0, during).chans[0].alive == Down && Stuck(After(s0, during))
    ensures var s := After(After(Init(), before), during);
            s.childMap == {} && forall c :: 0 <= c < |s.chans| ==> s.chans[c].fired == Plan(c == 0)
  {
    InvRun(Init(), before);
    CoveredRun(After(Init(), before), during);
    CoveredStuck(After(After(Init(), before), during));
  }

  lemma CoveredStuck(s: State)
    requires Inv(s) && Covered(s) && Stuck(s) && s.chans[0].alive == Down
    ensures s.childMap == {} && forall c :: 0 <= c < |s.chans| ==> s.chans[c].fired == Plan(c == 0)
  {
    forall c | s.cascade.Ranging? && c in s.cascade.start * s.childMap ensures c in s.cascade.visited {
      assert !Enabled(s, CascadePick(c));
    }
    assert s.cascade == CascadeDone;
    forall c | 0 < c < |s.chans|
      ensures s.chans[c].alive == Down && s.chans[c].fired == Plan(false) && c !in s.childMap
    {
      assert InPlan(s.chans[c], false);
      StuckChild(s, c);
    }
    ServerFinishesWhenStuck(s);
  }

  // ---------------------------------------------------------------- such runs exist

  lemma {:induction false} RunSnoc(s: State, es: seq<Event>, e: Event)
    requires |s.chans| > 0 && IsRun(s, es) && Enabled(After(s, es), e) && |Apply(After(s, es), e).chans| > 0
    ensures IsRun(s, es + [e]) && After(s, es + [e]) == Apply(After(s, es), e)
    decreases |es|
  {
    if es == [] {
      assert [] + [e] == [e] && [e][1..] == [];
    } else {
      assert (es + [e])[1..] == es[1..] + [e];
      RunSnoc(Apply(s, es[0]), es[1..], e);
    }
  }

  /** A server that is up, and n children that are. */
  ghost predicate Serving(s: State, n: nat) {
    && |s.chans| == n + 1 && s.cascade == Idle
    && (forall c :: 0 <= c <= n ==> s.chans[c] == Chan(Up, NotStarted, false, [], 0))
    && (forall c :: c in s.childMap <==> 0 < c <= n)
  }

  /** Any number of children can be accepted and activated. */
  lemma {:induction false} CanServe(n: nat) returns (es: seq<Event>)
    ensures IsRun(Init(), es) && Serving(After(Init(), es), n)
  {
    if n == 0 {
      es := [Activate(0)];
      assert es[1..] == [];
    } else {
      var before := CanServe(n - 1);
      RunSnoc(Init(), before, Derive);
      RunSnoc(Init(), before + [Derive], Activate(n));
      es := before + [Derive] + [Activate(n)];
    }
  }

  /** While the server waits, a child that arrives then may be waited for as well. */
  lemma LateChildMayBeWaitedFor() returns (es: seq<Event>)
    ensures IsRun(Init(), es) && After(Init(), es).chans[0].callback == Await({}, 1)
    ensures 1 in WaitedFor(Init(), es) && |es| > 3 && es[3] == Derive
  {
    es := [Activate(0), Deactivate(0), Proceed(0), Derive, Pick(1)];
    assert es[1..] == [Deactivate(0), Proceed(0), Derive, Pick(1)] && es[1..][1..] == [Proceed(0), Derive, Pick(1)];
    assert es[1..][1..][1..] == [Derive, Pick(1)] && es[1..][1..][1..][1..] == [Pick(1)] && [Pick(1)][1..] == [];
    InitWaits(es);
  }

  /** And the cascade may reach one that arrives while it is under way. */
  lemma LateChildMayBeReached() returns (es: seq<Event>)
    ensures IsRun(Init(), es) && After(Init(), es).cascade == Ranging({}, {1})
    ensures |After(Init(), es).chans| == 2 && After(Init(), es).chans[1].alive == Down
  {
    es := CanServe(0);
    es := OneMore(es, Deactivate(0));
    es := OneMore(es, CascadeBegin);
    es := OneMore(es, Derive);
    es := OneMore(es, Activate(1));
    es := OneMore(es, CascadePick(1));
    es := OneMore(es, CascadeEnter);
  }

  lemma OneMore(es: seq<Event>, e: Event) returns (more: seq<Event>)
    requires IsRun(Init(), es) && Enabled(After(Init(), es), e) && |Apply(After(Init(), es), e).chans| > 0
    ensures IsRun(Init(), more) && After(Init(), more) == Apply(After(Init(), es), e)
  {
    RunSnoc(Init(), es, e);
    more := es + [e];
  }
}
