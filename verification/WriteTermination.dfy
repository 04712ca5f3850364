/** Once no new Write calls arrive, every interleaving of callers, drainers, re-kicks,
    a deactivation and the completion of the close future is finite, and it can only
    stop when everybody has returned. */
module WriteTermination {
  import opened WriteProtocol

  /** Everything but a new call or an activation. */
  predicate Internal(e: Event) { e.Run? || e.Inactivate? || e.FinishClose? }

  /** What a thread still costs: the pushes it may make, or the steps it may take
      before anything else changes. */
  datatype Measure = Pushes | Steps(active: bool, empty: bool)

  function Weight(pc: PC, m: Measure): nat {
    match m
    case Pushes => if pc.Start? || pc.Enqueue? then 1 else 0
    case Steps(active, empty) =>
      match pc
      case Start(_) => 30
      case Enqueue => 29
      case Recheck => 28
      case Send(_) => 27
      case Deactivate(_) => 26
      case FailWrite(_) => 25
      case Succeed(_) => 25
      case CloseCheck(_) => 27
      case FailClean(_, _) => 26
      case Mark => 19
      case Loop => 12
      case PopNext => 11
      // with a non-empty queue, giving up the flag leads back to the flag
      case Check => if active && !empty then 23 else 10
      case LockClean => 9
      case Clean => 8
      case Reset => if empty then 5 else 22
      case Len => if empty then 4 else 21
      case Kick => 20
      case Done => 0
  }

  function Sum(threads: seq<PC>, m: Measure): nat {
    if threads == [] then 0 else Weight(threads[0], m) + Sum(threads[1..], m)
  }

  lemma {:induction false} SumUpdate(threads: seq<PC>, t: nat, pc: PC, m: Measure)
    requires t < |threads|
    ensures Sum(threads[t := pc], m) == Sum(threads, m) - Weight(threads[t], m) + Weight(pc, m)
  {
    if t == 0 {
      assert threads[0 := pc][1..] == threads[1..];
    } else {
      assert threads[t := pc][1..] == threads[1..][t - 1 := pc];
      SumUpdate(threads[1..], t - 1, pc, m);
    }
  }

  function Mode(s: State): Measure { Steps(s.active, s.queue == []) }

  function Pending(s: State): nat { Sum(s.threads, Pushes) }

  /** External changes that can still happen. */
  function Hope(s: State): nat { (if s.active then 1 else 0) + (if s.closeDone then 0 else 1) }

  function Effort(s: State): nat { Sum(s.threads, Mode(s)) }

  ghost predicate RankDecreases(s: State, s': State) {
    || Pending(s') < Pending(s)
    || (Pending(s') == Pending(s) && Hope(s') < Hope(s))
    || (Pending(s') == Pending(s) && Hope(s') == Hope(s) && |s'.queue| < |s.queue|)
    || (Pending(s') == Pending(s) && Hope(s') == Hope(s) && |s'.queue| == |s.queue| && Effort(s') < Effort(s))
  }

  /** The same, seen from the thread that moves. */
  ghost predicate Spends(s: State, t: nat, s': State)
    requires t < |s.threads| == |s'.threads|
  {
    var pc, pc' := s.threads[t], s'.threads[t];
    && s'.threads == s.threads[t := pc']
    && (|| Weight(pc', Pushes) < Weight(pc, Pushes)
        || (Weight(pc', Pushes) == Weight(pc, Pushes) &&
            (Hope(s') < Hope(s) ||
            (Hope(s') == Hope(s) &&
            (|s'.queue| < |s.queue| ||
            (|s'.queue| == |s.queue| && Mode(s') == Mode(s) && Weight(pc', Mode(s)) < Weight(pc, Mode(s))))))))
  }

  lemma CallerSpends(s: State, t: nat)
    requires t < |s.threads| && Undecided(s.threads[t])
    ensures Spends(s, t, CallerStep(s, t))
  {
    if s.threads[t].Start? { StartSpends(s, t); }
  }

  lemma StartSpends(s: State, t: nat)
    requires t < |s.threads| && s.threads[t].Start?
    ensures Spends(s, t, CallerStep(s, t))
  {
  }

  lemma LookSpends(s: State, t: nat)
    requires t < |s.threads| && WillLook(s.threads[t])
    ensures Spends(s, t, LookStep(s, t))
  {
  }

  /** A drainer that takes a future off the queue spends it. */
  lemma PopSpends(s: State, t: nat, s': State)
    requires t < |s.threads| == |s'.threads| && s'.threads == s.threads[t := s'.threads[t]]
    requires !Undecided(s.threads[t]) && !Undecided(s'.threads[t])
    requires Hope(s') == Hope(s) && |s'.queue| < |s.queue|
    ensures Spends(s, t, s')
  {
  }

  /** Any other step of a drainer leaves the queue alone and is nearer to the end. */
  lemma MoveSpends(s: State, t: nat, s': State)
    requires t < |s.threads| == |s'.threads| && s'.threads == s.threads[t := s'.threads[t]]
    requires !Undecided(s.threads[t]) && !Undecided(s'.threads[t])
    requires s'.queue == s.queue && s'.closeDone == s.closeDone && (s'.active ==> s.active)
    requires s'.active == s.active ==> Weight(s'.threads[t], Mode(s)) < Weight(s.threads[t], Mode(s))
    ensures Spends(s, t, s')
  {
  }

  lemma DrainSpends(s: State, t: nat, writeOk: bool)
    requires t < |s.threads| && Draining(s.threads[t])
    ensures Spends(s, t, DrainStep(s, t, writeOk))
  {
    var s' := DrainStep(s, t, writeOk);
    if s.threads[t].PopNext? && s.queue != [] { PopSpends(s, t, s'); } else { MoveSpends(s, t, s'); }
  }

  lemma CheckMoves(s: State, t: nat)
    requires t < |s.threads| && (s.threads[t].Check? || s.threads[t].Reset? || s.threads[t].LockClean?)
    ensures Spends(s, t, CleanStep(s, t))
  {
    MoveSpends(s, t, CleanStep(s, t));
  }

  lemma CleanMoves(s: State, t: nat)
    requires t < |s.threads| && (s.threads[t].CloseCheck? || s.threads[t].FailClean? ||
                                 (s.threads[t].Clean? && s.queue == []))
    ensures Spends(s, t, CleanStep(s, t))
  {
    MoveSpends(s, t, CleanStep(s, t));
  }

  lemma CleanSpends(s: State, t: nat)
    requires t < |s.threads| && Cleaning(s.threads[t])
    ensures Spends(s, t, CleanStep(s, t))
  {
    match s.threads[t]
    case Clean => if s.queue != [] { PopSpends(s, t, CleanStep(s, t)); } else { CleanMoves(s, t); }
    case CloseCheck(_) => CleanMoves(s, t);
    case FailClean(_, _) => CleanMoves(s, t);
    case _ => CheckMoves(s, t);
  }

  /** Every internal event lowers the rank, whatever the interleaving. */
  lemma EventSpends(s: State, e: Event)
    requires Enabled(s, e) && Internal(e)
    ensures RankDecreases(s, Apply(s, e))
  {
    if e.Run? {
      var pc := s.threads[e.t];
      if Undecided(pc) { CallerSpends(s, e.t); }
      else if WillLook(pc) { LookSpends(s, e.t); }
      else if Cleaning(pc) { CleanSpends(s, e.t); }
      else { DrainSpends(s, e.t, e.writeOk); }
      SpendingLowers(s, e.t, Step(s, e.t, e.writeOk));
    }
  }

  lemma SpendingLowers(s: State, t: nat, s': State)
    requires t < |s.threads| == |s'.threads| && Spends(s, t, s')
    ensures RankDecreases(s, s')
  {
    SumUpdate(s.threads, t, s'.threads[t], Pushes);
    SumUpdate(s.threads, t, s'.threads[t], Mode(s));
  }

  function Prefix(schedule: nat -> Event, n: nat): seq<Event> {
    seq(n, i requires 0 <= i < n => schedule(i))
  }

  /** Sooner or later the schedule asks for an event that is not enabled. */
  ghost predicate Ends(s: State, schedule: nat -> Event) {
    exists n: nat :: IsRun(s, Prefix(schedule, n)) && !Enabled(After(s, Prefix(schedule, n)), schedule(n))
  }

  function Rest(schedule: nat -> Event): nat -> Event {
    (n: nat) => schedule(n + 1)
  }

  lemma AtOnce(s: State, schedule: nat -> Event)
    requires !Enabled(s, schedule(0))
    ensures Ends(s, schedule)
  {
    assert IsRun(s, Prefix(schedule, 0)) && After(s, Prefix(schedule, 0)) == s;
  }

  lemma PrefixCons(schedule: nat -> Event, n: nat)
    ensures Prefix(schedule, n + 1) == [schedule(0)] + Prefix(Rest(schedule), n)
  {
  }

  lemma RunCons(s: State, e: Event, es: seq<Event>)
    requires Enabled(s, e) && IsRun(Apply(s, e), es)
    ensures IsRun(s, [e] + es) && After(s, [e] + es) == After(Apply(s, e), es)
  {
    assert ([e] + es)[1..] == es;
  }

  lemma OneLater(s: State, schedule: nat -> Event)
    requires Enabled(s, schedule(0)) && Ends(Apply(s, schedule(0)), Rest(schedule))
    ensures Ends(s, schedule)
  {
    var s', rest := Apply(s, schedule(0)), Rest(schedule);
    var n: nat :| IsRun(s', Prefix(rest, n)) && !Enabled(After(s', Prefix(rest, n)), rest(n));
    PrefixCons(schedule, n);
    RunCons(s, schedule(0), Prefix(rest, n));
    assert !Enabled(After(s, Prefix(schedule, n + 1)), schedule(n + 1));
  }

  /** No schedule of internal events can go on for ever. */
  lemma {:induction false} FiniteDraining(s: State, schedule: nat -> Event)
    requires forall n: nat :: Internal(schedule(n))
    ensures Ends(s, schedule)
    decreases Pending(s), Hope(s), |s.queue|, Effort(s)
  {
    if !Enabled(s, schedule(0)) {
      AtOnce(s, schedule);
    } else {
      EventSpends(s, schedule(0));
      FiniteDraining(Apply(s, schedule(0)), Rest(schedule));
      OneLater(s, schedule);
    }
  }

  /** A thread that waits for the lock waits for a thread that can move, so a reachable
      state in which no thread can move is one in which everybody has returned. */
  lemma StuckIsQuiescent(active: bool, es: seq<Event>)
    requires IsRun(Init(active), es)
    requires forall t :: 0 <= t < |After(Init(active), es).threads| ==> !Enabled(After(Init(active), es), Run(t, true))
    ensures Quiescent(After(Init(active), es))
  {
    InvInit(active);
    InvRun(Init(active), es);
    var s := After(Init(active), es);
    var holderMoves := Enabled(s, Run(s.drainer, true));
    assert s.lock ==> holderMoves;
    forall t | 0 <= t < |s.threads| ensures s.threads[t] == Done { assert !Enabled(s, Run(t, true)); }
  }
}
