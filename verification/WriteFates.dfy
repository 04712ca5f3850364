/** What becomes of one call, by what it reads of the channel and by what UnsafeWrite answers. */
module WriteFates {
  import opened WriteProtocol

  // ------------------------------------------------- the answer of UnsafeWrite

  /** The drainer in this place will complete f with this outcome. */
  predicate Promises(pc: PC, f: Future, o: Outcome) {
    match pc
    case Succeed(g) => g == f && o == Success
    case Deactivate(g) => g == f && o == WriteError
    case FailWrite(g) => g == f && o == WriteError
    case FailClean(g, why) => g == f && o == why
    case _ => false
  }

  /** f is complete with this outcome, or the drainer is about to complete it so. */
  ghost predicate Fated(s: State, f: Future, o: Outcome) {
    && f in s.pushed
    && (if f in s.done then s.done[f] == o
        else s.writeS && s.drainer < |s.threads| && Promises(s.threads[s.drainer], f, o))
  }

  lemma DoneStays(s: State, t: nat, s': State, f: Future)
    requires Follows(s, t, s') && f in s.done
    ensures f in s'.done && s'.done[f] == s.done[f]
  {
  }

  /** A step of the thread that has promised an outcome. */
  ghost predicate Keeps(s: State, t: nat, s': State, f: Future, o: Outcome)
    requires t < |s.threads|
  {
    if Settling(s.threads[t]) then f in s'.done && s'.done[f] == o
    else t < |s'.threads| && Promises(s'.threads[t], f, o) &&
         (s'.done, s'.writeS, s'.drainer) == (s.done, s.writeS, s.drainer)
  }

  lemma DrainKept(s: State, t: nat, writeOk: bool, f: Future, o: Outcome)
    requires t < |s.threads| && Draining(s.threads[t]) && Promises(s.threads[t], f, o) && f !in s.done
    ensures Keeps(s, t, DrainStep(s, t, writeOk), f, o)
  {
  }

  lemma CleanKept(s: State, t: nat, f: Future, o: Outcome)
    requires t < |s.threads| && Cleaning(s.threads[t]) && Promises(s.threads[t], f, o) && f !in s.done
    ensures Keeps(s, t, CleanStep(s, t), f, o)
  {
  }

  lemma PromiseKept(s: State, t: nat, writeOk: bool, f: Future, o: Outcome)
    requires Enabled(s, Run(t, writeOk)) && Promises(s.threads[t], f, o) && f !in s.done
    ensures Keeps(s, t, Step(s, t, writeOk), f, o)
  {
    if Cleaning(s.threads[t]) { CleanKept(s, t, f, o); } else { DrainKept(s, t, writeOk, f, o); }
  }

  /** A step of any other thread. */
  lemma PromiseWaits(s: State, t: nat, s': State, f: Future)
    requires Exclusive(s) && s.writeS && Follows(s, t, s') && t != s.drainer
    requires Placed(s, f) && f in s.pushed && f !in s.done
    ensures s'.writeS && s'.drainer == s.drainer && s'.threads[s.drainer] == s.threads[s.drainer] && f !in s'.done
  {
    assert !InRegion(s.threads[t]);
  }

  lemma PushedStays(s: State, t: nat, s': State, f: Future)
    requires Follows(s, t, s') && f in s.pushed
    ensures f in s'.pushed
  {
  }

  lemma FatedStep(s: State, t: nat, writeOk: bool, f: Future, o: Outcome)
    requires Inv(s) && Enabled(s, Run(t, writeOk)) && Fated(s, f, o)
    ensures Fated(Step(s, t, writeOk), f, o)
  {
    var s' := Step(s, t, writeOk);
    StepFollows(s, t, writeOk);
    PushedStays(s, t, s', f);
    if f in s.done {
      DoneStays(s, t, s', f);
    } else if t == s.drainer {
      PromiseKept(s, t, writeOk, f, o);
    } else {
      assert Placed(s, f);
      PromiseWaits(s, t, s', f);
    }
  }

  lemma {:induction false} FatedRun(s: State, es: seq<Event>, f: Future, o: Outcome)
    requires Inv(s) && IsRun(s, es) && Fated(s, f, o)
    ensures Fated(After(s, es), f, o)
    decreases |es|
  {
    if es != [] {
      InvStep(s, es[0]);
      if es[0].Run? { FatedStep(s, es[0].t, es[0].writeOk, f, o); }
      FatedRun(Apply(s, es[0]), es[1..], f, o);
    }
  }

  /** The future that a thread in the region has popped was pushed, and is open. */
  lemma HeldIsOpen(s: State, t: nat)
    requires Inv(s) && t < |s.threads| && Holding(s.threads[t]) != []
    ensures var f := Holding(s.threads[t])[0];
            s.writeS && s.drainer == t && f in s.pushed && f !in s.done
  {
    assert InFlight(s) == Holding(s.threads[t]);
    assert s.pushed[|s.drained|] == Holding(s.threads[t])[0];
  }

  /** UnsafeWrite decides: in whatever way a run goes on after UnsafeWrite was given the object
      of f, once f is complete it has succeeded if the object was accepted, and has failed with
      the write error if not. */
  lemma AnswerDecides(active: bool, before: seq<Event>, t: nat, f: Future, ok: bool, after: seq<Event>)
    requires IsRun(Init(active), before)
    requires var s := After(Init(active), before);
             t < |s.threads| && s.threads[t] == Send(f) && Enabled(s, Run(t, ok)) &&
             IsRun(Apply(s, Run(t, ok)), after)
    ensures var s := After(Apply(After(Init(active), before), Run(t, ok)), after);
            f in s.done ==> s.done[f] == (if ok then Success else WriteError)
  {
    var s := After(Init(active), before);
    InvInit(active);
    InvRun(Init(active), before);
    HeldIsOpen(s, t);
    InvStep(s, Run(t, ok));
    FatedRun(Apply(s, Run(t, ok)), after, f, if ok then Success else WriteError);
  }

  /** The close future decides: a future left over in the queue of an inactive channel fails as
      closed if the channel had been closed when the clean-up looked, and as inactive if not. */
  lemma CloseDecides(active: bool, before: seq<Event>, t: nat, f: Future, ok: bool, after: seq<Event>)
    requires IsRun(Init(active), before)
    requires var s := After(Init(active), before);
             t < |s.threads| && s.threads[t] == CloseCheck(f) && Enabled(s, Run(t, ok)) &&
             IsRun(Apply(s, Run(t, ok)), after)
    ensures var s := After(Init(active), before);
            var s' := After(Apply(s, Run(t, ok)), after);
            f in s'.done ==> s'.done[f] == (if s.closeDone then Closed else NotActive)
  {
    var s := After(Init(active), before);
    InvInit(active);
    InvRun(Init(active), before);
    HeldIsOpen(s, t);
    InvStep(s, Run(t, ok));
    FatedRun(Apply(s, Run(t, ok)), after, f, if s.closeDone then Closed else NotActive);
  }

  /** The channel is closed only after its close future was completed during the run. */
  lemma {:induction false} ClosedIsAnnounced(s: State, es: seq<Event>)
    requires IsRun(s, es)
    ensures After(s, es).closeDone <==> s.closeDone || FinishClose in es
    decreases |es|
  {
    if es != [] {
      assert es == [es[0]] + es[1..];
      if es[0].Run? { StaysOpen(s, es[0].t, es[0].writeOk); }
      ClosedIsAnnounced(Apply(s, es[0]), es[1..]);
    }
  }

  lemma StaysOpen(s: State, t: nat, writeOk: bool)
    requires Enabled(s, Run(t, writeOk))
    ensures Step(s, t, writeOk).closeDone == s.closeDone
  {
    var pc := s.threads[t];
    if Undecided(pc) { CallerLeavesOpen(s, t); }
    else if WillLook(pc) { LookLeavesOpen(s, t); }
    else if Cleaning(pc) { CleanLeavesOpen(s, t); }
    else { DrainLeavesOpen(s, t, writeOk); }
  }

  lemma CallerLeavesOpen(s: State, t: nat)
    requires t < |s.threads| && Undecided(s.threads[t])
    ensures CallerStep(s, t).closeDone == s.closeDone
  {
  }

  lemma LookLeavesOpen(s: State, t: nat)
    requires t < |s.threads| && WillLook(s.threads[t])
    ensures LookStep(s, t).closeDone == s.closeDone
  {
  }

  lemma CleanLeavesOpen(s: State, t: nat)
    requires t < |s.threads| && Cleaning(s.threads[t])
    ensures CleanStep(s, t).closeDone == s.closeDone
  {
    match s.threads[t]
    case Check =>
    case LockClean =>
    case Clean =>
    case CloseCheck(_) =>
    case FailClean(_, _) =>
    case Reset =>
  }

  lemma DrainLeavesOpen(s: State, t: nat, writeOk: bool)
    requires t < |s.threads| && Draining(s.threads[t])
    ensures DrainStep(s, t, writeOk).closeDone == s.closeDone
  {
    match s.threads[t]
    case Loop =>
    case PopNext =>
    case Send(_) =>
    case Deactivate(_) =>
    case FailWrite(_) =>
    case Succeed(_) =>
  }

  /** So in a run without that, nothing is rejected as closed. */
  lemma NewIsOpen(active: bool, es: seq<Event>)
    requires IsRun(Init(active), es)
    ensures After(Init(active), es).closeDone <==> FinishClose in es
  {
    ClosedIsAnnounced(Init(active), es);
  }

  // ------------------------------------------------- what the caller reads

  /** f was completed by its own call, and never pushed. */
  ghost predicate Answered(s: State, f: Future, o: Outcome) {
    f in s.done && s.done[f] == o && f !in s.pushed
  }

  ghost predicate Lost(s: State, f: Future) {
    f in s.dropped
  }

  /** The object of f was accepted. */
  ghost predicate Accepted(s: State, f: Future) {
    f < |s.threads| && (s.threads[f] == Enqueue || f in s.pushed)
  }

  lemma AnsweredStep(s: State, t: nat, writeOk: bool, f: Future, o: Outcome)
    requires Inv(s) && Enabled(s, Run(t, writeOk)) && Answered(s, f, o)
    ensures Answered(Step(s, t, writeOk), f, o)
  {
    StepFollows(s, t, writeOk);
    DoneStays(s, t, Step(s, t, writeOk), f);
    assert Placed(s, f);
  }

  lemma LostStep(s: State, t: nat, writeOk: bool, f: Future)
    requires Inv(s) && Enabled(s, Run(t, writeOk)) && Lost(s, f)
    ensures Lost(Step(s, t, writeOk), f)
  {
    StepFollows(s, t, writeOk);
  }

  lemma AcceptedStep(s: State, t: nat, writeOk: bool, f: Future)
    requires Inv(s) && Enabled(s, Run(t, writeOk)) && Accepted(s, f)
    ensures Accepted(Step(s, t, writeOk), f)
  {
    StepFollows(s, t, writeOk);
    if f in s.pushed { PushedStays(s, t, Step(s, t, writeOk), f); }
  }

  lemma {:induction false} AnsweredRun(s: State, es: seq<Event>, f: Future, o: Outcome)
    requires Inv(s) && IsRun(s, es) && Answered(s, f, o)
    ensures Answered(After(s, es), f, o)
    decreases |es|
  {
    if es != [] {
      InvStep(s, es[0]);
      if es[0].Run? { AnsweredStep(s, es[0].t, es[0].writeOk, f, o); }
      AnsweredRun(Apply(s, es[0]), es[1..], f, o);
    }
  }

  lemma {:induction false} LostRun(s: State, es: seq<Event>, f: Future)
    requires Inv(s) && IsRun(s, es) && Lost(s, f)
    ensures Inv(After(s, es)) && Lost(After(s, es), f)
    decreases |es|
  {
    if es != [] {
      InvStep(s, es[0]);
      if es[0].Run? { LostStep(s, es[0].t, es[0].writeOk, f); }
      LostRun(Apply(s, es[0]), es[1..], f);
    }
  }

  lemma {:induction false} AcceptedRun(s: State, es: seq<Event>, f: Future)
    requires Inv(s) && IsRun(s, es) && Accepted(s, f)
    ensures Accepted(After(s, es), f)
    decreases |es|
  {
    if es != [] {
      InvStep(s, es[0]);
      if es[0].Run? { AcceptedStep(s, es[0].t, es[0].writeOk, f); }
      AcceptedRun(Apply(s, es[0]), es[1..], f);
    }
  }

  /** The first read decides: a call without an object succeeds at once, writes nothing, and tries
      the flag; an object is pushed if the channel was active, and looked at again if not. */
  lemma FirstReadDecides(active: bool, before: seq<Event>, f: Future, hasObj: bool, ok: bool, after: seq<Event>)
    requires IsRun(Init(active), before)
    requires var s := After(Init(active), before);
             f < |s.threads| && s.threads[f] == Start(hasObj) && Enabled(s, Run(f, ok)) &&
             IsRun(Apply(s, Run(f, ok)), after)
    ensures var s := After(Init(active), before);
            var s' := After(Apply(s, Run(f, ok)), after);
            && (!hasObj ==> f in s'.done && s'.done[f] == Success && f !in s'.pushed)
            && (!hasObj ==> Apply(s, Run(f, ok)).threads == s.threads[f := Mark])
            && (hasObj && s.active ==> f < |s'.threads| && (s'.threads[f] == Enqueue || f in s'.pushed))
            && (hasObj && !s.active ==> Apply(s, Run(f, ok)) == s.(threads := s.threads[f := Recheck]))
  {
    var s := After(Init(active), before);
    InvInit(active);
    InvRun(Init(active), before);
    InvStep(s, Run(f, ok));
    assert Placed(s, f);
    if !hasObj {
      AnsweredRun(Apply(s, Run(f, ok)), after, f, Success);
    } else if s.active {
      AcceptedRun(Apply(s, Run(f, ok)), after, f);
    }
  }

  /** The second read decides about an object that was not pushed: it is rejected if the channel
      is still inactive, and the call returns; if not, it is lost, and the call tries the flag. */
  lemma SecondReadDecides(active: bool, before: seq<Event>, f: Future, ok: bool, after: seq<Event>)
    requires IsRun(Init(active), before)
    requires var s := After(Init(active), before);
             f < |s.threads| && s.threads[f] == Recheck && Enabled(s, Run(f, ok)) && IsRun(Apply(s, Run(f, ok)), after)
    ensures var s := After(Init(active), before);
            var s' := After(Apply(s, Run(f, ok)), after);
            && f !in s'.pushed
            && (if s.active then f !in s'.done else f in s'.done && s'.done[f] == NotActive)
            && Apply(s, Run(f, ok)).threads == s.threads[f := if s.active then Mark else Done]
  {
    var s := After(Init(active), before);
    InvInit(active);
    InvRun(Init(active), before);
    InvStep(s, Run(f, ok));
    assert Placed(s, f);
    if s.active {
      LostRun(Apply(s, Run(f, ok)), after, f);
      assert Placed(After(Apply(s, Run(f, ok)), after), f);
    } else {
      AnsweredRun(Apply(s, Run(f, ok)), after, f, NotActive);
    }
  }

  // ------------------------------------------------- leaving the loops

  /** The write loop is left when its guard reads an inactive channel, or when the queue turns out
      to be empty, and only then. */
  lemma LeavesLoopIff(s: State, t: nat, writeOk: bool)
    requires Enabled(s, Run(t, writeOk)) && Draining(s.threads[t])
    ensures |Apply(s, Run(t, writeOk)).threads| == |s.threads|
    ensures !Draining(Apply(s, Run(t, writeOk)).threads[t]) <==>
            (s.threads[t].Loop? && !s.active) || (s.threads[t].PopNext? && s.queue == [])
  {
    DrainSends(s, t, writeOk);
    match s.threads[t]
    case Loop =>
    case PopNext =>
    case Send(_) =>
    case Deactivate(_) =>
    case FailWrite(_) =>
    case Succeed(_) =>
  }

  /** The clean-up is left for giving up the flag when the channel is active after the loop, or when
      the queue is empty, and only then. */
  lemma LeavesCleanUpIff(s: State, t: nat, writeOk: bool)
    requires Enabled(s, Run(t, writeOk)) && Cleaning(s.threads[t]) && !s.threads[t].Reset?
    ensures |Apply(s, Run(t, writeOk)).threads| == |s.threads|
    ensures Apply(s, Run(t, writeOk)).threads[t].Reset? <==>
            (s.threads[t].Check? && s.active) || (s.threads[t].Clean? && s.queue == [])
  {
    CleanSends(s, t);
    match s.threads[t]
    case Check =>
    case LockClean =>
    case Clean =>
    case CloseCheck(_) =>
    case FailClean(_, _) =>
  }

  // ------------------------------------------------- success means sent

  /** The thread in this place will complete f with success. */
  predicate WillSucceed(pc: PC, f: Future) {
    pc == Succeed(f) || pc == FailClean(f, Success)
  }

  /** The call of f has an object, and only an object handed over succeeds. */
  ghost predicate Carried(s: State, f: Future) {
    && f < |s.threads| && s.threads[f] != Start(false)
    && (f in s.done && s.done[f] == Success ==> f in s.sent)
    && (forall t :: 0 <= t < |s.threads| && WillSucceed(s.threads[t], f) ==> f in s.sent)
  }

  /** Nobody comes back to the start, the objects handed over stay so, and a success is only
      promised for the one that was handed over just now. */
  predicate HandsOver(pc: PC, sent: seq<Future>, pc': PC, sent': seq<Future>, f: Future) {
    !pc'.Start? && sent <= sent' && (WillSucceed(pc', f) ==> pc == Send(f) && sent' == sent + [f])
  }

  lemma CallerHandsOver(s: State, t: nat, f: Future)
    requires t < |s.threads| && Undecided(s.threads[t])
    ensures HandsOver(s.threads[t], s.sent, CallerStep(s, t).threads[t], CallerStep(s, t).sent, f)
  {
    match s.threads[t]
    case Start(_) =>
    case Enqueue =>
    case Recheck =>
  }

  lemma LookHandsOver(s: State, t: nat, f: Future)
    requires t < |s.threads| && WillLook(s.threads[t])
    ensures HandsOver(s.threads[t], s.sent, LookStep(s, t).threads[t], LookStep(s, t).sent, f)
  {
  }

  lemma CleanSends(s: State, t: nat)
    requires t < |s.threads| && Cleaning(s.threads[t])
    ensures var s' := CleanStep(s, t); |s'.threads| == |s.threads| && s'.sent == s.sent
  {
    match s.threads[t]
    case Check =>
    case LockClean =>
    case Clean =>
    case CloseCheck(_) =>
    case FailClean(_, _) =>
    case Reset =>
  }

  lemma CleanPromises(s: State, t: nat, f: Future)
    requires t < |s.threads| && Cleaning(s.threads[t])
    ensures var s' := CleanStep(s, t);
            |s'.threads| == |s.threads| && !s'.threads[t].Start? && !WillSucceed(s'.threads[t], f)
  {
    match s.threads[t]
    case Check =>
    case LockClean =>
    case Clean =>
    case CloseCheck(_) =>
    case FailClean(_, _) =>
    case Reset =>
  }

  lemma CleanHandsOver(s: State, t: nat, f: Future)
    requires t < |s.threads| && Cleaning(s.threads[t])
    ensures |CleanStep(s, t).threads| == |s.threads|
    ensures HandsOver(s.threads[t], s.sent, CleanStep(s, t).threads[t], CleanStep(s, t).sent, f)
  {
    CleanSends(s, t);
    CleanPromises(s, t, f);
  }

  lemma DrainSends(s: State, t: nat, writeOk: bool)
    requires t < |s.threads| && Draining(s.threads[t])
    ensures var s' := DrainStep(s, t, writeOk);
            |s'.threads| == |s.threads| && s'.sent == if s.threads[t].Send? then s.sent + [s.threads[t].f] else s.sent
  {
    match s.threads[t]
    case Loop =>
    case PopNext =>
    case Send(_) =>
    case Deactivate(_) =>
    case FailWrite(_) =>
    case Succeed(_) =>
  }

  lemma DrainPromises(s: State, t: nat, writeOk: bool, f: Future)
    requires t < |s.threads| && Draining(s.threads[t])
    ensures var s' := DrainStep(s, t, writeOk);
            |s'.threads| == |s.threads| && !s'.threads[t].Start? &&
            (WillSucceed(s'.threads[t], f) ==> s.threads[t] == Send(f))
  {
    match s.threads[t]
    case Loop =>
    case PopNext =>
    case Send(_) =>
    case Deactivate(_) =>
    case FailWrite(_) =>
    case Succeed(_) =>
  }

  lemma DrainHandsOver(s: State, t: nat, writeOk: bool, f: Future)
    requires t < |s.threads| && Draining(s.threads[t])
    ensures |DrainStep(s, t, writeOk).threads| == |s.threads|
    ensures HandsOver(s.threads[t], s.sent, DrainStep(s, t, writeOk).threads[t], DrainStep(s, t, writeOk).sent, f)
  {
    DrainSends(s, t, writeOk);
    DrainPromises(s, t, writeOk, f);
  }

  lemma StepHandsOver(s: State, t: nat, writeOk: bool, f: Future)
    requires Exclusive(s) && Enabled(s, Run(t, writeOk))
    ensures Follows(s, t, Step(s, t, writeOk))
    ensures HandsOver(s.threads[t], s.sent, Step(s, t, writeOk).threads[t], Step(s, t, writeOk).sent, f)
  {
    StepFollows(s, t, writeOk);
    var pc := s.threads[t];
    if Undecided(pc) { CallerHandsOver(s, t, f); }
    else if WillLook(pc) { LookHandsOver(s, t, f); }
    else if Cleaning(pc) { CleanHandsOver(s, t, f); }
    else { DrainHandsOver(s, t, writeOk, f); }
  }

  /** A success comes from a promise, or from a call without an object. */
  lemma NewSuccess(s: State, t: nat, s': State, f: Future)
    requires Follows(s, t, s') && f in s'.done && s'.done[f] == Success
    ensures || (f in s.done && s.done[f] == Success)
            || WillSucceed(s.threads[t], f)
            || (t == f && s.threads[t].Start? && !Undecided(s'.threads[t]))
  {
  }

  lemma StartWithObject(s: State, t: nat)
    requires t < |s.threads| && s.threads[t] == Start(true)
    ensures Undecided(CallerStep(s, t).threads[t])
  {
  }

  lemma CarriedStep(s: State, t: nat, writeOk: bool, f: Future)
    requires Inv(s) && Enabled(s, Run(t, writeOk)) && Carried(s, f)
    ensures Carried(Step(s, t, writeOk), f)
  {
    var s' := Step(s, t, writeOk);
    StepHandsOver(s, t, writeOk, f);
    CarriedOn(s, t, s', f);
    if f in s'.done && s'.done[f] == Success {
      NewSuccess(s, t, s', f);
      if t == f && s.threads[t].Start? { StartWithObject(s, t); }
    }
  }

  lemma CarriedOn(s: State, t: nat, s': State, f: Future)
    requires Carried(s, f) && Moves(s, t, s') && HandsOver(s.threads[t], s.sent, s'.threads[t], s'.sent, f)
    ensures s'.threads[f] != Start(false)
    ensures forall u :: 0 <= u < |s'.threads| && WillSucceed(s'.threads[u], f) ==> f in s'.sent
  {
    forall u | 0 <= u < |s'.threads| && WillSucceed(s'.threads[u], f) ensures f in s'.sent {
      if u != t { assert s'.threads[u] == s.threads[u]; }
    }
  }

  lemma {:induction false} CarriedRun(s: State, es: seq<Event>, f: Future)
    requires Inv(s) && IsRun(s, es) && Carried(s, f)
    ensures Carried(After(s, es), f)
    decreases |es|
  {
    if es != [] {
      InvStep(s, es[0]);
      if es[0].Run? { CarriedStep(s, es[0].t, es[0].writeOk, f); }
      CarriedRun(Apply(s, es[0]), es[1..], f);
    }
  }

  /** A call with an object never succeeds without UnsafeWrite: its future is a success only if
      the object was handed over. */
  lemma SuccessIsSent(active: bool, before: seq<Event>, after: seq<Event>)
    requires IsRun(Init(active), before) && IsRun(Apply(After(Init(active), before), Call(true)), after)
    ensures var s := After(Init(active), before);
            var f, s' := |s.threads|, After(Apply(s, Call(true)), after);
            f in s'.done && s'.done[f] == Success ==> f in s'.sent
  {
    var s := After(Init(active), before);
    InvInit(active);
    InvRun(Init(active), before);
    InvStep(s, Call(true));
    NothingHeld(s);
    CarriedRun(Apply(s, Call(true)), after, |s.threads|);
  }

  /** A call that has not arrived has no future yet. */
  lemma NotHeld(s: State, t: nat)
    requires Inv(s) && t < |s.threads|
    ensures !WillSucceed(s.threads[t], |s.threads|)
  {
    if Holding(s.threads[t]) != [] {
      HeldIsOpen(s, t);
      assert Placed(s, Holding(s.threads[t])[0]);
    }
  }

  lemma NothingHeld(s: State)
    requires Inv(s)
    ensures Carried(Apply(s, Call(true)), |s.threads|)
  {
    assert Placed(s, |s.threads|);
    forall t | 0 <= t < |s.threads| ensures !WillSucceed(s.threads[t], |s.threads|) { NotHeld(s, t); }
  }
}
