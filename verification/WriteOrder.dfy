/** What the write protocol promises about order and outcomes, and exactly when a
    call can lose its future. */
module WriteOrder {
  import opened WriteProtocol

  function Rank(o: Outcome): nat {
    match o
    case Success => 0
    case WriteError => 1
    case NotActive => 2
    case Closed => 3
  }

  /** b may come after a in push order: outcomes never improve, and a write fails once. */
  predicate MayFollow(a: Outcome, b: Outcome) {
    Rank(a) <= Rank(b) && (a == WriteError ==> b != WriteError)
  }

  ghost predicate AllSucceeded(log: seq<(Future, Outcome)>) {
    forall i :: 0 <= i < |log| ==> log[i].1 == Success
  }

  /** The drainer in this place has seen nothing but success so far. */
  predicate Optimistic(pc: PC) {
    pc.PopNext? || pc.Send? || pc.Succeed? || pc.Deactivate? || pc.FailWrite?
  }

  /** The drainer in this place, or a caller about to be rejected, knows that the channel is inactive. */
  predicate KnowsInactive(pc: PC) {
    pc.Recheck? || pc.FailWrite? || pc.LockClean? || pc.Clean? || pc.CloseCheck? || pc.FailClean?
  }

  predicate HasSent(pc: PC) { pc.Succeed? || pc.Deactivate? || pc.FailWrite? }

  /** The drainer has handed over an object whose future is still open. */
  predicate Midway(s: State) {
    s.writeS && s.drainer < |s.threads| && HasSent(s.threads[s.drainer])
  }

  /** The part of the phase invariant that speaks about one thread. */
  ghost predicate ThreadPhase(s: State, pc: PC) {
    && (KnowsInactive(pc) ==> !s.active)
    && (Optimistic(pc) ==> AllSucceeded(s.drained))
    && (pc.FailClean? ==> pc.why == NotActive || (pc.why == Closed && s.closeDone))
    && (pc.FailClean? && pc.why == NotActive ==> forall i :: 0 <= i < |s.drained| ==> s.drained[i].1 != Closed)
  }

  ghost predicate LogPhase(s: State) {
    && (forall i, j :: 0 <= i < j < |s.drained| ==> MayFollow(s.drained[i].1, s.drained[j].1))
    && (!AllSucceeded(s.drained) ==> !s.active)
    && (forall i :: 0 <= i < |s.drained| && s.drained[i].1 == Closed ==> s.closeDone)
  }

  /** UnsafeWrite has been given a prefix of the push order: the completed writes,
      and perhaps the one the drainer is working on. */
  ghost predicate SentPhase(s: State) {
    && |s.sent| <= |s.pushed| && s.sent == s.pushed[..|s.sent|]
    && (forall i :: 0 <= i < |s.drained| ==> (i < |s.sent| <==> Rank(s.drained[i].1) <= 1))
    && (if Midway(s) then |s.sent| == |s.drained| + 1 else |s.sent| <= |s.drained|)
  }

  ghost predicate Phase(s: State) {
    && (forall t :: 0 <= t < |s.threads| ==> ThreadPhase(s, s.threads[t]))
    && LogPhase(s) && SentPhase(s)
  }

  /** The threads that do not move stay in phase. */
  lemma OthersPhase(s: State, t: nat, s': State)
    requires Exclusive(s) && Phase(s) && Follows(s, t, s')
    requires (s'.active ==> s.active) && s'.closeDone == s.closeDone
    requires ThreadPhase(s', s'.threads[t])
    ensures forall u :: 0 <= u < |s'.threads| ==> ThreadPhase(s', s'.threads[u])
  {
    forall u | 0 <= u < |s'.threads| && u != t ensures ThreadPhase(s', s'.threads[u]) {
      assert ThreadPhase(s, s.threads[u]);
      if InRegion(s.threads[u]) { assert !Settling(s.threads[t]); }
    }
  }

  // What the four kinds of step do to the phase of the thread that moves.

  ghost predicate Advances(s: State, t: nat, s': State) {
    && t < |s.threads| == |s'.threads| && ThreadPhase(s', s'.threads[t]) && LogPhase(s')
    && (s'.active ==> s.active) && s'.closeDone == s.closeDone
    && s'.sent == (if s.threads[t].Send? then s.sent + [s.threads[t].f] else s.sent)
    && HasSent(s'.threads[t]) == (s.threads[t].Send? || s.threads[t].Deactivate?)
  }

  /** A step that completes no future leaves the log in phase. */
  lemma LogStays(s: State, s': State)
    requires LogPhase(s) && s'.drained == s.drained && s'.closeDone == s.closeDone && (s'.active ==> s.active)
    ensures LogPhase(s')
  {
  }

  /** What a thread has to know to be in phase after a step that completes no future. */
  lemma ThreadMoves(s: State, pc: PC, s': State, pc': PC)
    requires LogPhase(s) && ThreadPhase(s, pc)
    requires s'.drained == s.drained && s'.closeDone == s.closeDone && (s'.active ==> s.active)
    requires KnowsInactive(pc') ==> KnowsInactive(pc) || !s'.active
    requires Optimistic(pc') ==> Optimistic(pc) || s.active
    requires pc'.FailClean? ==> pc'.why == if s.closeDone then Closed else NotActive
    ensures ThreadPhase(s', pc')
  {
  }

  lemma CallerThread(s: State, t: nat)
    requires LogPhase(s) && t < |s.threads| && Undecided(s.threads[t]) && ThreadPhase(s, s.threads[t])
    ensures ThreadPhase(CallerStep(s, t), CallerStep(s, t).threads[t])
  {
    ThreadMoves(s, s.threads[t], CallerStep(s, t), CallerStep(s, t).threads[t]);
  }

  lemma CallerPhase(s: State, t: nat)
    requires LogPhase(s) && t < |s.threads| && Undecided(s.threads[t]) && ThreadPhase(s, s.threads[t])
    ensures Advances(s, t, CallerStep(s, t))
  {
    CallerThread(s, t);
    LogStays(s, CallerStep(s, t));
  }

  lemma LookPhase(s: State, t: nat)
    requires LogPhase(s) && t < |s.threads| && WillLook(s.threads[t])
    ensures Advances(s, t, LookStep(s, t))
  {
    LogStays(s, LookStep(s, t));
  }

  /** Completing a future with its verdict keeps the log in order. */
  lemma SettlePhase(s: State, t: nat, pc: PC)
    requires LogPhase(s) && t < |s.threads| && Settling(s.threads[t]) && ThreadPhase(s, s.threads[t])
    requires if s.threads[t].FailClean? then pc == Clean else pc == Loop
    ensures Advances(s, t, Finish(Goto(s, t, pc), Holding(s.threads[t])[0], Verdict(s.threads[t])))
  {
  }

  lemma DrainThread(s: State, t: nat, writeOk: bool)
    requires LogPhase(s) && t < |s.threads| && Draining(s.threads[t]) && !Settling(s.threads[t]) &&
             ThreadPhase(s, s.threads[t])
    ensures ThreadPhase(DrainStep(s, t, writeOk), DrainStep(s, t, writeOk).threads[t])
  {
    ThreadMoves(s, s.threads[t], DrainStep(s, t, writeOk), DrainStep(s, t, writeOk).threads[t]);
  }

  lemma DrainPhase(s: State, t: nat, writeOk: bool)
    requires LogPhase(s) && t < |s.threads| && Draining(s.threads[t]) && ThreadPhase(s, s.threads[t])
    ensures Advances(s, t, DrainStep(s, t, writeOk))
  {
    if Settling(s.threads[t]) {
      SettlePhase(s, t, Loop);
    } else {
      DrainThread(s, t, writeOk);
      LogStays(s, DrainStep(s, t, writeOk));
    }
  }

  lemma CleanThread(s: State, t: nat)
    requires LogPhase(s) && t < |s.threads| && Cleaning(s.threads[t]) && !Settling(s.threads[t]) &&
             ThreadPhase(s, s.threads[t])
    ensures ThreadPhase(CleanStep(s, t), CleanStep(s, t).threads[t])
  {
    ThreadMoves(s, s.threads[t], CleanStep(s, t), CleanStep(s, t).threads[t]);
  }

  lemma CleanPhase(s: State, t: nat)
    requires LogPhase(s) && t < |s.threads| && Cleaning(s.threads[t]) && ThreadPhase(s, s.threads[t])
    ensures Advances(s, t, CleanStep(s, t))
  {
    if Settling(s.threads[t]) {
      SettlePhase(s, t, Clean);
    } else {
      CleanThread(s, t);
      LogStays(s, CleanStep(s, t));
    }
  }

  lemma StepAdvances(s: State, t: nat, writeOk: bool)
    requires Phase(s) && Enabled(s, Run(t, writeOk))
    ensures Advances(s, t, Step(s, t, writeOk))
  {
    var pc := s.threads[t];
    assert ThreadPhase(s, pc);
    if Undecided(pc) { CallerPhase(s, t); }
    else if WillLook(pc) { LookPhase(s, t); }
    else if Cleaning(pc) { CleanPhase(s, t); }
    else { DrainPhase(s, t, writeOk); }
  }

  lemma KeepsMidway(s: State, t: nat, s': State)
    requires Exclusive(s) && Follows(s, t, s') && Advances(s, t, s')
    ensures Midway(s') == if InRegion(s.threads[t]) then HasSent(s'.threads[t]) else Midway(s)
    ensures InRegion(s.threads[t]) ==> Midway(s) == HasSent(s.threads[t])
  {
    KeepsExclusive(s, t, s');
  }

  lemma KeepsSentSend(s: State, t: nat, s': State)
    requires Inv(s) && Phase(s) && Follows(s, t, s') && Advances(s, t, s') && s.threads[t].Send?
    ensures SentPhase(s')
  {
    KeepsMidway(s, t, s');
    assert ThreadPhase(s, s.threads[t]);
    assert s.pushed[|s.drained|] == s.threads[t].f;
    if |s.drained| > 0 { assert s.drained[|s.drained| - 1].1 == Success; }
  }

  lemma KeepsSentSettle(s: State, t: nat, s': State)
    requires Inv(s) && Phase(s) && Follows(s, t, s') && Advances(s, t, s') && Settling(s.threads[t])
    ensures SentPhase(s')
  {
    KeepsMidway(s, t, s');
    assert ThreadPhase(s, s.threads[t]);
  }

  lemma KeepsSent(s: State, t: nat, s': State)
    requires Inv(s) && Phase(s) && Follows(s, t, s') && Advances(s, t, s')
    ensures SentPhase(s')
  {
    var pc := s.threads[t];
    if pc.Send? { KeepsSentSend(s, t, s'); }
    else if Settling(pc) { KeepsSentSettle(s, t, s'); }
    else {
      KeepsMidway(s, t, s');
      assert s'.sent == s.sent && s'.drained == s.drained && s.pushed <= s'.pushed;
    }
  }

  lemma PhaseStep(s: State, e: Event)
    requires Inv(s) && Phase(s) && Enabled(s, e) && !e.Activate?
    ensures Phase(Apply(s, e))
  {
    if e.Run? {
      var s' := Apply(s, e);
      StepFollows(s, e.t, e.writeOk);
      StepAdvances(s, e.t, e.writeOk);
      OthersPhase(s, e.t, s');
      KeepsSent(s, e.t, s');
    } else {
      OutsidePhase(s, e);
    }
  }

  lemma OutsidePhase(s: State, e: Event)
    requires Inv(s) && Phase(s) && Enabled(s, e) && !e.Activate? && !e.Run?
    ensures Phase(Apply(s, e))
  {
    var s' := Apply(s, e);
    forall u | 0 <= u < |s'.threads| ensures ThreadPhase(s', s'.threads[u]) {
      assert u < |s.threads| ==> ThreadPhase(s, s.threads[u]);
    }
  }

  // --------------------------------------------------------------------- runs

  /** The channel is never activated during the run. */
  predicate NoActivation(es: seq<Event>) {
    forall i :: 0 <= i < |es| ==> !es[i].Activate?
  }

  lemma {:induction false} PhaseRun(s: State, es: seq<Event>)
    requires Inv(s) && Phase(s) && IsRun(s, es) && NoActivation(es)
    ensures Inv(After(s, es)) && Phase(After(s, es))
    decreases |es|
  {
    if es != [] {
      InvStep(s, es[0]);
      PhaseStep(s, es[0]);
      assert NoActivation(es[1..]) by {
        forall i | 0 <= i < |es[1..]| ensures !es[1..][i].Activate? { assert es[1..][i] == es[i + 1]; }
      }
      PhaseRun(Apply(s, es[0]), es[1..]);
    }
  }

  /** Ordered exactly-once outcome.  Along the push order the completed futures are
      successes, then at most one write error, then rejections, first for an inactive
      and last for a closed channel.  The objects handed to UnsafeWrite are a prefix of
      the push order, and a completed future was handed over if and only if it ended
      in success or in the write error.  Any failure means the channel is inactive. */
  lemma OrderedOutcomes(active: bool, es: seq<Event>)
    requires IsRun(Init(active), es) && NoActivation(es)
    ensures var s := After(Init(active), es);
            && Ids(s.drained) <= s.pushed && Distinct(s.pushed)
            && (forall i, j :: 0 <= i < j < |s.drained| ==> MayFollow(s.drained[i].1, s.drained[j].1))
            && s.sent <= s.pushed
            && (forall i :: 0 <= i < |s.drained| ==>
                  (i < |s.sent| <==> s.drained[i].1 == Success || s.drained[i].1 == WriteError))
            && |s.sent| <= |s.drained| + 1
            && (s.active ==> forall i :: 0 <= i < |s.drained| ==> s.drained[i].1 == Success)
  {
    InvInit(active);
    PhaseRun(Init(active), es);
    var s := After(Init(active), es);
    forall i | 0 <= i < |s.drained|
      ensures i < |s.sent| <==> s.drained[i].1 == Success || s.drained[i].1 == WriteError
    {
      assert i < |s.sent| <==> Rank(s.drained[i].1) <= 1;
    }
  }

  /** On a channel that is still active when everybody has returned, every accepted
      object was written, in push order, and its future succeeded. */
  lemma QuiescentActiveWroteAll(active: bool, es: seq<Event>)
    requires IsRun(Init(active), es) && NoActivation(es)
    requires Quiescent(After(Init(active), es)) && After(Init(active), es).active
    ensures var s := After(Init(active), es);
            s.sent == s.pushed && forall f :: f in s.pushed ==> f in s.done && s.done[f] == Success
  {
    InvInit(active);
    PhaseRun(Init(active), es);
    ActiveWroteAll(After(Init(active), es));
  }

  lemma ActiveWroteAll(s: State)
    requires Inv(s) && Phase(s) && Quiescent(s) && s.active
    ensures s.sent == s.pushed && forall f :: f in s.pushed ==> f in s.done && s.done[f] == Success
  {
    AllDrained(s);
    assert |s.sent| >= |s.drained| by {
      if |s.drained| > 0 { assert s.drained[|s.drained| - 1].1 == Success; }
    }
    forall f | f in s.pushed ensures f in s.done && s.done[f] == Success {
      var i :| 0 <= i < |s.pushed| && s.pushed[i] == f;
      assert s.drained[i].1 == Success;
    }
  }

  // ------------------------------------------------- the future that gets lost

  /** During the run, call f reads an active channel at its second read of IsActive,
      after having read an inactive one. */
  predicate Contradicted(s: State, es: seq<Event>, f: Future)
    requires IsRun(s, es)
    decreases |es|
  {
    es != [] && (
      || (es[0].Run? && es[0].t == f && Contradicts(s, f))
      || Contradicted(Apply(s, es[0]), es[1..], f))
  }

  lemma {:induction false} DroppedIsContradicted(s: State, es: seq<Event>, f: Future)
    requires Inv(s) && IsRun(s, es)
    ensures f in After(s, es).dropped <==> f in s.dropped || Contradicted(s, es, f)
    decreases |es|
  {
    if es != [] {
      InvStep(s, es[0]);
      DroppedIsContradicted(Apply(s, es[0]), es[1..], f);
      if es[0].Run? { StepFollows(s, es[0].t, es[0].writeOk); }
    }
  }

  /** In every quiescent state of every run, with activations at any time, the future of
      a call is complete if and only if its two reads of IsActive did not contradict each other. */
  lemma CompleteUnlessContradicted(active: bool, es: seq<Event>, f: Future)
    requires IsRun(Init(active), es) && Quiescent(After(Init(active), es))
    requires f in After(Init(active), es).calls
    ensures f in After(Init(active), es).done <==> !Contradicted(Init(active), es, f)
  {
    InvInit(active);
    QuiescentIsComplete(active, es);
    DroppedIsContradicted(Init(active), es, f);
  }

  /** Without an activation during the run nothing is lost. */
  lemma {:induction false} NothingContradicted(s: State, es: seq<Event>, f: Future)
    requires Inv(s) && Phase(s) && IsRun(s, es) && NoActivation(es)
    ensures !Contradicted(s, es, f)
    decreases |es|
  {
    if es != [] {
      InvStep(s, es[0]);
      PhaseStep(s, es[0]);
      assert NoActivation(es[1..]) by {
        forall i | 0 <= i < |es[1..]| ensures !es[1..][i].Activate? { assert es[1..][i] == es[i + 1]; }
      }
      NothingContradicted(Apply(s, es[0]), es[1..], f);
      if es[0].Run? && es[0].t == f { assert ThreadPhase(s, s.threads[f]); }
    }
  }

  lemma QuiescentAllComplete(active: bool, es: seq<Event>)
    requires IsRun(Init(active), es) && NoActivation(es) && Quiescent(After(Init(active), es))
    ensures After(Init(active), es).done.Keys == After(Init(active), es).calls
  {
    InvInit(active);
    QuiescentIsComplete(active, es);
    var s := After(Init(active), es);
    forall f ensures f in s.done.Keys <==> f in s.calls {
      NothingContradicted(Init(active), es, f);
      DroppedIsContradicted(Init(active), es, f);
    }
  }

  /** The lone caller 0 has lost its future and goes on in this place. */
  function Lost(pc: PC): State {
    Init(true).(threads := [pc], calls := {0}, dropped := {0}, writeS := InRegion(pc))
  }

  lemma {:induction false} RunExtends(s: State, es: seq<Event>, e: Event)
    requires IsRun(s, es) && Enabled(After(s, es), e)
    ensures IsRun(s, es + [e]) && After(s, es + [e]) == Apply(After(s, es), e)
    decreases |es|
  {
    if es == [] {
      assert (es + [e])[1..] == [];
    } else {
      assert (es + [e])[1..] == es[1..] + [e];
      RunExtends(Apply(s, es[0]), es[1..], e);
    }
  }

  /** The drainer that this caller starts finds nothing and goes away. */
  function LostNext(pc: PC): PC {
    match pc
    case Mark => Loop
    case Loop => PopNext
    case PopNext => Check
    case Check => Reset
    case Reset => Len
    case _ => Done
  }

  lemma LostMoves(pc: PC)
    requires pc.Mark? || pc.Loop? || pc.PopNext? || pc.Check? || pc.Reset? || pc.Len?
    ensures Enabled(Lost(pc), Run(0, true)) && Apply(Lost(pc), Run(0, true)) == Lost(LostNext(pc))
  {
    assert Step(Lost(pc), 0, true).threads == [LostNext(pc)];
  }

  lemma LostStep(es: seq<Event>, pc: PC) returns (es': seq<Event>)
    requires pc.Mark? || pc.Loop? || pc.PopNext? || pc.Check? || pc.Reset? || pc.Len?
    requires IsRun(Init(false), es) && After(Init(false), es) == Lost(pc)
    ensures IsRun(Init(false), es') && After(Init(false), es') == Lost(LostNext(pc))
  {
    es' := es + [Run(0, true)];
    LostMoves(pc);
    RunExtends(Init(false), es, Run(0, true));
  }

  /** Not so with one: an activation between the two reads loses the future of this call,
      although everybody returns. */
  lemma ActivationLosesAFuture()
    ensures exists es :: IsRun(Init(false), es) && Quiescent(After(Init(false), es)) &&
              0 in After(Init(false), es).calls && 0 !in After(Init(false), es).done
  {
    var es := LostStart();
    es := LostRun(es, Mark);
  }

  lemma {:induction false} LostRun(es: seq<Event>, pc: PC) returns (es': seq<Event>)
    requires pc in [Mark, Loop, PopNext, Check, Reset, Len, Done]
    requires IsRun(Init(false), es) && After(Init(false), es) == Lost(pc)
    ensures IsRun(Init(false), es') && After(Init(false), es') == Lost(Done)
    decreases match pc
              case Mark => 6 case Loop => 5 case PopNext => 4 case Check => 3 case Reset => 2 case Len => 1 case _ => 0
  {
    es' := es;
    if pc != Done {
      es' := LostStep(es, pc);
      es' := LostRun(es', LostNext(pc));
    }
  }

  lemma LostStart() returns (es: seq<Event>)
    ensures IsRun(Init(false), es) && After(Init(false), es) == Lost(Mark)
  {
    var s, r := Init(false), Run(0, true);
    assert Apply(s, Call(true)).threads == [Start(true)];
    RunExtends(s, [], Call(true));
    RunExtends(s, [Call(true)], r);
    assert [Call(true)] + [r] == [Call(true), r] && [] + [Call(true)] == [Call(true)];
    assert After(s, [Call(true), r]).threads == [Recheck];
    RunExtends(s, [Call(true), r], Activate);
    assert [Call(true), r] + [Activate] == [Call(true), r, Activate];
    RunExtends(s, [Call(true), r, Activate], r);
    es := [Call(true), r, Activate] + [r];
    assert After(s, es).threads == [Mark];
  }
}
