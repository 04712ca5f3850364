/** The write path of an unsafe channel: any number of callers push futures into
    one shared queue, and a compare-and-swap on a flag elects one drainer.

    The protocol is a step relation.  A state holds the program counter of every
    thread that ever entered `Write`, first as a caller, then perhaps as a drainer;
    an event is one atomic step of one thread, or an external change.  All
    theorems quantify over every run, that is, over every sequence of enabled
    events, with unboundedly many threads. */
module WriteProtocol {

  /** How a future ends.  The order of the constructors is the order in which
      outcomes may follow each other along the push order. */
  datatype Outcome = Success | WriteError | NotActive | Closed

  /** The future of a call is named by the index of the calling thread. */
  type Future = nat

  datatype PC =
    // a caller inside Write
    | Start(hasObj: bool)             // about to read IsActive for the first time
    | Enqueue                         // about to push its future
    | Recheck                         // about to read IsActive for the second time
    | Mark                            // about to compare-and-swap the write flag
    // a drainer, holding the write flag
    | Loop                            // about to read IsActive in the loop guard
    | PopNext                         // about to pop one future
    | Send(f: Future)                 // about to call UnsafeWrite
    | Deactivate(f: Future)           // the write failed, about to call inactiveChannel
    | FailWrite(f: Future)            // about to fail the future with the write error
    | Succeed(f: Future)              // about to complete the future
    | Check                           // about to read IsActive after the loop
    | LockClean                       // about to take the buffer lock for the clean-up
    | Clean                           // holding the lock, about to pop
    | CloseCheck(f: Future)           // holding the lock, about to look at the close future
    | FailClean(f: Future, why: Outcome)  // holding the lock, about to fail the future
    | Reset                           // about to clear the write flag
    // a former drainer
    | Len                             // about to read the queue length
    | Kick                            // found leftovers, about to re-enter Write(nil, nil)
    | Done

  datatype State = State(
    threads: seq<PC>,
    active: bool,                     // Channel.IsActive
    closeDone: bool,                  // CloseFuture().IsDone
    writeS: bool,                     // the flag
    drainer: nat,                     // the thread that set the flag last
    lock: bool,                       // the buffer lock, when held across steps
    queue: seq<Future>,
    done: map<Future, Outcome>,       // completed futures, single assignment
    // what happened so far
    calls: set<Future>,               // every Write issued from outside
    pushed: seq<Future>,              // in push order
    sent: seq<Future>,                // objects handed to UnsafeWrite, in order
    drained: seq<(Future, Outcome)>,  // completions performed by drainers, in order
    dropped: set<Future>              // calls whose second read contradicted the first
  )

  datatype Event =
    | Call(hasObj: bool)              // a new Write call arrives
    | Activate                        // somebody activates the channel
    | Inactivate                      // somebody deactivates the channel
    | FinishClose                     // the close future completes
    | Run(t: nat, writeOk: bool)      // thread t makes one step; writeOk is UnsafeWrite's answer

  function Init(active: bool): State {
    State([], active, false, false, 0, false, [], map[], {}, [], [], [], {})
  }

  /** Before the fate of the call's future is decided. */
  predicate Undecided(pc: PC) { pc.Start? || pc.Enqueue? || pc.Recheck? }

  /** A thread that will certainly try the flag, or look at the queue, again. */
  predicate WillLook(pc: PC) { pc.Mark? || pc.Len? || pc.Kick? }

  predicate Draining(pc: PC) {
    pc.Loop? || pc.PopNext? || pc.Send? || pc.Deactivate? || pc.FailWrite? || pc.Succeed?
  }

  predicate Cleaning(pc: PC) {
    pc.Check? || pc.LockClean? || pc.Clean? || pc.CloseCheck? || pc.FailClean? || pc.Reset?
  }

  /** The region guarded by the flag. */
  predicate InRegion(pc: PC) { Draining(pc) || Cleaning(pc) }

  predicate NeedsLock(pc: PC) {
    pc.Enqueue? || pc.PopNext? || pc.LockClean? || pc.Len?
  }

  predicate Enabled(s: State, e: Event) {
    match e
    case Call(_) => true
    case Activate => !s.active
    case Inactivate => s.active
    case FinishClose => !s.closeDone
    case Run(t, _) => t < |s.threads| && s.threads[t] != Done && (NeedsLock(s.threads[t]) ==> !s.lock)
  }

  function Complete(done: map<Future, Outcome>, f: Future, o: Outcome): map<Future, Outcome> {
    if f in done then done else done[f := o]
  }

  /** The drainer completes f. */
  function Finish(s: State, f: Future, o: Outcome): State {
    s.(done := Complete(s.done, f, o), drained := s.drained + [(f, o)])
  }

  function Goto(s: State, t: nat, pc: PC): State
    requires t < |s.threads|
  {
    s.(threads := s.threads[t := pc])
  }

  function Apply(s: State, e: Event): State
    requires Enabled(s, e)
  {
    match e
    case Call(hasObj) => s.(threads := s.threads + [Start(hasObj)], calls := s.calls + {|s.threads|})
    case Activate => s.(active := true)
    case Inactivate => s.(active := false)
    case FinishClose => s.(closeDone := true)
    case Run(t, writeOk) => Step(s, t, writeOk)
  }

  /** One atomic step of thread t.  The caller that wins the flag starts the drainer
      and has nothing left to do, so its index is taken over by the drainer. */
  function Step(s: State, t: nat, writeOk: bool): State
    requires Enabled(s, Run(t, writeOk))
  {
    var pc := s.threads[t];
    if Undecided(pc) then CallerStep(s, t)
    else if WillLook(pc) then LookStep(s, t)
    else if Cleaning(pc) then CleanStep(s, t)
    else DrainStep(s, t, writeOk)
  }

  /** Accepting or rejecting one object, before the flag is tried. */
  function CallerStep(s: State, t: nat): State
    requires t < |s.threads| && Undecided(s.threads[t])
  {
    match s.threads[t]
    case Start(hasObj) =>
      if hasObj && s.active then Goto(s, t, Enqueue)
      else if !hasObj then Goto(s, t, Mark).(done := Complete(s.done, t, Success))
      else Goto(s, t, Recheck)
    case Enqueue => Goto(s, t, Mark).(queue := s.queue + [t], pushed := s.pushed + [t])
    case Recheck =>
      if !s.active then Goto(s, t, Done).(done := Complete(s.done, t, NotActive))
      else Goto(s, t, Mark).(dropped := s.dropped + {t})
  }

  /** Trying the flag, and the former drainer's second look at the queue. */
  function LookStep(s: State, t: nat): State
    requires t < |s.threads| && WillLook(s.threads[t])
  {
    match s.threads[t]
    case Mark => if s.writeS then Goto(s, t, Done) else Goto(s, t, Loop).(writeS := true, drainer := t)
    case Len => Goto(s, t, if s.queue == [] then Done else Kick)
    case Kick => Goto(s, t, Mark)
  }

  /** The write loop. */
  function DrainStep(s: State, t: nat, writeOk: bool): State
    requires t < |s.threads| && Draining(s.threads[t])
  {
    match s.threads[t]
    case Loop => Goto(s, t, if s.active then PopNext else Check)
    case PopNext =>
      if s.queue == [] then Goto(s, t, Check)
      else Goto(s, t, Send(s.queue[0])).(queue := s.queue[1..])
    case Send(f) => Goto(s, t, if writeOk then Succeed(f) else Deactivate(f)).(sent := s.sent + [f])
    case Deactivate(f) => Goto(s, t, FailWrite(f)).(active := false)
    case FailWrite(f) => Finish(Goto(s, t, Loop), f, WriteError)
    case Succeed(f) => Finish(Goto(s, t, Loop), f, Success)
  }

  /** After the loop: fail what is left on an inactive channel, then give up the flag. */
  function CleanStep(s: State, t: nat): State
    requires t < |s.threads| && Cleaning(s.threads[t])
  {
    match s.threads[t]
    case Check => Goto(s, t, if s.active then Reset else LockClean)
    case LockClean => Goto(s, t, Clean).(lock := true)
    case Clean =>
      if s.queue == [] then Goto(s, t, Reset).(lock := false)
      else Goto(s, t, CloseCheck(s.queue[0])).(queue := s.queue[1..])
    case CloseCheck(f) => Goto(s, t, FailClean(f, if s.closeDone then Closed else NotActive))
    case FailClean(f, why) => Finish(Goto(s, t, Clean), f, why)
    case Reset => Goto(s, t, Len).(writeS := false)
  }

  // ---------------------------------------------------------------- invariant

  /** About to complete the future it holds, with this outcome. */
  predicate Settling(pc: PC) { pc.FailWrite? || pc.Succeed? || pc.FailClean? }

  function Verdict(pc: PC): Outcome
    requires Settling(pc)
  {
    match pc
    case FailWrite(_) => WriteError
    case Succeed(_) => Success
    case FailClean(_, why) => why
  }

  predicate Locked(pc: PC) { pc.Clean? || pc.CloseCheck? || pc.FailClean? }

  function Holding(pc: PC): seq<Future> {
    match pc
    case Send(f) => [f]
    case Deactivate(f) => [f]
    case FailWrite(f) => [f]
    case Succeed(f) => [f]
    case CloseCheck(f) => [f]
    case FailClean(f, _) => [f]
    case _ => []
  }

  /** The future the drainer has popped and not yet completed. */
  function InFlight(s: State): seq<Future> {
    if s.writeS && s.drainer < |s.threads| then Holding(s.threads[s.drainer]) else []
  }

  function Ids(log: seq<(Future, Outcome)>): (r: seq<Future>)
    ensures |r| == |log|
    ensures forall i :: 0 <= i < |log| ==> r[i] == log[i].0
  {
    seq(|log|, i requires 0 <= i < |log| => log[i].0)
  }

  /** Mutual exclusion: only the thread that set the flag is in the drain region. */
  ghost predicate Exclusive(s: State) {
    && (s.writeS ==> s.drainer < |s.threads| && InRegion(s.threads[s.drainer]))
    && (forall t :: 0 <= t < |s.threads| && InRegion(s.threads[t]) ==> s.writeS && t == s.drainer)
    && (s.lock <==> s.writeS && s.drainer < |s.threads| && Locked(s.threads[s.drainer]))
  }

  /** Conservation: what was pushed is what was completed, in flight, or waiting. */
  ghost predicate Conserved(s: State) {
    s.pushed == Ids(s.drained) + InFlight(s) + s.queue
  }

  ghost predicate Stranded(s: State) {
    s.queue != [] && !s.writeS && forall t :: 0 <= t < |s.threads| ==> !WillLook(s.threads[t])
  }

  ghost predicate Distinct(q: seq<Future>) {
    forall i, j :: 0 <= i < j < |q| ==> q[i] != q[j]
  }

  /** The drainers complete the pushed futures in push order, each of them once. */
  ghost predicate InOrder(s: State) {
    && Distinct(s.pushed)
    && |s.drained| <= |s.pushed|
    && (forall i :: 0 <= i < |s.pushed| ==> (s.pushed[i] in s.done <==> i < |s.drained|))
    && (forall i :: 0 <= i < |s.drained| ==> s.drained[i] == (s.pushed[i], s.done[s.pushed[i]]))
  }

  /** The future of a call is undecided, pushed, completed by the call itself, or dropped. */
  predicate Placed(s: State, f: Future) {
    && (f in s.calls ==> f < |s.threads|)
    && (f in s.pushed || f in s.done || f in s.dropped ==> f in s.calls)
    && (f < |s.threads| && Undecided(s.threads[f]) ==>
          f in s.calls && f !in s.pushed && f !in s.done && f !in s.dropped)
    && (f in s.calls && !Undecided(s.threads[f]) ==> f in s.pushed || f in s.done || f in s.dropped)
    && (f in s.dropped ==> f !in s.pushed && f !in s.done)
  }

  ghost predicate Accounted(s: State) {
    InOrder(s) && forall f :: Placed(s, f)
  }

  ghost predicate Inv(s: State) {
    Exclusive(s) && Conserved(s) && !Stranded(s) && Accounted(s)
  }

  // What the invariant needs to know about one step of thread t, whatever the step is.

  ghost predicate Moves(s: State, t: nat, s': State) {
    && t < |s.threads| == |s'.threads| && s'.threads == s.threads[t := s'.threads[t]]
    && s'.calls == s.calls
  }

  /** The flag follows the region, and so does the lock inside it. */
  ghost predicate FlagFollows(s: State, t: nat, s': State)
    requires Moves(s, t, s')
  {
    var pc, pc' := s.threads[t], s'.threads[t];
    if InRegion(pc) then s'.drainer == s.drainer && s'.writeS == InRegion(pc') && s'.lock == Locked(pc')
    else if InRegion(pc') then !s.writeS && s'.writeS && s'.drainer == t && !Locked(pc') && s'.lock == s.lock
    else (s'.writeS, s'.drainer, s'.lock) == (s.writeS, s.drainer, s.lock)
  }

  /** A future is pushed, or popped, or completed, or stays where it is. */
  ghost predicate QueueFollows(s: State, t: nat, s': State)
    requires Moves(s, t, s')
  {
    var pc, pc' := s.threads[t], s'.threads[t];
    if pc == Enqueue then
      Holding(pc') == [] && s'.drained == s.drained && s'.pushed == s.pushed + [t] && s'.queue == s.queue + [t]
    else if Settling(pc) then
      Holding(pc') == [] && (s'.pushed, s'.queue) == (s.pushed, s.queue) &&
      s'.drained == s.drained + [(Holding(pc)[0], Verdict(pc))]
    else
      (s'.pushed, s'.drained) == (s.pushed, s.drained) && Holding(pc) + s.queue == Holding(pc') + s'.queue
  }

  /** Nobody stops looking at the queue while it is unguarded and not empty. */
  ghost predicate LookFollows(s: State, t: nat, s': State)
    requires Moves(s, t, s')
  {
    var pc, pc' := s.threads[t], s'.threads[t];
    WillLook(pc') || s'.queue == [] || s'.writeS || (!WillLook(pc) && s'.queue == s.queue && s'.writeS == s.writeS)
  }

  /** A caller's future gets its one place, a drainer's future its one outcome. */
  ghost predicate AccountFollows(s: State, t: nat, s': State)
    requires Moves(s, t, s')
  {
    var pc, pc' := s.threads[t], s'.threads[t];
    && s'.dropped == (if Contradicts(s, t) then s.dropped + {t} else s.dropped)
    && (Undecided(pc') ==> Undecided(pc) && pc != Enqueue && !Contradicts(s, t))
    && s'.done == (if Settling(pc) then Complete(s.done, Holding(pc)[0], Verdict(pc))
                   else if Answers(s, t, pc') then Complete(s.done, t, if pc.Start? then Success else NotActive)
                   else s.done)
  }

  /** The call reads an active channel after it has read an inactive one. */
  predicate Contradicts(s: State, t: nat)
    requires t < |s.threads|
  {
    s.threads[t] == Recheck && s.active
  }

  /** The call completes its own future. */
  predicate Answers(s: State, t: nat, pc': PC)
    requires t < |s.threads|
  {
    Undecided(s.threads[t]) && !Undecided(pc') && s.threads[t] != Enqueue && !Contradicts(s, t)
  }

  ghost predicate Follows(s: State, t: nat, s': State) {
    && Moves(s, t, s') && FlagFollows(s, t, s') && QueueFollows(s, t, s')
    && LookFollows(s, t, s') && AccountFollows(s, t, s')
  }

  /** The two halves of what follows: the flag and the queue it guards, the futures. */
  ghost predicate Guards(s: State, t: nat, s': State) {
    Moves(s, t, s') && FlagFollows(s, t, s') && LookFollows(s, t, s')
  }

  ghost predicate Works(s: State, t: nat, s': State) {
    Moves(s, t, s') && QueueFollows(s, t, s') && AccountFollows(s, t, s')
  }

  /** A drainer takes the next future from the queue. */
  lemma Pops(s: State, t: nat, s': State)
    requires Moves(s, t, s') && !Settling(s.threads[t]) && s.threads[t] != Enqueue
    requires s.queue != [] && Holding(s.threads[t]) == [] && Holding(s'.threads[t]) == [s.queue[0]] &&
             s'.queue == s.queue[1..]
    requires s'.pushed == s.pushed && s'.drained == s.drained
    ensures QueueFollows(s, t, s')
  {
  }

  /** Nothing is pushed, popped or completed. */
  lemma Holds(s: State, t: nat, s': State)
    requires Moves(s, t, s') && !Settling(s.threads[t]) && s.threads[t] != Enqueue
    requires Holding(s'.threads[t]) == Holding(s.threads[t])
    requires s'.queue == s.queue && s'.pushed == s.pushed && s'.drained == s.drained
    ensures QueueFollows(s, t, s')
  {
  }

  lemma StartFlags(s: State, t: nat)
    requires t < |s.threads| && s.threads[t].Start?
    ensures Guards(s, t, CallerStep(s, t))
  {
    StaysOutside(s, t, CallerStep(s, t));
  }

  /** A caller does not touch the flag before it tries it. */
  lemma StaysOutside(s: State, t: nat, s': State)
    requires Moves(s, t, s') && !InRegion(s.threads[t]) && !InRegion(s'.threads[t]) && !WillLook(s.threads[t])
    requires s'.queue == s.queue && s'.writeS == s.writeS && s'.drainer == s.drainer && s'.lock == s.lock
    ensures Guards(s, t, s')
  {
  }

  lemma StartWork(s: State, t: nat)
    requires t < |s.threads| && s.threads[t].Start?
    ensures Works(s, t, CallerStep(s, t))
  {
  }

  lemma CallerFlags(s: State, t: nat)
    requires t < |s.threads| && Undecided(s.threads[t]) && !s.threads[t].Start?
    ensures Guards(s, t, CallerStep(s, t))
  {
  }

  lemma CallerWork(s: State, t: nat)
    requires t < |s.threads| && Undecided(s.threads[t]) && !s.threads[t].Start?
    ensures Works(s, t, CallerStep(s, t))
  {
  }

  lemma CallerFollows(s: State, t: nat)
    requires t < |s.threads| && Undecided(s.threads[t])
    ensures Follows(s, t, CallerStep(s, t))
  {
    if s.threads[t].Start? {
      StartFlags(s, t);
      StartWork(s, t);
    } else {
      CallerFlags(s, t);
      CallerWork(s, t);
    }
  }

  lemma LookFlags(s: State, t: nat)
    requires t < |s.threads| && WillLook(s.threads[t])
    ensures Guards(s, t, LookStep(s, t))
  {
    if !s.threads[t].Mark? { LooksAgain(s, t, LookStep(s, t)); }
  }

  /** A former drainer goes back to the flag unless there is nothing to do. */
  lemma LooksAgain(s: State, t: nat, s': State)
    requires Moves(s, t, s') && !InRegion(s.threads[t]) && !InRegion(s'.threads[t])
    requires WillLook(s'.threads[t]) || s'.queue == []
    requires s'.queue == s.queue && s'.writeS == s.writeS && s'.drainer == s.drainer && s'.lock == s.lock
    ensures Guards(s, t, s')
  {
  }

  lemma LookWork(s: State, t: nat)
    requires t < |s.threads| && WillLook(s.threads[t])
    ensures Works(s, t, LookStep(s, t))
  {
    Holds(s, t, LookStep(s, t));
  }

  lemma LookStepFollows(s: State, t: nat)
    requires t < |s.threads| && WillLook(s.threads[t])
    ensures Follows(s, t, LookStep(s, t))
  {
    LookFlags(s, t);
    LookWork(s, t);
  }

  lemma DrainFlags(s: State, t: nat, writeOk: bool)
    requires Exclusive(s) && t < |s.threads| && Draining(s.threads[t]) && !Settling(s.threads[t])
    ensures Guards(s, t, DrainStep(s, t, writeOk))
  {
  }

  lemma DrainQueue(s: State, t: nat, writeOk: bool)
    requires Exclusive(s) && t < |s.threads| && Draining(s.threads[t]) && !Settling(s.threads[t])
    ensures Moves(s, t, DrainStep(s, t, writeOk)) && QueueFollows(s, t, DrainStep(s, t, writeOk))
  {
    if s.threads[t] == PopNext && s.queue != [] {
      Pops(s, t, DrainStep(s, t, writeOk));
    } else {
      Holds(s, t, DrainStep(s, t, writeOk));
    }
  }

  lemma DrainAccount(s: State, t: nat, writeOk: bool)
    requires Exclusive(s) && t < |s.threads| && Draining(s.threads[t]) && !Settling(s.threads[t])
    ensures Moves(s, t, DrainStep(s, t, writeOk)) && AccountFollows(s, t, DrainStep(s, t, writeOk))
  {
  }

  lemma DrainFollows(s: State, t: nat, writeOk: bool)
    requires Exclusive(s) && t < |s.threads| && Draining(s.threads[t])
    ensures Follows(s, t, DrainStep(s, t, writeOk))
  {
    if Settling(s.threads[t]) {
      SettleFollows(s, t, Loop);
    } else {
      DrainFlags(s, t, writeOk);
      DrainQueue(s, t, writeOk);
      DrainAccount(s, t, writeOk);
    }
  }

  lemma CleanFlags(s: State, t: nat)
    requires Exclusive(s) && t < |s.threads| && Cleaning(s.threads[t]) && !s.threads[t].FailClean?
    ensures Guards(s, t, CleanStep(s, t))
  {
  }

  lemma CleanQueue(s: State, t: nat)
    requires Exclusive(s) && t < |s.threads| && Cleaning(s.threads[t]) && !s.threads[t].FailClean?
    ensures Moves(s, t, CleanStep(s, t)) && QueueFollows(s, t, CleanStep(s, t))
  {
    if s.threads[t] == Clean && s.queue != [] { Pops(s, t, CleanStep(s, t)); } else { Holds(s, t, CleanStep(s, t)); }
  }

  lemma CleanAccount(s: State, t: nat)
    requires Exclusive(s) && t < |s.threads| && Cleaning(s.threads[t]) && !s.threads[t].FailClean?
    ensures Moves(s, t, CleanStep(s, t)) && AccountFollows(s, t, CleanStep(s, t))
  {
  }

  lemma CleanFollows(s: State, t: nat)
    requires Exclusive(s) && t < |s.threads| && Cleaning(s.threads[t])
    ensures Follows(s, t, CleanStep(s, t))
  {
    if s.threads[t].FailClean? {
      SettleFollows(s, t, Clean);
    } else {
      CleanFlags(s, t);
      CleanQueue(s, t);
      CleanAccount(s, t);
    }
  }

  lemma SettleFollows(s: State, t: nat, pc: PC)
    requires Exclusive(s) && t < |s.threads| && Settling(s.threads[t])
    requires if s.threads[t].FailClean? then pc == Clean else pc == Loop
    ensures Follows(s, t, Finish(Goto(s, t, pc), Holding(s.threads[t])[0], Verdict(s.threads[t])))
  {
  }

  lemma StepFollows(s: State, t: nat, writeOk: bool)
    requires Exclusive(s) && Enabled(s, Run(t, writeOk))
    ensures Follows(s, t, Step(s, t, writeOk))
  {
    var pc := s.threads[t];
    if Undecided(pc) { CallerFollows(s, t); }
    else if WillLook(pc) { LookStepFollows(s, t); }
    else if Cleaning(pc) { CleanFollows(s, t); }
    else { DrainFollows(s, t, writeOk); }
  }

  // What follows keeps the invariant.

  lemma KeepsExclusive(s: State, t: nat, s': State)
    requires Exclusive(s) && Follows(s, t, s')
    ensures Exclusive(s')
  {
  }

  /** What is in flight, and with the queue behind it. */
  lemma InFlightFollows(s: State, t: nat, s': State)
    requires Exclusive(s) && Follows(s, t, s')
    ensures var pc := s.threads[t];
            if pc == Enqueue then InFlight(s') == InFlight(s)
            else if Settling(pc) then InFlight(s) == Holding(pc) && InFlight(s') == []
            else InFlight(s) + s.queue == InFlight(s') + s'.queue
  {
    KeepsExclusive(s, t, s');
    var pc, pc' := s.threads[t], s'.threads[t];
    if !InRegion(pc) && !InRegion(pc') && pc != Enqueue {
      assert s.queue == Holding(pc) + s.queue && s'.queue == Holding(pc') + s'.queue;
    }
  }

  lemma KeepsConserved(s: State, t: nat, s': State)
    requires Exclusive(s) && Conserved(s) && Follows(s, t, s')
    ensures Conserved(s')
  {
    var pc, ids := s.threads[t], Ids(s.drained);
    InFlightFollows(s, t, s');
    if pc == Enqueue {
      assert ids + InFlight(s) + s.queue + [t] == ids + InFlight(s) + (s.queue + [t]);
    } else if Settling(pc) {
      assert Ids(s'.drained) == ids + Holding(pc);
      assert ids + Holding(pc) + [] == ids + Holding(pc);
    } else {
      Regrouped(ids, InFlight(s), s.queue, InFlight(s'), s'.queue);
    }
  }

  lemma Regrouped(a: seq<Future>, b: seq<Future>, c: seq<Future>, d: seq<Future>, e: seq<Future>)
    requires b + c == d + e
    ensures a + b + c == a + d + e
  {
    assert a + b + c == a + (b + c) && a + d + e == a + (d + e);
  }

  lemma KeepsNotStranded(s: State, t: nat, s': State)
    requires Exclusive(s) && !Stranded(s) && Follows(s, t, s')
    ensures !Stranded(s')
  {
    if s'.queue != [] && !s'.writeS && !WillLook(s'.threads[t]) {
      var u :| 0 <= u < |s.threads| && WillLook(s.threads[u]);
      assert WillLook(s'.threads[u]);
    }
  }

  lemma KeepsPlaced(s: State, t: nat, s': State, f: Future)
    requires Exclusive(s) && Conserved(s) && Accounted(s) && Follows(s, t, s')
    ensures Placed(s', f)
  {
    assert Placed(s, f) && Placed(s, t);
    var pc := s.threads[t];
    assert f in s'.pushed <==> f in s.pushed || (f == t && pc == Enqueue);
    if Settling(pc) {
      assert s.pushed[|s.drained|] == Holding(pc)[0];
    }
  }

  /** A future is pushed by its own thread, which has not pushed before. */
  lemma KeepsDistinct(s: State, t: nat, s': State)
    requires Accounted(s) && Follows(s, t, s')
    ensures Distinct(s'.pushed)
  {
    assert Placed(s, t);
    if s.threads[t] == Enqueue {
      forall i | 0 <= i < |s.pushed| ensures s.pushed[i] != t { assert s.pushed[i] in s.pushed; }
    }
  }

  lemma KeepsInOrder(s: State, t: nat, s': State)
    requires Exclusive(s) && Conserved(s) && Accounted(s) && Follows(s, t, s')
    ensures InOrder(s')
  {
    KeepsDistinct(s, t, s');
    var pc := s.threads[t];
    if Undecided(pc) {
      assert Placed(s, t);
      forall i | 0 <= i < |s.pushed| ensures s.pushed[i] != t { assert s.pushed[i] in s.pushed; }
    } else if Settling(pc) {
      SettlesNext(s, t);
      assert s'.drained == s.drained + [(s.pushed[|s.drained|], Verdict(pc))];
    }
  }

  /** The future that a drainer is about to complete is the next one in push order. */
  lemma SettlesNext(s: State, t: nat)
    requires Exclusive(s) && Conserved(s) && t < |s.threads| && Settling(s.threads[t])
    ensures |s.drained| < |s.pushed| && s.pushed[|s.drained|] == Holding(s.threads[t])[0]
  {
    assert InFlight(s) == Holding(s.threads[t]);
  }

  /** Every event, including activations, keeps the invariant. */
  lemma InvStep(s: State, e: Event)
    requires Inv(s) && Enabled(s, e)
    ensures Inv(Apply(s, e))
  {
    var s' := Apply(s, e);
    match e
    case Run(t, writeOk) =>
      StepFollows(s, t, writeOk);
      KeepsExclusive(s, t, s');
      KeepsConserved(s, t, s');
      KeepsNotStranded(s, t, s');
      KeepsInOrder(s, t, s');
      forall f ensures Placed(s', f) { KeepsPlaced(s, t, s', f); }
    case Call(_) => CallKeeps(s, e);
    case _ => OutsideKeeps(s, e);
  }

  lemma CallKeeps(s: State, e: Event)
    requires Inv(s) && e.Call?
    ensures Inv(Apply(s, e))
  {
    var s' := Apply(s, e);
    if s'.queue != [] && !s'.writeS {
      var u :| 0 <= u < |s.threads| && WillLook(s.threads[u]);
      assert WillLook(s'.threads[u]);
    }
    forall f ensures Placed(s', f) { assert Placed(s, f) && Placed(s, |s.threads|); }
  }

  lemma OutsideKeeps(s: State, e: Event)
    requires Inv(s) && Enabled(s, e) && (e.Activate? || e.Inactivate? || e.FinishClose?)
    ensures Inv(Apply(s, e))
  {
    forall f ensures Placed(Apply(s, e), f) { assert Placed(s, f); }
  }

  // --------------------------------------------------------------------- runs

  /** es is a run from s: every event is enabled when its turn comes. */
  predicate IsRun(s: State, es: seq<Event>)
    decreases |es|
  {
    es == [] || (Enabled(s, es[0]) && IsRun(Apply(s, es[0]), es[1..]))
  }

  function After(s: State, es: seq<Event>): State
    requires IsRun(s, es)
    decreases |es|
  {
    if es == [] then s else After(Apply(s, es[0]), es[1..])
  }

  lemma {:induction false} InvRun(s: State, es: seq<Event>)
    requires Inv(s) && IsRun(s, es)
    ensures Inv(After(s, es))
    decreases |es|
  {
    if es != [] {
      InvStep(s, es[0]);
      InvRun(Apply(s, es[0]), es[1..]);
    }
  }

  lemma InvInit(active: bool)
    ensures Inv(Init(active))
  {
    var s := Init(active);
    assert Ids(s.drained) == [] && InFlight(s) == [];
    assert Conserved(s) && Exclusive(s) && InOrder(s);
    forall f ensures Placed(s, f) {}
  }

  /** Nobody is inside Write and no drainer is running. */
  ghost predicate Quiescent(s: State) {
    forall t :: 0 <= t < |s.threads| ==> s.threads[t] == Done
  }

  /** No stranded write, in every reachable state and whatever happens to the channel:
      a waiting future has a drainer, or a thread that is bound to look again. */
  lemma NoStrandedWrite(active: bool, es: seq<Event>)
    requires IsRun(Init(active), es)
    ensures var s := After(Init(active), es);
            s.queue != [] ==>
              || (s.writeS && s.drainer < |s.threads| && InRegion(s.threads[s.drainer]))
              || exists t :: 0 <= t < |s.threads| && WillLook(s.threads[t])
  {
    InvInit(active);
    InvRun(Init(active), es);
  }

  /** Mutual exclusion of the drain region, and the order of completions: at any time
      the drainers have completed a prefix of the push order, each future once. */
  lemma ExclusiveAndInOrder(active: bool, es: seq<Event>)
    requires IsRun(Init(active), es)
    ensures var s := After(Init(active), es);
            && (forall t, u | 0 <= t < |s.threads| && 0 <= u < |s.threads| ::
                  InRegion(s.threads[t]) && InRegion(s.threads[u]) ==> t == u)
            && Distinct(s.pushed) && Ids(s.drained) <= s.pushed
            && (forall i :: 0 <= i < |s.drained| ==>
               s.drained[i].0 in s.done && s.done[s.drained[i].0] == s.drained[i].1)
            && (forall i :: |s.drained| <= i < |s.pushed| ==> s.pushed[i] !in s.done)
  {
    InvInit(active);
    InvRun(Init(active), es);
  }

  /** When everybody has returned, the queue is empty, the flag is down, and every call's
      future is completed, except exactly those whose two reads of IsActive disagreed. */
  lemma QuiescentIsComplete(active: bool, es: seq<Event>)
    requires IsRun(Init(active), es) && Quiescent(After(Init(active), es))
    ensures var s := After(Init(active), es);
            && s.queue == [] && !s.writeS && !s.lock
            && s.pushed == Ids(s.drained)
            && (forall f :: f in s.calls <==> f in s.done || f in s.dropped)
            && (forall f :: f in s.dropped ==> f !in s.done)
  {
    InvInit(active);
    InvRun(Init(active), es);
    var s := After(Init(active), es);
    AllDrained(s);
    forall f ensures f in s.calls <==> f in s.done || f in s.dropped {
      assert Placed(s, f);
    }
    forall f | f in s.dropped ensures f !in s.done { assert Placed(s, f); }
  }

  lemma AllDrained(s: State)
    requires Inv(s) && Quiescent(s)
    ensures s.queue == [] && !s.writeS && !s.lock && s.pushed == Ids(s.drained)
    ensures forall f :: f in s.pushed ==> f in s.done
  {
    assert InFlight(s) == [];
    assert Ids(s.drained) + [] + [] == Ids(s.drained);
  }
}
