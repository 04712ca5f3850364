/** How an inbound read travels from context to context, and what happens to a panic on the
    way.  A read follows next links and an error follows prev links; where a context has been
    removed meanwhile the two need not be each other's inverse, so every stop of a read comes
    with its own way back. */
module Delivery {

  /** What a handler's Read does with its context, in this order. */
  datatype ReadAct = FireOn | Report | PanicNow

  /** What a handler's ErrorCaught does with its context, in this order. */
  datatype ErrorAct = FireBack | PanicAgain

  datatype Script = Script(onRead: seq<ReadAct>, onError: seq<ErrorAct>)

  /** A context and what its handler does. */
  datatype Seat<C> = Seat(at: C, script: Script)

  datatype Visit<C> = ReadAt(at: C) | ErrorAt(at: C)

  /** The callbacks made, and whether a panic leaves the call. */
  datatype Outcome<C> = Outcome(trace: seq<Visit<C>>, panicked: bool)

  function Quiet<C>(): Outcome<C> { Outcome([], false) }

  /** o, and then what next does, unless o already panicked. */
  function Then<C>(o: Outcome<C>, next: Outcome<C>): Outcome<C> {
    if o.panicked then o else Outcome(o.trace + next.trace, next.panicked)
  }

  /** The deferred recovery around a callback: a panic calls ErrorCaught once more. */
  function Recovered<C>(o: Outcome<C>, caught: Outcome<C>): Outcome<C> {
    if !o.panicked then o else Outcome(o.trace + caught.trace, caught.panicked)
  }

  /** ErrorCaught runs at the first seat; the others are on the way to the head. */
  function ErrorCaught<C>(up: seq<Seat<C>>): Outcome<C>
    requires up != []
    decreases |up|, 0, 0
  {
    Then(Outcome([ErrorAt(up[0].at)], false), ErrorActs(up[1..], up[0].script.onError))
  }

  function ErrorActs<C>(back: seq<Seat<C>>, acts: seq<ErrorAct>): Outcome<C>
    decreases |back|, 2, |acts|
  {
    if acts == [] then Quiet()
    else match acts[0]
      case FireBack => Then(FireErrorCaught(back), ErrorActs(back, acts[1..]))
      case PanicAgain => Outcome([], true)
  }

  /** A context fires an error: it goes to the previous handler, guarded. */
  function FireErrorCaught<C>(back: seq<Seat<C>>): Outcome<C>
    decreases |back|, 1, 0
  {
    if back == [] then Quiet() else Recovered(ErrorCaught(back), ErrorCaught(back))
  }

  /** The stops of a read, each with the seats from there to the head. */
  predicate Seated<C>(down: seq<seq<Seat<C>>>) {
    forall k :: 0 <= k < |down| ==> down[k] != []
  }

  /** Read runs at the first stop. */
  function Read<C>(down: seq<seq<Seat<C>>>): Outcome<C>
    requires Seated(down) && down != []
    decreases |down|, 0, 0
  {
    Then(Outcome([ReadAt(down[0][0].at)], false), ReadActs(down[1..], down[0][1..], down[0][0].script.onRead))
  }

  function ReadActs<C>(on: seq<seq<Seat<C>>>, back: seq<Seat<C>>, acts: seq<ReadAct>): Outcome<C>
    requires Seated(on)
    decreases |on|, 2, |acts|
  {
    if acts == [] then Quiet()
    else match acts[0]
      case FireOn => Then(FireRead(on), ReadActs(on, back, acts[1..]))
      case Report => Then(FireErrorCaught(back), ReadActs(on, back, acts[1..]))
      case PanicNow => Outcome([], true)
  }

  /** A context fires a read: it goes to the next handler, guarded. */
  function FireRead<C>(on: seq<seq<Seat<C>>>): Outcome<C>
    requires Seated(on)
    decreases |on|, 1, 0
  {
    if on == [] then Quiet() else Recovered(Read(on), ErrorCaught(on[0]))
  }

  // ------------------------------------------------------------- panics

  /** An error fired back to these seats comes back as a panic. */
  predicate Escapes<C>(back: seq<Seat<C>>) {
    back != [] &&
    (PanicAgain in back[0].script.onError || (FireBack in back[0].script.onError && Escapes(back[1..])))
  }

  /** A read that arrives at the first of these stops panics there. */
  predicate ReadPanics<C>(down: seq<seq<Seat<C>>>)
    requires Seated(down)
    ensures ReadPanics(down) ==> down != []
  {
    && down != []
    && var acts := down[0][0].script.onRead;
       || PanicNow in acts
       || (Report in acts && Escapes(down[0][1..]))
       || (FireOn in acts && ReadPanics(down[1..]) && Escapes(down[1]))
  }

  lemma {:induction false} ErrorActsPanic<C>(back: seq<Seat<C>>, acts: seq<ErrorAct>)
    ensures ErrorActs(back, acts).panicked <==> PanicAgain in acts || (FireBack in acts && Escapes(back))
    decreases |back|, 2, |acts|
  {
    if acts != [] {
      assert acts == [acts[0]] + acts[1..];
      EscapesIff(back);
      ErrorActsPanic(back, acts[1..]);
    }
  }

  /** A panic leaves the firing of an error if and only if some ErrorCaught that the error
      is handed to panics of itself. */
  lemma {:induction false} EscapesIff<C>(back: seq<Seat<C>>)
    ensures FireErrorCaught(back).panicked <==> Escapes(back)
    ensures back != [] ==> (ErrorCaught(back).panicked <==> Escapes(back))
    decreases |back|, 1, 0
  {
    if back != [] { ErrorActsPanic(back[1..], back[0].script.onError); }
  }

  lemma {:induction false} ReadActsPanic<C>(on: seq<seq<Seat<C>>>, back: seq<Seat<C>>, acts: seq<ReadAct>)
    requires Seated(on)
    ensures ReadActs(on, back, acts).panicked <==>
              || PanicNow in acts
              || (Report in acts && Escapes(back))
              || (FireOn in acts && ReadPanics(on) && Escapes(on[0]))
    decreases |on|, 2, |acts|
  {
    if acts != [] {
      assert acts == [acts[0]] + acts[1..];
      LeavesIff(on);
      EscapesIff(back);
      ReadActsPanic(on, back, acts[1..]);
    }
  }

  /** Exactly when a panic leaves the firing of a read: the next Read panics, and so does the
      ErrorCaught that the panic is delivered to. */
  lemma {:induction false} LeavesIff<C>(on: seq<seq<Seat<C>>>)
    requires Seated(on)
    ensures FireRead(on).panicked <==> ReadPanics(on) && Escapes(on[0])
    decreases |on|, 1, 0
  {
    if on != [] {
      ReadActsPanic(on[1..], on[0][1..], on[0][0].script.onRead);
      EscapesIff(on[0]);
    }
  }

  lemma {:induction false} TameStays<C>(back: seq<Seat<C>>)
    requires forall s :: s in back ==> PanicAgain !in s.script.onError
    ensures !Escapes(back)
  {
    if back != [] {
      assert back[0] in back;
      TameStays(back[1..]);
    }
  }

  /** Panic containment: as long as no ErrorCaught between the next handler and the head
      panics itself, firing a read returns normally, whatever the Read callbacks do and
      however often they fire or panic. */
  lemma PanicsAreContained<C>(on: seq<seq<Seat<C>>>)
    requires Seated(on) && (on != [] ==> forall s :: s in on[0] ==> PanicAgain !in s.script.onError)
    ensures !FireRead(on).panicked
  {
    LeavesIff(on);
    if on != [] { TameStays(on[0]); }
  }

  /** Whenever a panic leaves the firing of an error, ErrorCaught was called twice. */
  lemma EscapesTwice<C>(back: seq<Seat<C>>)
    requires Escapes(back)
    ensures FireErrorCaught(back) == Outcome(ErrorCaught(back).trace + ErrorCaught(back).trace, true)
  {
    EscapesIff(back);
  }

  // ------------------------------------------------- handlers as they usually are

  const PASS: Script := Script([FireOn], [FireBack])
  const CONSUME: Script := Script([], [FireBack])
  const PANIC: Script := Script([PanicNow], [FireBack])
  const HEAD_SCRIPT: Script := Script([FireOn], [])
  const TAIL_SCRIPT: Script := Script([Report], [FireBack])

  /** Errors are handed back from seat to seat, up to the last one, which keeps them. */
  predicate HandsBack<C>(up: seq<Seat<C>>) {
    && up != [] && up[|up| - 1].script.onError == []
    && forall i :: 0 <= i < |up| - 1 ==> up[i].script.onError == [FireBack]
  }

  /** The stops pass a read on, consume it or panic; the last one is the tail. */
  predicate Usual<C>(on: seq<seq<Seat<C>>>) {
    && on != [] && (forall k :: 0 <= k < |on| ==> HandsBack(on[k]))
    && on[|on| - 1][0].script == TAIL_SCRIPT
    && forall k :: 0 <= k < |on| - 1 ==> on[k][0].script in {PASS, CONSUME, PANIC}
  }

  /** An error at each of these seats, in this order. */
  function Errors<C>(up: seq<Seat<C>>): seq<Visit<C>> {
    seq(|up|, k requires 0 <= k < |up| => ErrorAt(up[k].at))
  }

  /** A read at each of the first n stops, in this order. */
  function Reads<C>(on: seq<seq<Seat<C>>>, n: nat): seq<Visit<C>>
    requires Seated(on) && n <= |on|
  {
    seq(n, k requires 0 <= k < n => ReadAt(on[k][0].at))
  }

  /** An error visits every seat on its way once, and the last one keeps it. */
  lemma {:induction false} ErrorGoesToHead<C>(up: seq<Seat<C>>)
    requires HandsBack(up)
    ensures ErrorCaught(up) == Outcome(Errors(up), false)
    decreases |up|
  {
    var back := up[1..];
    assert ErrorActs(back, []) == Quiet();
    if back == [] {
      assert [ErrorAt(up[0].at)] + [] == Errors(up);
    } else {
      ErrorGoesToHead(back);
      assert FireErrorCaught(back) == Outcome(Errors(back), false);
      assert [FireBack][1..] == [] && Errors(back) + [] == Errors(back);
      assert [ErrorAt(up[0].at)] + Errors(back) == Errors(up);
    }
  }

  /** The first stop that does not pass the read on; the tail, at the latest. */
  function Stop<C>(on: seq<seq<Seat<C>>>): (k: nat)
    requires Seated(on) && on != []
    ensures k < |on|
  {
    if |on| == 1 || on[0][0].script != PASS then 0 else 1 + Stop(on[1..])
  }

  /** What the handler that stops the read makes of it. */
  function Reaction<C>(on: seq<seq<Seat<C>>>, k: nat): seq<Visit<C>>
    requires Seated(on) && k < |on|
  {
    if k == |on| - 1 then Errors(on[k][1..])
    else if on[k][0].script == PANIC then Errors(on[k])
    else []
  }

  lemma ReadHere<C>(down: seq<seq<Seat<C>>>)
    requires Seated(down) && down != []
    ensures var here, on, back := ReadAt(down[0][0].at), down[1..], down[0][1..];
            var acts := down[0][0].script.onRead;
            && (acts == [FireOn] ==> Read(down) == Outcome([here] + FireRead(on).trace, FireRead(on).panicked))
            && (acts == [Report] ==>
                  Read(down) == Outcome([here] + FireErrorCaught(back).trace, FireErrorCaught(back).panicked))
            && (acts == [PanicNow] ==> Read(down) == Outcome([here], true))
            && (acts == [] ==> Read(down) == Outcome([here], false))
  {
    var here, on, back := ReadAt(down[0][0].at), down[1..], down[0][1..];
    assert ReadActs(on, back, []) == Quiet() && [here] + [] == [here];
    assert [FireOn][1..] == [] && [Report][1..] == [];
    assert FireRead(on).trace + [] == FireRead(on).trace &&
           FireErrorCaught(back).trace + [] == FireErrorCaught(back).trace;
  }

  /** The tail reports a read that nobody consumed. */
  lemma TailReports<C>(on: seq<seq<Seat<C>>>)
    requires Usual(on) && |on| == 1
    ensures FireRead(on) == Outcome([ReadAt(on[0][0].at)] + Errors(on[0][1..]), false)
  {
    var up := on[0];
    assert HandsBack(up) && up[1..][|up| - 2] == up[|up| - 1];
    ReadHere(on);
    ErrorGoesToHead(up[1..]);
  }

  lemma PassedOn<C>(on: seq<seq<Seat<C>>>, n: nat)
    requires Seated(on) && n < |on| - 1
    ensures [ReadAt(on[0][0].at)] + (Reads(on[1..], n + 1) + Reaction(on[1..], n)) ==
            Reads(on, n + 2) + Reaction(on, n + 1)
  {
    assert [ReadAt(on[0][0].at)] + Reads(on[1..], n + 1) == Reads(on, n + 2);
  }

  /** A handler that does not pass a read on ends it, by itself or through a panic. */
  lemma StopsHere<C>(on: seq<seq<Seat<C>>>)
    requires Usual(on) && |on| > 1 && on[0][0].script != PASS
    ensures FireRead(on) == Outcome([ReadAt(on[0][0].at)] + Reaction(on, 0), false)
  {
    assert HandsBack(on[0]);
    ReadHere(on);
    ErrorGoesToHead(on[0]);
    assert [ReadAt(on[0][0].at)] + [] == [ReadAt(on[0][0].at)];
  }

  lemma PassesOn<C>(on: seq<seq<Seat<C>>>, rest: seq<Visit<C>>)
    requires Seated(on) && on != [] && on[0][0].script == PASS && FireRead(on[1..]) == Outcome(rest, false)
    ensures FireRead(on) == Outcome([ReadAt(on[0][0].at)] + rest, false)
  {
    ReadHere(on);
  }

  lemma DeliveredFurther<C>(on: seq<seq<Seat<C>>>, n: nat)
    requires Seated(on) && n < |on| - 1 && on[0][0].script == PASS
    requires FireRead(on[1..]) == Outcome(Reads(on[1..], n + 1) + Reaction(on[1..], n), false)
    ensures FireRead(on) == Outcome(Reads(on, n + 2) + Reaction(on, n + 1), false)
  {
    PassesOn(on, Reads(on[1..], n + 1) + Reaction(on[1..], n));
    PassedOn(on, n);
  }

  /** Delivery to these stops: the read visits them in order up to the first that does not
      pass it on.  If that one consumes it, nothing more happens; if it panics, ErrorCaught
      is called from there to the head, once each; if nobody consumes it, the tail reports
      it to everybody before it, down to the head.  In every case the firing call returns
      normally. */
  lemma {:induction false} ReadIsDelivered<C>(on: seq<seq<Seat<C>>>)
    requires Usual(on)
    ensures FireRead(on) == Outcome(Reads(on, Stop(on) + 1) + Reaction(on, Stop(on)), false)
    decreases |on|
  {
    if |on| == 1 {
      TailReports(on);
      assert Reads(on, 1) == [ReadAt(on[0][0].at)];
    } else if on[0][0].script == PASS {
      ReadIsDelivered(on[1..]);
      DeliveredFurther(on, Stop(on[1..]));
    } else {
      StopsHere(on);
      assert Reads(on, 1) == [ReadAt(on[0][0].at)];
    }
  }

  // ------------------------------------------------- a list of contexts

  /** The elements from position j back to the first. */
  function WayUp<T>(cs: seq<T>, j: nat): (r: seq<T>)
    requires j < |cs|
    ensures |r| == j + 1
  {
    seq(j + 1, m requires 0 <= m <= j => cs[j - m])
  }

  /** The stops from position i on, each with its way back. */
  function WayDown<T>(cs: seq<T>, i: nat): (r: seq<seq<T>>)
    requires i <= |cs|
    ensures |r| == |cs| - i
  {
    seq(|cs| - i, k requires 0 <= k < |cs| - i => WayUp(cs, i + k))
  }

  lemma WayDownCons<T>(cs: seq<T>, i: nat)
    requires i < |cs|
    ensures WayDown(cs, i) == [WayUp(cs, i)] + WayDown(cs, i + 1) && WayDown(cs, |cs|) == []
  {
  }

  predicate UsualList<C>(cs: seq<Seat<C>>) {
    && |cs| >= 2 && cs[0].script == HEAD_SCRIPT && cs[|cs| - 1].script == TAIL_SCRIPT
    && forall i :: 0 < i < |cs| - 1 ==> cs[i].script in {PASS, CONSUME, PANIC}
  }

  function ListReaction<C>(cs: seq<Seat<C>>, k: nat): seq<Visit<C>>
    requires 0 < k < |cs|
  {
    if k == |cs| - 1 then Errors(WayUp(cs, k - 1)) else if cs[k].script == PANIC then Errors(WayUp(cs, k)) else []
  }

  lemma HandsBackList<C>(cs: seq<Seat<C>>, j: nat)
    requires UsualList(cs) && j < |cs|
    ensures HandsBack(WayUp(cs, j))
  {
  }

  lemma UsualWays<C>(cs: seq<Seat<C>>, i: nat)
    requires UsualList(cs) && 0 < i < |cs|
    ensures Usual(WayDown(cs, i))
  {
    var on := WayDown(cs, i);
    forall k | 0 <= k < |on| ensures HandsBack(on[k]) && on[k][0] == cs[i + k] {
      HandsBackList(cs, i + k);
    }
  }

  /** The first context from i on that does not pass the read on; the last, at the latest. */
  function ListStop<C>(cs: seq<Seat<C>>, i: nat): (k: nat)
    requires i < |cs|
    ensures i <= k < |cs|
    decreases |cs| - i
  {
    if i == |cs| - 1 || cs[i].script != PASS then i else ListStop(cs, i + 1)
  }

  lemma {:induction false} ListStopIsFirst<C>(cs: seq<Seat<C>>, i: nat)
    requires i < |cs|
    ensures forall j :: i <= j < ListStop(cs, i) ==> cs[j].script == PASS
    ensures ListStop(cs, i) < |cs| - 1 ==> cs[ListStop(cs, i)].script != PASS
    decreases |cs| - i
  {
    if i < |cs| - 1 && cs[i].script == PASS { ListStopIsFirst(cs, i + 1); }
  }

  lemma {:induction false} StopInList<C>(cs: seq<Seat<C>>, i: nat)
    requires i < |cs| && Seated(WayDown(cs, i))
    ensures i + Stop(WayDown(cs, i)) == ListStop(cs, i)
    decreases |cs| - i
  {
    var on := WayDown(cs, i);
    if i < |cs| - 1 {
      assert on[1..] == WayDown(cs, i + 1) && on[0] == WayUp(cs, i);
      StopInList(cs, i + 1);
    }
  }

  lemma ReactionInList<C>(cs: seq<Seat<C>>, i: nat, n: nat)
    requires 0 < i <= i + n < |cs| && Seated(WayDown(cs, i))
    ensures Reaction(WayDown(cs, i), n) == ListReaction(cs, i + n)
  {
    assert WayUp(cs, i + n)[1..] == WayUp(cs, i + n - 1);
  }

  lemma Delivered<C>(on: seq<seq<Seat<C>>>, n: nat)
    requires Usual(on) && n == Stop(on)
    ensures FireRead(on) == Outcome(Reads(on, n + 1) + Reaction(on, n), false)
  {
    ReadIsDelivered(on);
  }

  lemma WaysAreSeated<T>(cs: seq<Seat<T>>, i: nat)
    requires i <= |cs|
    ensures Seated(WayDown(cs, i))
  {
    forall k | 0 <= k < |cs| - i ensures WayDown(cs, i)[k] != [] { assert |WayUp(cs, i + k)| > 0; }
  }

  lemma DeliveredInList<C>(cs: seq<Seat<C>>, i: nat, n: nat)
    requires UsualList(cs) && 0 < i <= i + n < |cs| && i + n == ListStop(cs, i)
    ensures Seated(WayDown(cs, i))
    ensures FireRead(WayDown(cs, i)) == Outcome(Reads(WayDown(cs, i), n + 1) + Reaction(WayDown(cs, i), n), false)
  {
    WaysAreSeated(cs, i);
    StopInList(cs, i);
    UsualWays(cs, i);
    Delivered(WayDown(cs, i), n);
  }

  /** In a list the read goes up from its i-th context, and an error goes down. */
  lemma ListDelivery<C>(cs: seq<Seat<C>>, i: nat, n: nat)
    requires UsualList(cs) && 0 < i <= i + n < |cs| && i + n == ListStop(cs, i)
    ensures Seated(WayDown(cs, i))
    ensures FireRead(WayDown(cs, i)) == Outcome(Reads(WayDown(cs, i), n + 1) + ListReaction(cs, i + n), false)
  {
    DeliveredInList(cs, i, n);
    ReactionInList(cs, i, n);
  }
}
