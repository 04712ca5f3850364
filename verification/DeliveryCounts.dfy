/** What a handler does comes in the order of its script, and how often everybody is visited by
    a read when handlers fire and report any number of times. */
module DeliveryCounts {
  import opened Delivery

  // ------------------------------------------------- order

  /** The visits that a first part of a script causes come before those of the rest, and a panic
      in the first part ends it. */
  lemma {:induction false} ReadActsInOrder<C>(on: seq<seq<Seat<C>>>, back: seq<Seat<C>>, a: seq<ReadAct>,
                                              b: seq<ReadAct>)
    requires Seated(on)
    ensures var first, second := ReadActs(on, back, a), ReadActs(on, back, b);
            ReadActs(on, back, a + b) ==
            if first.panicked then first else Outcome(first.trace + second.trace, second.panicked)
    decreases |a|
  {
    var second := ReadActs(on, back, b);
    if a == [] {
      assert a + b == b;
      assert [] + second.trace == second.trace;
    } else {
      assert (a + b)[1..] == a[1..] + b;
      ReadActsInOrder(on, back, a[1..], b);
      var here := ReadActs(on, back, [a[0]]);
      var rest := ReadActs(on, back, a[1..]);
      ReadActAlone(on, back, a[0]);
      Associates(here.trace, rest.trace, second.trace);
    }
  }

  lemma Associates<V>(a: seq<V>, b: seq<V>, c: seq<V>)
    ensures a + (b + c) == a + b + c
  {
  }

  /** What one entry of a script causes. */
  lemma ReadActAlone<C>(on: seq<seq<Seat<C>>>, back: seq<Seat<C>>, act: ReadAct)
    requires Seated(on)
    ensures ReadActs(on, back, [act]) ==
            match act
            case FireOn => FireRead(on)
            case Report => FireErrorCaught(back)
            case PanicNow => Outcome([], true)
  {
    assert [act][1..] == [] && ReadActs(on, back, []) == Outcome([], false);
    assert FireRead(on).trace + [] == FireRead(on).trace;
    assert FireErrorCaught(back).trace + [] == FireErrorCaught(back).trace;
  }

  lemma {:induction false} ErrorActsInOrder<C>(back: seq<Seat<C>>, a: seq<ErrorAct>, b: seq<ErrorAct>)
    ensures var first, second := ErrorActs(back, a), ErrorActs(back, b);
            ErrorActs(back, a + b) ==
            if first.panicked then first else Outcome(first.trace + second.trace, second.panicked)
    decreases |a|
  {
    var second := ErrorActs(back, b);
    if a == [] {
      assert a + b == b;
      assert [] + second.trace == second.trace;
    } else {
      assert (a + b)[1..] == a[1..] + b;
      ErrorActsInOrder(back, a[1..], b);
      var here, rest := ErrorActs(back, [a[0]]), ErrorActs(back, a[1..]);
      ErrorActAlone(back, a[0]);
      Associates(here.trace, rest.trace, second.trace);
    }
  }

  lemma ErrorActAlone<C>(back: seq<Seat<C>>, act: ErrorAct)
    ensures ErrorActs(back, [act]) == if act == FireBack then FireErrorCaught(back) else Outcome([], true)
  {
    assert [act][1..] == [] && ErrorActs(back, []) == Outcome([], false);
    assert FireErrorCaught(back).trace + [] == FireErrorCaught(back).trace;
  }

  /** A read visits the next stop first.  What it did before a panic stands, and the panic is
      delivered to the same stop, which hands it back. */
  lemma PanicIsDelivered<C>(on: seq<seq<Seat<C>>>)
    requires Seated(on) && on != []
    ensures var acts := ReadActs(on[1..], on[0][1..], on[0][0].script.onRead);
            var caught := ErrorActs(on[0][1..], on[0][0].script.onError);
            FireRead(on) ==
            if acts.panicked then
              Outcome([ReadAt(on[0][0].at)] + acts.trace + [ErrorAt(on[0][0].at)] + caught.trace, caught.panicked)
            else Outcome([ReadAt(on[0][0].at)] + acts.trace, false)
  {
    var acts := ReadActs(on[1..], on[0][1..], on[0][0].script.onRead);
    var caught := ErrorActs(on[0][1..], on[0][0].script.onError);
    assert [ReadAt(on[0][0].at)] + acts.trace + ([ErrorAt(on[0][0].at)] + caught.trace) ==
           [ReadAt(on[0][0].at)] + acts.trace + [ErrorAt(on[0][0].at)] + caught.trace;
  }

  // ------------------------------------------------- how often

  ghost function Count<V>(s: seq<V>, v: V): nat {
    if s == [] then 0 else (if s[0] == v then 1 else 0) + Count(s[1..], v)
  }

  lemma {:induction false} CountConcat<V>(a: seq<V>, b: seq<V>, v: V)
    ensures Count(a + b, v) == Count(a, v) + Count(b, v)
  {
    if a == [] {
      assert a + b == b;
    } else {
      assert (a + b)[1..] == a[1..] + b;
      CountConcat(a[1..], b, v);
    }
  }

  /** m for every v in s. */
  ghost function Each<V>(s: seq<V>, v: V, m: nat): nat {
    if s == [] then 0 else (if s[0] == v then m else 0) + Each(s[1..], v, m)
  }

  lemma {:induction false} EachIsTimes<V>(s: seq<V>, v: V, m: nat)
    ensures Each(s, v, m) == Count(s, v) * m
  {
    if s != [] {
      EachIsTimes(s[1..], v, m);
      Distributes(if s[0] == v then 1 else 0, Count(s[1..], v), m);
    }
  }

  lemma Distributes(a: nat, b: nat, m: nat)
    ensures (a + b) * m == a * m + b * m
  {
  }

  ghost predicate CalmUp<C>(up: seq<Seat<C>>) {
    forall s :: s in up ==> PanicAgain !in s.script.onError
  }

  /** Nobody panics. */
  ghost predicate Calm<C>(on: seq<seq<Seat<C>>>) {
    Seated(on) && forall k :: 0 <= k < |on| ==> CalmUp(on[k]) && PanicNow !in on[k][0].script.onRead
  }

  /** How often an error handed to these seats visits x: once here, and once more for every
      time it is handed on and visits x there. */
  ghost function ErrorVisits<C>(up: seq<Seat<C>>, x: C): nat {
    if up == [] then 0
    else (if up[0].at == x then 1 else 0) + Count(up[0].script.onError, FireBack) * ErrorVisits(up[1..], x)
  }

  /** How often a read fired to these stops reads at x. */
  ghost function ReadVisits<C>(on: seq<seq<Seat<C>>>, x: C): nat
    requires Seated(on)
  {
    if on == [] then 0
    else (if on[0][0].at == x then 1 else 0) + Count(on[0][0].script.onRead, FireOn) * ReadVisits(on[1..], x)
  }

  /** How often it brings an error to x: by the reports of the first stop, and further on. */
  ghost function ReportVisits<C>(on: seq<seq<Seat<C>>>, x: C): nat
    requires Seated(on)
  {
    if on == [] then 0
    else
      Count(on[0][0].script.onRead, Report) * ErrorVisits(on[0][1..], x) +
      Count(on[0][0].script.onRead, FireOn) * ReportVisits(on[1..], x)
  }

  lemma {:induction false} ErrorActsCount<C>(back: seq<Seat<C>>, acts: seq<ErrorAct>, x: C)
    requires CalmUp(back) && PanicAgain !in acts
    ensures !ErrorActs(back, acts).panicked
    ensures Count(ErrorActs(back, acts).trace, ErrorAt(x)) == Each(acts, FireBack, ErrorVisits(back, x))
    ensures Count(ErrorActs(back, acts).trace, ReadAt(x)) == 0
    decreases |back|, 2, |acts|
  {
    if acts != [] {
      assert acts[0] in acts && forall a :: a in acts[1..] ==> a in acts;
      ErrorsCount(back, x);
      ErrorActsCount(back, acts[1..], x);
      var here, rest := FireErrorCaught(back).trace, ErrorActs(back, acts[1..]).trace;
      CountConcat(here, rest, ErrorAt(x));
      CountConcat(here, rest, ReadAt(x));
    }
  }

  /** How often an error that is handed back visits everybody. */
  lemma {:induction false} ErrorsCount<C>(back: seq<Seat<C>>, x: C)
    requires CalmUp(back)
    ensures !FireErrorCaught(back).panicked
    ensures Count(FireErrorCaught(back).trace, ErrorAt(x)) == ErrorVisits(back, x)
    ensures Count(FireErrorCaught(back).trace, ReadAt(x)) == 0
    decreases |back|, 1, 0
  {
    if back != [] {
      assert back[0] in back && forall s :: s in back[1..] ==> s in back;
      var acts := ErrorActs(back[1..], back[0].script.onError);
      ErrorActsCount(back[1..], back[0].script.onError, x);
      EachIsTimes(back[0].script.onError, FireBack, ErrorVisits(back[1..], x));
      CountConcat([ErrorAt(back[0].at)], acts.trace, ErrorAt(x));
      CountConcat([ErrorAt(back[0].at)], acts.trace, ReadAt(x));
      assert [ErrorAt(back[0].at)][1..] == [];
    }
  }

  lemma {:induction false} ReadActsCount<C>(on: seq<seq<Seat<C>>>, back: seq<Seat<C>>, acts: seq<ReadAct>, x: C)
    requires Calm(on) && CalmUp(back) && PanicNow !in acts
    ensures !ReadActs(on, back, acts).panicked
    ensures Count(ReadActs(on, back, acts).trace, ReadAt(x)) == Each(acts, FireOn, ReadVisits(on, x))
    ensures Count(ReadActs(on, back, acts).trace, ErrorAt(x)) ==
            Each(acts, Report, ErrorVisits(back, x)) + Each(acts, FireOn, ReportVisits(on, x))
    decreases |on|, 2, |acts|
  {
    if acts != [] {
      assert acts[0] in acts && forall a :: a in acts[1..] ==> a in acts;
      ReadsCount(on, x);
      ErrorsCount(back, x);
      ReadActsCount(on, back, acts[1..], x);
      var here := if acts[0] == FireOn then FireRead(on).trace else FireErrorCaught(back).trace;
      var rest := ReadActs(on, back, acts[1..]).trace;
      CountConcat(here, rest, ReadAt(x));
      CountConcat(here, rest, ErrorAt(x));
    }
  }

  /** How often a read visits everybody when nobody panics, and how often it brings errors. */
  lemma {:induction false} ReadsCount<C>(on: seq<seq<Seat<C>>>, x: C)
    requires Calm(on)
    ensures !FireRead(on).panicked
    ensures Count(FireRead(on).trace, ReadAt(x)) == ReadVisits(on, x)
    ensures Count(FireRead(on).trace, ErrorAt(x)) == ReportVisits(on, x)
    decreases |on|, 1, 0
  {
    if on != [] {
      var acts := ReadActs(on[1..], on[0][1..], on[0][0].script.onRead);
      assert CalmUp(on[0]) && forall s :: s in on[0][1..] ==> s in on[0];
      ReadActsCount(on[1..], on[0][1..], on[0][0].script.onRead, x);
      EachIsTimes(on[0][0].script.onRead, FireOn, ReadVisits(on[1..], x));
      EachIsTimes(on[0][0].script.onRead, Report, ErrorVisits(on[0][1..], x));
      EachIsTimes(on[0][0].script.onRead, FireOn, ReportVisits(on[1..], x));
      CountConcat([ReadAt(on[0][0].at)], acts.trace, ReadAt(x));
      CountConcat([ReadAt(on[0][0].at)], acts.trace, ErrorAt(x));
      assert [ReadAt(on[0][0].at)][1..] == [];
    }
  }

  /** How often the stops before the k-th fire on, multiplied. */
  ghost function Arrivals<C>(on: seq<seq<Seat<C>>>, k: nat): nat
    requires Seated(on) && k <= |on|
  {
    if k == 0 then 1 else Arrivals(on, k - 1) * Count(on[k - 1][0].script.onRead, FireOn)
  }

  ghost predicate DistinctStops<C>(on: seq<seq<Seat<C>>>)
    requires Seated(on)
  {
    forall i, j :: 0 <= i < j < |on| ==> on[i][0].at != on[j][0].at
  }

  /** Where the stops are different contexts, the k-th of them reads the product of what those
      before it fire. */
  lemma {:induction false} ReadsMultiply<C>(on: seq<seq<Seat<C>>>, k: nat)
    requires Calm(on) && DistinctStops(on) && k < |on|
    ensures Count(FireRead(on).trace, ReadAt(on[k][0].at)) == Arrivals(on, k)
  {
    ReadsCount(on, on[k][0].at);
    VisitsMultiply(on, k);
  }

  lemma {:induction false} VisitsMultiply<C>(on: seq<seq<Seat<C>>>, k: nat)
    requires Seated(on) && DistinctStops(on) && k < |on|
    ensures ReadVisits(on, on[k][0].at) == Arrivals(on, k)
  {
    if k == 0 {
      NeverAgain(on[1..], on[0][0].at);
    } else {
      VisitsMultiply(on[1..], k - 1);
      ArrivalsCons(on, k);
    }
  }

  lemma {:induction false} NeverAgain<C>(on: seq<seq<Seat<C>>>, x: C)
    requires Seated(on) && forall k :: 0 <= k < |on| ==> on[k][0].at != x
    ensures ReadVisits(on, x) == 0
  {
    if on != [] { NeverAgain(on[1..], x); }
  }

  lemma {:induction false} ArrivalsCons<C>(on: seq<seq<Seat<C>>>, k: nat)
    requires Seated(on) && 0 < k <= |on|
    ensures Arrivals(on, k) == Count(on[0][0].script.onRead, FireOn) * Arrivals(on[1..], k - 1)
  {
    if k > 1 {
      ArrivalsCons(on, k - 1);
      assert on[1..][k - 2] == on[k - 1];
      Regrouped(Count(on[0][0].script.onRead, FireOn), Arrivals(on[1..], k - 2),
                Count(on[k - 1][0].script.onRead, FireOn));
    } else {
      assert Arrivals(on, 0) == 1 && Arrivals(on[1..], 0) == 1;
    }
  }

  lemma Regrouped(n: nat, m: nat, l: nat)
    ensures n * m * l == n * (m * l)
  {
  }

  /** Where everybody hands an error back once, it visits every seat once for every report. */
  lemma {:induction false} HandedBackOnce<C>(up: seq<Seat<C>>, x: C)
    requires HandsBack(up)
    ensures ErrorVisits(up, x) == Count(seq(|up|, i requires 0 <= i < |up| => up[i].at), x)
    decreases |up|
  {
    var ats := seq(|up|, i requires 0 <= i < |up| => up[i].at);
    var more := seq(|up| - 1, i requires 0 <= i < |up| - 1 => up[1..][i].at);
    assert ats[1..] == more;
    if |up| > 1 {
      assert up[1..][|up| - 2] == up[|up| - 1];
      HandedBackOnce(up[1..], x);
      assert [FireBack][1..] == [] && Count([FireBack], FireBack) == 1;
    } else {
      assert Count<ErrorAct>([], FireBack) == 0;
    }
  }
}
