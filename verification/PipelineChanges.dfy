/** Handlers that change the pipeline while a read or an error is on its way through it. */
module PipelineChanges {
  import opened Pipeline
  import opened PipelineTheorems

  // ------------------------------------------------------------- links and ranks

  /** A read follows next links, an error goes back along prev links. */
  function LinkOf(c: Context, back: bool): Context?
    reads c
  {
    if back then c.prev else c.next
  }

  function Reversed(cs: seq<Context>): (r: seq<Context>)
    ensures |r| == |cs| && forall i :: 0 <= i < |cs| ==> r[i] == cs[|cs| - 1 - i]
  {
    seq(|cs|, i requires 0 <= i < |cs| => cs[|cs| - 1 - i])
  }

  /** A list in the order in which it is followed. */
  function WayOf(chain: seq<Context>, back: bool): seq<Context> {
    if back then Reversed(chain) else chain
  }

  ghost function Way(p: Pipeline, back: bool): seq<Context>
    reads p
  {
    WayOf(p.chain, back)
  }

  function EndOf(p: Pipeline, back: bool): Context {
    if back then p.head else p.tail
  }

  /** Where every context that can be followed leads. */
  type Links = map<Context, Context?>

  ghost function LinksOf(p: Pipeline, back: bool): Links
    reads p, p.Known()
  {
    map c | c in p.Known() :: LinkOf(c, back)
  }

  /** These contexts are linked one to the next. */
  ghost predicate Listed(links: Links, chain: seq<Context>) {
    && |chain| >= 2 && (forall c :: c in chain ==> c in links)
    && (forall i :: 0 <= i < |chain| - 1 ==> links[chain[i]] == chain[i + 1])
    && links[chain[|chain| - 1]] == null
  }

  /** A place for every context, kept for good; those below zero had been removed before. */
  type Ranks = map<Context, real>

  /** Links only ever lead to higher places. */
  ghost predicate Climbing(links: Links, ranks: Ranks) {
    ranks.Keys == links.Keys &&
    forall c :: c in links && links[c] != null ==> links[c] in links && ranks[c] < ranks[links[c]]
  }

  ghost predicate LinkedAboveZero(ranks: Ranks, chain: seq<Context>) {
    forall c :: c in chain ==> c in ranks && 0.0 <= ranks[c]
  }

  /** The link of c does not lead past d. */
  ghost predicate Minds(links: Links, ranks: Ranks, c: Context, d: Context)
    requires Climbing(links, ranks) && c in links && d in links && links[c] != null
  {
    ranks[d] <= ranks[c] || d == links[c] || ranks[links[c]] < ranks[d]
  }

  /** No link leads past one of these contexts that is still linked. */
  ghost predicate Skipless(links: Links, ranks: Ranks, chain: seq<Context>, was: set<Context>)
    requires Climbing(links, ranks) && was <= links.Keys
  {
    forall c, d :: c in links && links[c] != null && 0.0 <= ranks[c] && d in was && d in chain ==>
           Minds(links, ranks, c, d)
  }

  ghost predicate Travelling(links: Links, ranks: Ranks, chain: seq<Context>, was: set<Context>) {
    && Climbing(links, ranks) && was <= links.Keys && LinkedAboveZero(ranks, chain)
    && Skipless(links, ranks, chain, was)
  }

  // ------------------------------------------------------------- one context more, one less

  ghost function Between(ranks: Ranks, a: Context, b: Context): real
    requires a in ranks && b in ranks
  {
    (ranks[a] + ranks[b]) / 2.0
  }

  lemma PutClimbs(links: Links, ranks: Ranks, a: Context, w: Context, b: Context)
    requires Climbing(links, ranks) && a in links && links[a] == b && w !in links
    ensures Climbing(links[a := w][w := b], ranks[w := Between(ranks, a, b)])
  {
  }

  /** A context put between two others gets a place between theirs. */
  lemma PutTravels(links: Links, ranks: Ranks, chain: seq<Context>, now: seq<Context>, k: nat, was: set<Context>)
    requires Travelling(links, ranks, chain, was) && Listed(links, chain) && PutAt(chain, now, k) && now[k] !in links
    ensures var a, w, b := chain[k - 1], now[k], chain[k];
            Travelling(links[a := w][w := b], ranks[w := Between(ranks, a, b)], now, was)
  {
    var a, w, b := chain[k - 1], now[k], chain[k];
    assert links[a] == b by { assert links[chain[k - 1]] == chain[k - 1 + 1]; }
    PutClimbs(links, ranks, a, w, b);
    var l, r := links[a := w][w := b], ranks[w := Between(ranks, a, b)];
    forall c | c in now ensures c in chain || c == w {}
    forall c, d | c in l && l[c] != null && 0.0 <= r[c] && d in was && d in now ensures Minds(l, r, c, d) {
      assert d in chain;
      assert Minds(links, ranks, if c == w then a else c, d);
    }
  }

  /** And one taken out leaves its neighbours where they were. */
  lemma TakenTravels(links: Links, ranks: Ranks, chain: seq<Context>, now: seq<Context>, k: nat, was: set<Context>)
    requires Travelling(links, ranks, chain, was) && Listed(links, chain) && TakenAt(chain, now, k) && Distinct(chain)
    ensures Travelling(links[chain[k - 1] := chain[k + 1]], ranks, now, was)
  {
    var a, y, b := chain[k - 1], chain[k], chain[k + 1];
    assert links[a] == y && links[y] == b by {
      assert links[chain[k - 1]] == chain[k - 1 + 1];
    }
    DistinctRemove(chain, k);
    var l := links[a := b];
    forall c, d | c in l && l[c] != null && 0.0 <= ranks[c] && d in was && d in now ensures Minds(l, ranks, c, d) {
      assert d in chain && d != y;
      assert Minds(links, ranks, c, d);
      assert Minds(links, ranks, y, d);
    }
  }

  // ------------------------------------------------------------- the operations

  lemma WayMembers(chain: seq<Context>, back: bool)
    ensures forall c :: c in WayOf(chain, back) <==> c in chain
  {
    forall c | c in chain ensures c in WayOf(chain, back) {
      var i :| 0 <= i < |chain| && chain[i] == c;
      assert Reversed(chain)[|chain| - 1 - i] == c;
    }
  }

  lemma WayListed(p: Pipeline, back: bool)
    requires p.Valid()
    ensures Listed(LinksOf(p, back), Way(p, back)) && Distinct(Way(p, back))
    ensures Way(p, back)[|p.chain| - 1] == EndOf(p, back)
  {
    WayMembers(p.chain, back);
    var way := Way(p, back);
    forall i | 0 <= i < |way| - 1 ensures LinkOf(way[i], back) == way[i + 1] {
      if back {
        assert p.chain[|way| - 1 - i].prev == p.chain[|way| - 2 - i];
      } else {
        assert p.chain[i].next == p.chain[i + 1];
      }
    }
  }

  lemma PutMembers(chain: seq<Context>, now: seq<Context>, k: nat)
    requires PutAt(chain, now, k)
    ensures forall c :: c in now <==> c in chain || c == now[k]
  {
    assert chain == chain[..k] + chain[k..];
  }

  /** The links after an insertion, at the i-th context. */
  lemma LinkPut(links: Links, chain: seq<Context>, now: seq<Context>, k: nat, i: nat)
    requires Listed(links, chain) && PutAt(chain, now, k) && Distinct(chain) && i < |now|
    ensures links[chain[k - 1] := now[k]][now[k] := chain[k]][now[i]] == if i + 1 < |now| then now[i + 1] else null
  {
    if i < k {
      assert now[i] == chain[i];
    } else if i > k {
      assert now[i] == chain[i - 1];
    }
  }

  /** The links of these contexts, those of a list and those removed. */
  ghost predicate Complete(links: Links, chain: seq<Context>, stale: seq<Context>) {
    Listed(links, chain) && links.Keys == (set c | c in chain) + (set c | c in stale)
  }

  lemma LinksPut(links: Links, chain: seq<Context>, led: Links, now: seq<Context>, stale: seq<Context>, k: nat)
    requires Complete(links, chain, stale) && Complete(led, now, stale)
    requires PutAt(chain, now, k) && Distinct(chain) && now[k] !in links
    requires forall c :: c in stale ==> c !in chain && led[c] == links[c]
    ensures led == links[chain[k - 1] := now[k]][now[k] := chain[k]]
  {
    var l := links[chain[k - 1] := now[k]][now[k] := chain[k]];
    PutMembers(chain, now, k);
    assert led.Keys == l.Keys;
    forall c | c in l ensures led[c] == l[c] {
      if c in now {
        var i :| 0 <= i < |now| && now[i] == c;
        LinkPut(links, chain, now, k, i);
      }
    }
  }

  /** The links after a removal, at the i-th context. */
  lemma LinkTaken(links: Links, chain: seq<Context>, now: seq<Context>, k: nat, i: nat)
    requires Listed(links, chain) && TakenAt(chain, now, k) && Distinct(chain) && i < |now|
    ensures links[chain[k - 1] := chain[k + 1]][now[i]] == if i + 1 < |now| then now[i + 1] else null
  {
    if i < k {
      assert now[i] == chain[i];
    } else {
      assert now[i] == chain[i + 1];
    }
  }

  lemma LinksTaken(links: Links, chain: seq<Context>, led: Links, now: seq<Context>, stale: seq<Context>, k: nat)
    requires Listed(links, chain) && TakenAt(chain, now, k) && Distinct(chain)
    requires Complete(led, now, stale) && links.Keys == led.Keys
    requires forall c :: c in stale ==> c !in now && led[c] == links[c]
    ensures led == links[chain[k - 1] := chain[k + 1]]
  {
    var l := links[chain[k - 1] := chain[k + 1]];
    assert now[k - 1] == chain[k - 1];
    forall c | c in l ensures led[c] == l[c] {
      if c in now {
        var i :| 0 <= i < |now| && now[i] == c;
        LinkTaken(links, chain, now, k, i);
      }
    }
  }

  ghost predicate Keeps(ranks: Ranks, now: Ranks) {
    forall c :: c in ranks ==> c in now && now[c] == ranks[c]
  }

  /** Of these contexts, those linked now were linked before. */
  ghost predicate NoneBack(chain: seq<Context>, now: seq<Context>, was: set<Context>) {
    forall c :: c in was && c in now ==> c in chain
  }

  /** What is known of the links before an operation. */
  ghost predicate Before(links: Links, chain: seq<Context>, stale: seq<Context>, ranks: Ranks, was: set<Context>) {
    Complete(links, chain, stale) && Distinct(chain) && Travelling(links, ranks, chain, was)
  }

  lemma AfterPut(links: Links, chain: seq<Context>, led: Links, now: seq<Context>, stale: seq<Context>, ranks: Ranks,
                 was: set<Context>) returns (places: Ranks)
    requires Before(links, chain, stale, ranks, was) && Complete(led, now, stale) && Put(chain, now)
    requires forall c :: c in now && c in links ==> c in chain
    requires forall c :: c in stale ==> c !in chain && led[c] == links[c]
    ensures Travelling(led, places, now, was) && Keeps(ranks, places) && NoneBack(chain, now, was)
  {
    var k: nat :| PutAt(chain, now, k);
    LinksPut(links, chain, led, now, stale, k);
    PutTravels(links, ranks, chain, now, k, was);
    places := ranks[now[k] := Between(ranks, chain[k - 1], chain[k])];
  }

  lemma TakenMembers(chain: seq<Context>, now: seq<Context>, k: nat, stale: seq<Context>)
    requires Distinct(chain) && TakenAt(chain, now, k)
    ensures (set c | c in now) + (set c | c in stale + [chain[k]]) == (set c | c in chain) + (set c | c in stale)
    ensures forall c :: c in now <==> c in chain && c != chain[k]
  {
    DistinctRemove(chain, k);
  }

  /** One context was taken out, and leads where it led. */
  ghost predicate Drop(chain: seq<Context>, stale: seq<Context>, led: Links, now: seq<Context>,
                       staleNow: seq<Context>)
  {
    exists k: nat :: TakenAt(chain, now, k) && staleNow == stale + [chain[k]] &&
                     chain[k] in led && led[chain[k]] == chain[k + 1]
  }

  lemma AfterTaken(links: Links, chain: seq<Context>, stale: seq<Context>, led: Links, now: seq<Context>,
                   staleNow: seq<Context>, ranks: Ranks, was: set<Context>)
    requires Before(links, chain, stale, ranks, was) && Complete(led, now, staleNow)
    requires Drop(chain, stale, led, now, staleNow)
    requires forall c :: c in stale ==> c !in chain && c in led && led[c] == links[c]
    ensures Travelling(led, ranks, now, was) && NoneBack(chain, now, was)
  {
    var k: nat :| TakenAt(chain, now, k) && staleNow == stale + [chain[k]] && led[chain[k]] == chain[k + 1];
    TakenMembers(chain, now, k, stale);
    assert links[chain[k]] == chain[k + 1];
    LinksTaken(links, chain, led, now, staleNow, k);
    TakenTravels(links, ranks, chain, now, k, was);
  }

  lemma AfterNothing(links: Links, led: Links, chain: seq<Context>, stale: seq<Context>)
    requires Complete(links, chain, stale) && Complete(led, chain, stale)
    requires forall c :: c in stale ==> led[c] == links[c]
    ensures led == links
  {
    forall c | c in chain ensures led[c] == links[c] {
      var i :| 0 <= i < |chain| && chain[i] == c;
      SameLink(links, led, chain, i);
    }
  }

  lemma SameLink(links: Links, led: Links, chain: seq<Context>, i: nat)
    requires Listed(links, chain) && Listed(led, chain) && i < |chain|
    ensures led[chain[i]] == links[chain[i]]
  {
    if i + 1 < |chain| { assert links[chain[i]] == chain[i + 1]; }
  }

  lemma After(links: Links, chain: seq<Context>, stale: seq<Context>, led: Links, now: seq<Context>,
              staleNow: seq<Context>, ranks: Ranks, was: set<Context>) returns (places: Ranks)
    requires Before(links, chain, stale, ranks, was) && Complete(led, now, staleNow)
    requires (staleNow == stale && (now == chain || Put(chain, now))) || Drop(chain, stale, led, now, staleNow)
    requires forall c :: c in now && c in links ==> c in chain
    requires forall c :: c in stale ==> c !in chain && c in led && led[c] == links[c]
    ensures Travelling(led, places, now, was) && Keeps(ranks, places) && NoneBack(chain, now, was)
  {
    if Drop(chain, stale, led, now, staleNow) {
      AfterTaken(links, chain, stale, led, now, staleNow, ranks, was);
      places := ranks;
    } else if now != chain {
      places := AfterPut(links, chain, led, now, stale, ranks, was);
    } else {
      AfterNothing(links, led, chain, stale);
      places := ranks;
    }
  }

  /** Inserting is inserting in the other direction too. */
  lemma PutTurned(chain: seq<Context>, now: seq<Context>, back: bool)
    requires Put(chain, now)
    ensures Put(WayOf(chain, back), WayOf(now, back))
  {
    var k: nat :| PutAt(chain, now, k);
    if back {
      WayMembers(chain, back);
      PutReversed(chain, now, k);
      assert PutAt(Reversed(chain), Reversed(now), |chain| - k);
    }
  }

  lemma PutReversed(chain: seq<Context>, now: seq<Context>, k: nat)
    requires PutAt(chain, now, k)
    ensures var r, j := Reversed(chain), |chain| - k;
            Reversed(now) == r[..j] + [now[k]] + r[j..] && Reversed(now)[j] == now[k]
  {
    var r, j := Reversed(chain), |chain| - k;
    forall i | 0 <= i < |now| ensures Reversed(now)[i] == (r[..j] + [now[k]] + r[j..])[i] {
      assert now[|now| - 1 - i] == (chain[..k] + [now[k]] + chain[k..])[|now| - 1 - i];
    }
  }

  lemma TakenReversed(chain: seq<Context>, now: seq<Context>, k: nat)
    requires TakenAt(chain, now, k)
    ensures TakenAt(Reversed(chain), Reversed(now), |chain| - 1 - k)
  {
    var r, j := Reversed(chain), |chain| - 1 - k;
    forall i | 0 <= i < |now| ensures Reversed(now)[i] == (r[..j] + r[j + 1..])[i] {
      assert now[|now| - 1 - i] == (chain[..k] + chain[k + 1..])[|now| - 1 - i];
    }
  }

  lemma TakenTurnedAt(chain: seq<Context>, now: seq<Context>, k: nat, back: bool) returns (j: nat)
    requires TakenAt(chain, now, k)
    ensures TakenAt(WayOf(chain, back), WayOf(now, back), j) && WayOf(chain, back)[j] == chain[k]
    ensures WayOf(chain, back)[j + 1] == if back then chain[k - 1] else chain[k + 1]
  {
    j := k;
    if back {
      TakenReversed(chain, now, k);
      j := |chain| - 1 - k;
    }
  }

  lemma DropAt(chain: seq<Context>, stale: seq<Context>, led: Links, now: seq<Context>, staleNow: seq<Context>, j: nat)
    requires TakenAt(chain, now, j) && staleNow == stale + [chain[j]]
    requires chain[j] in led && led[chain[j]] == chain[j + 1]
    ensures Drop(chain, stale, led, now, staleNow)
  {
  }

  lemma LedBy(p: Pipeline, back: bool, c: Context)
    requires c in p.stale
    ensures c in LinksOf(p, back) && LinksOf(p, back)[c] == LinkOf(c, back)
  {
  }

  lemma TakenTurned(p: Pipeline, chain: seq<Context>, stale: seq<Context>, back: bool)
    requires p.Taken(chain, stale)
    ensures Drop(WayOf(chain, back), stale, LinksOf(p, back), Way(p, back), p.stale)
  {
    var k: nat :| TakenAt(chain, p.chain, k) && p.stale == stale + [chain[k]] &&
                  chain[k].next == chain[k + 1] && chain[k].prev == chain[k - 1];
    var c := chain[k];
    assert p.stale[|stale|] == c;
    LedBy(p, back, c);
    var j := TakenTurnedAt(chain, p.chain, k, back);
    DropAt(WayOf(chain, back), stale, LinksOf(p, back), Way(p, back), p.stale, j);
  }

  lemma KnownLinks(p: Pipeline, back: bool)
    requires p.Valid()
    ensures Complete(LinksOf(p, back), Way(p, back), p.stale) && Distinct(Way(p, back))
  {
    WayMembers(p.chain, back);
    WayListed(p, back);
  }

  /** An operation, seen in the direction in which the links are followed. */
  lemma Turned(p: Pipeline, chain: seq<Context>, stale: seq<Context>, back: bool)
    requires (p.stale == stale && (p.chain == chain || Put(chain, p.chain))) || p.Taken(chain, stale)
    ensures var way, now := WayOf(chain, back), Way(p, back);
            (p.stale == stale && (now == way || Put(way, now))) || Drop(way, stale, LinksOf(p, back), now, p.stale)
  {
    if p.Taken(chain, stale) {
      TakenTurned(p, chain, stale, back);
    } else if p.chain != chain {
      PutTurned(chain, p.chain, back);
    }
  }

  /** What an operation made of the links, with the places. */
  lemma Landed(p: Pipeline, back: bool, links: Links, chain: seq<Context>, stale: seq<Context>, ranks: Ranks,
               was: set<Context>) returns (now: Ranks)
    requires p.Valid() && Before(links, WayOf(chain, back), stale, ranks, was)
    requires (p.stale == stale && (p.chain == chain || Put(chain, p.chain))) || p.Taken(chain, stale)
    requires forall c :: c in p.chain && c in links ==> c in chain
    requires forall c :: c in stale ==> c !in chain && c in p.stale && LinkOf(c, back) == links[c]
    ensures Travelling(LinksOf(p, back), now, Way(p, back), was)
    ensures Keeps(ranks, now) && NoneBack(WayOf(chain, back), Way(p, back), was)
  {
    WayMembers(chain, back);
    WayMembers(p.chain, back);
    KnownLinks(p, back);
    Turned(p, chain, stale, back);
    now := After(links, WayOf(chain, back), stale, LinksOf(p, back), Way(p, back), p.stale, ranks, was);
  }

  /** One operation, with the places. */
  method Change(p: Pipeline, op: Op, ghost back: bool, ghost ranks: Ranks, ghost was: set<Context>)
      returns (ghost now: Ranks)
    requires p.Valid() && p.StaleValid() && Ordinary(op) && Travelling(LinksOf(p, back), ranks, Way(p, back), was)
    modifies p, p.chain
    ensures p.Valid() && p.StaleValid() && old(p.Known()) <= p.Known()
    ensures fresh(set c | c in p.chain && c !in old(p.chain))
    ensures p.Entries() == Perform(old(p.Entries()), op)
    ensures Travelling(LinksOf(p, back), now, Way(p, back), was)
    ensures Keeps(ranks, now) && NoneBack(old(Way(p, back)), Way(p, back), was)
  {
    ghost var links, chain, stale := LinksOf(p, back), p.chain, p.stale;
    KnownLinks(p, back);
    RunOne(p, op);
    now := Landed(p, back, links, chain, stale, ranks, was);
  }

  ghost predicate AllOrdinary(ops: seq<Op>) {
    forall op :: op in ops ==> Ordinary(op)
  }

  // ------------------------------------------------------------- an event on its way

  ghost predicate Rising(trace: seq<Context>, ranks: Ranks) {
    && (forall c :: c in trace ==> c in ranks)
    && forall i, j :: 0 <= i < j < |trace| ==> ranks[trace[i]] < ranks[trace[j]]
  }

  ghost predicate EndsAre(trace: seq<Context>, first: Context, last: Context) {
    trace != [] && trace[0] == first && trace[|trace| - 1] == last
  }

  /** These contexts are all visited, from here on. */
  ghost predicate Meets(trace: seq<Context>, ranks: Ranks, from: real, chain: seq<Context>, was: set<Context>) {
    forall d :: d in was && d in chain && d in ranks && from < ranks[d] ==> d in trace
  }

  ghost function Above(ranks: Ranks, from: real): set<Context> {
    set c | c in ranks && from < ranks[c]
  }

  lemma RisingCons(at: Context, rest: seq<Context>, ranks: Ranks)
    requires Rising(rest, ranks) && rest != [] && at in ranks && ranks[at] < ranks[rest[0]]
    ensures Rising([at] + rest, ranks)
  {
    var trace := [at] + rest;
    forall i, j | 0 <= i < j < |trace| ensures ranks[trace[i]] < ranks[trace[j]] {
      if i == 0 && j > 1 { assert ranks[rest[0]] < ranks[rest[j - 1]]; }
    }
  }

  /** What is not the next context comes later. */
  lemma MeetsCons(links: Links, ranks: Ranks, chain: seq<Context>, was: set<Context>, at: Context, rest: seq<Context>,
                  end: seq<Context>)
    requires Travelling(links, ranks, chain, was) && at in links && links[at] != null && 0.0 <= ranks[at]
    requires NoneBack(chain, end, was) && rest != [] && rest[0] == links[at]
    requires Meets(rest, ranks, ranks[links[at]], end, was)
    ensures Meets([at] + rest, ranks, ranks[at], end, was)
  {
    forall d | d in was && d in end && ranks[at] < ranks[d] ensures d in [at] + rest {
      assert d in chain;
      assert Minds(links, ranks, at, d);
    }
  }

  lemma MeetsBefore(trace: seq<Context>, ranks: Ranks, now: Ranks, at: Context, chain: seq<Context>, was: set<Context>)
    requires Keeps(ranks, now) && at in ranks && Meets(trace, now, now[at], chain, was)
    ensures Meets(trace, ranks, ranks[at], chain, was)
  {
  }

  lemma FewerAbove(links: Links, ranks: Ranks, at: Context)
    requires Climbing(links, ranks) && at in links && links[at] != null
    ensures Above(ranks, ranks[links[at]]) < Above(ranks, ranks[at])
  {
    assert links[at] in Above(ranks, ranks[at]);
  }

  lemma {:induction false} EndIsLast(links: Links, ranks: Ranks, chain: seq<Context>, i: nat)
    requires Climbing(links, ranks) && Listed(links, chain) && i < |chain|
    ensures ranks[chain[i]] <= ranks[chain[|chain| - 1]]
    decreases |chain| - i
  {
    if i + 1 < |chain| {
      assert links[chain[i]] == chain[i + 1];
      EndIsLast(links, ranks, chain, i + 1);
    }
  }

  lemma MeetsAtEnd(links: Links, ranks: Ranks, chain: seq<Context>, end: Context, was: set<Context>)
    requires Climbing(links, ranks) && Listed(links, chain) && end == chain[|chain| - 1]
    ensures Meets([end], ranks, ranks[end], chain, was)
  {
    forall d | d in chain ensures ranks[d] <= ranks[end] {
      var i :| 0 <= i < |chain| && chain[i] == d;
      EndIsLast(links, ranks, chain, i);
    }
  }

  /** Only the end leads nowhere. */
  lemma OnlyEndStops(p: Pipeline, at: Context, back: bool)
    requires p.Valid() && p.StaleValid() && at in p.Known()
    ensures LinkOf(at, back) == null ==> at == EndOf(p, back)
    ensures LinkOf(at, back) != null ==> LinkOf(at, back) in p.Known()
  {
    if at in p.chain {
      var i :| 0 <= i < |p.chain| && p.chain[i] == at;
      assert i < |p.chain| - 1 ==> p.chain[i].next == p.chain[i + 1];
      assert i > 0 ==> p.chain[i].prev == p.chain[i - 1];
    } else {
      var i :| 0 <= i < |p.stale| && p.stale[i] == at;
      assert p.stale[i].next in p.chain || p.stale[i].next in p.stale[i + 1..];
      assert p.stale[i].prev in p.chain || p.stale[i].prev in p.stale[i + 1..];
    }
  }

  /** What an event has behind it and before it, seen from the context it passes. */
  lemma PassedOn(links: Links, ranks: Ranks, now: Ranks, chain: seq<Context>, end: seq<Context>, was: set<Context>,
                 at: Context, rest: seq<Context>)
    requires Travelling(links, ranks, chain, was) && at in links && links[at] != null && Keeps(ranks, now)
    requires NoneBack(chain, end, was) && rest != [] && rest[0] == links[at] && Rising(rest, now)
    requires 0.0 <= ranks[links[at]] ==> Meets(rest, ranks, ranks[links[at]], end, was)
    ensures Rising([at] + rest, now) && EndsAre([at] + rest, at, rest[|rest| - 1])
    ensures 0.0 <= ranks[at] ==> Meets([at] + rest, ranks, ranks[at], end, was)
  {
    RisingCons(at, rest, now);
    if 0.0 <= ranks[at] { MeetsCons(links, ranks, chain, was, at, rest, end); }
  }

  /** Nobody is behind the end. */
  lemma StopsAtEnd(p: Pipeline, back: bool, ranks: Ranks, was: set<Context>)
    requires p.Valid() && Climbing(LinksOf(p, back), ranks)
    ensures var end := EndOf(p, back);
            Rising([end], ranks) && end in ranks && Meets([end], ranks, ranks[end], Way(p, back), was)
  {
    WayListed(p, back);
    var way := Way(p, back);
    assert way[|way| - 1] in way;
    MeetsAtEnd(LinksOf(p, back), ranks, way, EndOf(p, back), was);
  }

  function First(later: seq<seq<Op>>): (r: seq<Op>)
    ensures r == [] || r in later
  {
    if later == [] then [] else later[0]
  }

  function Others(later: seq<seq<Op>>): (r: seq<seq<Op>>)
    ensures forall ops :: ops in r ==> ops in later
  {
    if later == [] then [] else later[1..]
  }

  /** What the first n of these handlers do. */
  function Done(changes: seq<seq<Op>>, n: nat): seq<Op> {
    if n == 0 || changes == [] then [] else changes[0] + Done(changes[1..], n - 1)
  }

  lemma DoneNext(v: seq<Entry>, changes: seq<seq<Op>>, n: nat)
    ensures PerformAll(v, First(changes) + Done(Others(changes), n)) == PerformAll(v, Done(changes, n + 1))
  {
    assert Done(changes, n + 1) == First(changes) + Done(Others(changes), n);
  }

  lemma DoneFirst(v: seq<Entry>, todo: seq<Op>, more: seq<Op>)
    requires todo != []
    ensures PerformAll(v, todo + more) == PerformAll(Perform(v, todo[0]), todo[1..] + more)
  {
    assert (todo + more)[1..] == todo[1..] + more;
  }

  lemma DoneNow(v: seq<Entry>, todo: seq<Op>, more: seq<Op>)
    requires todo == []
    ensures PerformAll(v, todo + more) == PerformAll(v, more)
  {
    assert todo + more == more;
  }

  /** What was true of the read after a first change is true of it all. */
  lemma ChangedFirst(trace: seq<Context>, ranks: Ranks, mid: Ranks, now: Ranks, at: Context,
                     chain: seq<Context>, half: seq<Context>, end: seq<Context>, was: set<Context>)
    requires Keeps(ranks, mid) && Keeps(mid, now) && at in ranks
    requires NoneBack(chain, half, was) && NoneBack(half, end, was)
    requires 0.0 <= mid[at] ==> Meets(trace, mid, mid[at], end, was)
    ensures Keeps(ranks, now) && NoneBack(chain, end, was)
    ensures 0.0 <= ranks[at] ==> Meets(trace, ranks, ranks[at], end, was)
  {
  }

  /** A handler does what it has to do, and passes the event on to whatever its link leads to by then;
      later is what the handlers after it do. */
  method PassOn(p: Pipeline, at: Context, back: bool, todo: seq<Op>, later: seq<seq<Op>>, ghost ranks: Ranks,
                ghost was: set<Context>)
    returns (trace: seq<Context>, ghost now: Ranks)
    requires p.Valid() && p.StaleValid() && at in p.Known() && Travelling(LinksOf(p, back), ranks, Way(p, back), was)
    requires AllOrdinary(todo) && forall ops :: ops in later ==> AllOrdinary(ops)
    modifies p, p.chain
    ensures p.Valid() && p.StaleValid() && old(p.Known()) <= p.Known()
    ensures Keeps(ranks, now) && now.Keys <= p.Known() && NoneBack(old(Way(p, back)), Way(p, back), was)
    ensures EndsAre(trace, at, EndOf(p, back)) && Rising(trace, now)
    ensures p.Entries() == PerformAll(old(p.Entries()), todo + Done(later, |trace| - 1))
    ensures 0.0 <= ranks[at] ==> Meets(trace, ranks, ranks[at], Way(p, back), was)
    decreases |later|, |todo|, Above(ranks, ranks[at]), 1
  {
    if todo != [] {
      trace, now := DoFirst(p, at, back, todo, later, ranks, was);
    } else {
      trace, now := FireOn(p, at, back, later, ranks, was);
      DoneNow(old(p.Entries()), todo, Done(later, |trace| - 1));
    }
  }

  method DoFirst(p: Pipeline, at: Context, back: bool, todo: seq<Op>, later: seq<seq<Op>>, ghost ranks: Ranks,
                 ghost was: set<Context>)
    returns (trace: seq<Context>, ghost now: Ranks)
    requires p.Valid() && p.StaleValid() && at in p.Known() && Travelling(LinksOf(p, back), ranks, Way(p, back), was)
    requires todo != [] && AllOrdinary(todo) && forall ops :: ops in later ==> AllOrdinary(ops)
    modifies p, p.chain
    ensures p.Valid() && p.StaleValid() && old(p.Known()) <= p.Known()
    ensures Keeps(ranks, now) && now.Keys <= p.Known() && NoneBack(old(Way(p, back)), Way(p, back), was)
    ensures EndsAre(trace, at, EndOf(p, back)) && Rising(trace, now)
    ensures p.Entries() == PerformAll(old(p.Entries()), todo + Done(later, |trace| - 1))
    ensures 0.0 <= ranks[at] ==> Meets(trace, ranks, ranks[at], Way(p, back), was)
    decreases |later|, |todo|, Above(ranks, ranks[at]), 0
  {
    assert todo[0] in todo && AllOrdinary(todo[1..]);
    ghost var mid := Change(p, todo[0], back, ranks, was);
    ghost var way := Way(p, back);
    trace, now := PassOn(p, at, back, todo[1..], later, mid, was);
    DoneFirst(old(p.Entries()), todo, Done(later, |trace| - 1));
    ChangedFirst(trace, ranks, mid, now, at, old(Way(p, back)), way, Way(p, back), was);
  }

  method FireOn(p: Pipeline, at: Context, back: bool, later: seq<seq<Op>>, ghost ranks: Ranks, ghost was: set<Context>)
    returns (trace: seq<Context>, ghost now: Ranks)
    requires p.Valid() && p.StaleValid() && at in p.Known() && Travelling(LinksOf(p, back), ranks, Way(p, back), was)
    requires forall ops :: ops in later ==> AllOrdinary(ops)
    modifies p, p.chain
    ensures p.Valid() && p.StaleValid() && old(p.Known()) <= p.Known()
    ensures Keeps(ranks, now) && now.Keys <= p.Known() && NoneBack(old(Way(p, back)), Way(p, back), was)
    ensures EndsAre(trace, at, EndOf(p, back)) && Rising(trace, now)
    ensures p.Entries() == PerformAll(old(p.Entries()), Done(later, |trace| - 1))
    ensures 0.0 <= ranks[at] ==> Meets(trace, ranks, ranks[at], Way(p, back), was)
    decreases |later|, 0, Above(ranks, ranks[at]), 0
  {
    OnlyEndStops(p, at, back);
    var next := LinkOf(at, back);
    if next == null {
      StopsAtEnd(p, back, ranks, was);
      assert Done(later, 0) == [];
      return [at], ranks;
    }
    ghost var links, way := LinksOf(p, back), Way(p, back);
    FewerAbove(links, ranks, at);
    var rest;
    rest, now := PassOn(p, next, back, First(later), Others(later), ranks, was);
    trace := [at] + rest;
    assert |rest| == |trace| - 1;
    DoneNext(old(p.Entries()), later, |rest| - 1);
    PassedOn(links, ranks, now, way, Way(p, back), was, at, rest);
  }

  // ------------------------------------------------------------- the whole way

  /** The place of the i-th context of the way is i; the one removed last is just below. */
  ghost function PlaceOf(way: seq<Context>, stale: seq<Context>, c: Context): real {
    if c in way then (var i :| 0 <= i < |way| && way[i] == c; i as real)
    else if c in stale then (var i :| 0 <= i < |stale| && stale[i] == c; (i - |stale|) as real)
    else 0.0
  }

  ghost predicate Placed(way: seq<Context>, stale: seq<Context>, ranks: Ranks) {
    && (forall i :: 0 <= i < |way| ==> way[i] in ranks && ranks[way[i]] == i as real)
    && (forall i :: 0 <= i < |stale| ==> stale[i] in ranks && ranks[stale[i]] == (i - |stale|) as real)
  }

  lemma WayPlace(way: seq<Context>, stale: seq<Context>, i: nat)
    requires Distinct(way) && i < |way|
    ensures PlaceOf(way, stale, way[i]) == i as real
  {
  }

  lemma StalePlace(way: seq<Context>, stale: seq<Context>, i: nat)
    requires i < |stale| && Distinct(stale) && stale[i] !in way
    ensures PlaceOf(way, stale, stale[i]) == (i - |stale|) as real
  {
  }

  /** A link of the list leads to the next place, and skips nothing. */
  lemma WayClimbs(links: Links, way: seq<Context>, stale: seq<Context>, ranks: Ranks, c: Context)
    requires Listed(links, way) && Placed(way, stale, ranks) && ranks.Keys == links.Keys && c in way && links[c] != null
    ensures links[c] in way && ranks[c] < ranks[links[c]]
    ensures forall d :: d in way ==> ranks[d] <= ranks[c] || d == links[c] || ranks[links[c]] < ranks[d]
  {
    var i :| 0 <= i < |way| && way[i] == c;
    assert links[way[i]] == way[i + 1];
    forall d | d in way ensures ranks[d] <= ranks[c] || d == links[c] || ranks[links[c]] < ranks[d] {
      var j :| 0 <= j < |way| && way[j] == d;
    }
  }

  /** A context removed leads to the list, or to one removed later. */
  lemma StaleClimbs(way: seq<Context>, stale: seq<Context>, ranks: Ranks, i: nat, to: Context)
    requires Placed(way, stale, ranks) && i < |stale| && (to in way || to in stale[i + 1..])
    ensures to in ranks && ranks[stale[i]] < ranks[to] && ranks[stale[i]] < 0.0
  {
    if to in way {
      var j :| 0 <= j < |way| && way[j] == to;
    } else {
      var j :| 0 <= j < |stale| - i - 1 && stale[i + 1..][j] == to;
      assert stale[i + 1 + j] == to;
    }
  }

  lemma PlaceClimbs(p: Pipeline, back: bool, ranks: Ranks, c: Context)
    requires p.Valid() && p.StaleValid() && Placed(Way(p, back), p.stale, ranks) && ranks.Keys == p.Known()
    requires c in p.Known() && LinkOf(c, back) != null
    ensures LinkOf(c, back) in p.Known() && ranks[c] < ranks[LinkOf(c, back)]
    ensures 0.0 <= ranks[c] ==> c in Way(p, back)
  {
    WayMembers(p.chain, back);
    KnownLinks(p, back);
    if c in Way(p, back) {
      WayClimbs(LinksOf(p, back), Way(p, back), p.stale, ranks, c);
    } else {
      var i :| 0 <= i < |p.stale| && p.stale[i] == c;
      assert p.stale[i].next in p.chain || p.stale[i].next in p.stale[i + 1..];
      assert p.stale[i].prev in p.chain || p.stale[i].prev in p.stale[i + 1..];
      StaleClimbs(Way(p, back), p.stale, ranks, i, LinkOf(c, back));
    }
  }

  lemma PlacesTravel(p: Pipeline, back: bool, ranks: Ranks)
    requires p.Valid() && p.StaleValid() && Placed(Way(p, back), p.stale, ranks) && ranks.Keys == p.Known()
    ensures Travelling(LinksOf(p, back), ranks, Way(p, back), set c | c in p.chain)
  {
    var links, way := LinksOf(p, back), Way(p, back);
    WayMembers(p.chain, back);
    KnownLinks(p, back);
    forall c | c in links && links[c] != null
      ensures links[c] in links && ranks[c] < ranks[links[c]] && (0.0 <= ranks[c] ==> c in way)
    {
      PlaceClimbs(p, back, ranks, c);
    }
    forall c, d | c in links && links[c] != null && 0.0 <= ranks[c] && d in way ensures Minds(links, ranks, c, d) {
      WayClimbs(links, way, p.stale, ranks, c);
    }
    forall c | c in way ensures 0.0 <= ranks[c] {
      var i :| 0 <= i < |way| && way[i] == c;
    }
  }

  /** A place for each context to begin with. */
  lemma StartRanks(p: Pipeline, back: bool) returns (ranks: Ranks)
    requires p.Valid() && p.StaleValid()
    ensures Travelling(LinksOf(p, back), ranks, Way(p, back), set c | c in p.chain) && Rising(Way(p, back), ranks)
  {
    var way, stale := Way(p, back), p.stale;
    WayMembers(p.chain, back);
    WayListed(p, back);
    ranks := map c | c in p.Known() :: PlaceOf(way, stale, c);
    forall i | 0 <= i < |way| ensures way[i] in ranks && ranks[way[i]] == i as real { WayPlace(way, stale, i); }
    forall i | 0 <= i < |stale| ensures stale[i] in ranks && ranks[stale[i]] == (i - |stale|) as real {
      StalePlace(way, stale, i);
    }
    PlacesTravel(p, back, ranks);
  }

  /** In the order of the list. */
  ghost predicate InOrder(chain: seq<Context>, trace: seq<Context>) {
    forall a, b, i, j :: 0 <= a < b < |trace| && 0 <= i < |chain| && 0 <= j < |chain| ==>
      trace[a] == chain[i] && trace[b] == chain[j] ==> i < j
  }

  /** The contexts that were behind this one, and are linked in the end, are all visited. */
  ghost predicate ComesBy(trace: seq<Context>, first: Context, chain: seq<Context>, end: seq<Context>) {
    forall i, j :: 0 <= i < j < |chain| && chain[i] == first && chain[j] in end ==> chain[j] in trace
  }

  /** A read, or an error on its way back, passes through handlers that change the pipeline as
      they like before they pass it on, and may remove themselves: it reaches the tail, or the
      head, comes by no context twice, and comes, in the order of the list, by every context
      after the first one that is not removed meanwhile. */
  method PassWhileChanging(p: Pipeline, first: Context, back: bool, changes: seq<seq<Op>>)
      returns (trace: seq<Context>)
    requires p.Valid() && p.StaleValid() && first in p.Known()
    requires forall ops :: ops in changes ==> AllOrdinary(ops)
    modifies p, p.chain
    ensures p.Valid() && p.StaleValid() && old(p.Known()) <= p.Known()
    ensures EndsAre(trace, first, if back then p.head else p.tail)
    ensures Distinct(trace) && forall c :: c in trace ==> c in p.Known()
    ensures p.Entries() == PerformAll(old(p.Entries()), Done(changes, |trace|))
    ensures InOrder(WayOf(old(p.chain), back), trace)
    ensures ComesBy(trace, first, WayOf(old(p.chain), back), WayOf(p.chain, back))
  {
    ghost var ranks := StartRanks(p, back);
    ghost var now;
    ghost var way := Way(p, back);
    WayMembers(p.chain, back);
    assert (set c | c in p.chain) == (set c | c in way);
    trace, now := PassOn(p, first, back, First(changes), Others(changes), ranks, set c | c in p.chain);
    DoneNext(old(p.Entries()), changes, |trace| - 1);
    OrderFromRanks(way, ranks, now, trace);
    AllFromRanks(way, ranks, Way(p, back), trace, first);
  }

  lemma AllFromRanks(chain: seq<Context>, ranks: Ranks, end: seq<Context>, trace: seq<Context>, first: Context)
    requires Rising(chain, ranks) && LinkedAboveZero(ranks, chain) && first in ranks
    requires 0.0 <= ranks[first] ==> Meets(trace, ranks, ranks[first], end, set c | c in chain)
    ensures ComesBy(trace, first, chain, end)
  {
    forall i, j | 0 <= i < j < |chain| && chain[i] == first && chain[j] in end ensures chain[j] in trace {
      assert ranks[chain[i]] < ranks[chain[j]];
    }
  }

  lemma OrderFromRanks(chain: seq<Context>, ranks: Ranks, now: Ranks, trace: seq<Context>)
    requires Rising(chain, ranks) && Rising(trace, now) && Keeps(ranks, now)
    ensures Distinct(trace) && InOrder(chain, trace)
  {
    forall a, b, i, j | 0 <= a < b < |trace| && 0 <= i < |chain| && 0 <= j < |chain|
        && trace[a] == chain[i] && trace[b] == chain[j]
      ensures i < j
    {
      assert ranks[chain[i]] < ranks[chain[j]];
    }
  }
}
