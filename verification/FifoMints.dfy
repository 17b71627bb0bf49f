/**
 * The walk of a whole wallet. The mints share one set of books, yet a position has legs on one mint
 * only, so every mint ends as if it had been walked alone, and what holds of one walk holds of all.
 */
module FifoMints {
  import opened MapTotals
  import opened Fifo
  import opened FifoConservation
  import opened FifoSplit
  import opened FifoAttribution

  const START := Wallet([], EMPTY_BOOKS)

  predicate IsLeg(e: Event) { e.Claim? || e.Withdraw? || e.Deposit? }

  /** The positions with a leg on the timeline. */
  function PositionsOf(evs: seq<Event>): set<Address> {
    if evs == [] then {}
    else
      var n := |evs| - 1;
      PositionsOf(evs[..n]) + (if IsLeg(evs[n]) then {evs[n].pos} else {})
  }

  function AllPositions(timelines: seq<seq<Event>>): set<Address> {
    if timelines == [] then {}
    else
      var n := |timelines| - 1;
      AllPositions(timelines[..n]) + PositionsOf(timelines[n])
  }

  /** No position has legs on two mints. */
  ghost predicate Disjoint(timelines: seq<seq<Event>>) {
    forall i, j | 0 <= i < j < |timelines| :: PositionsOf(timelines[i]) !! PositionsOf(timelines[j])
  }

  predicate ValidTimelines(timelines: seq<seq<Event>>) {
    forall t | t in timelines :: ValidTimeline(t)
  }

  // ----- a walk sees and touches the books only at the positions of its timeline

  ghost predicate OriginsIn(inv: seq<Lot>, ps: set<Address>) {
    forall l | l in inv && l.origin.Some? :: l.origin.value in ps
  }

  ghost predicate ClipsIn(clips: seq<Clip>, ps: set<Address>) {
    forall c | c in clips && c.origin.Some? :: c.origin.value in ps
  }

  ghost predicate SameOn(b: Books, b': Books, ps: set<Address>) {
    forall p | p in ps :: AccOf(b, p) == AccOf(b', p)
  }

  ghost predicate SameOutside(b: Books, b': Books, ps: set<Address>) {
    forall p | p !in ps :: AccOf(b, p) == AccOf(b', p)
  }

  lemma {:induction false} ConsumeOrigins(inv: seq<Lot>, need: real, eps: real, ps: set<Address>)
    requires eps >= 0.0 && OriginsIn(inv, ps)
    ensures var d := Consume(inv, need, eps); OriginsIn(d.left, ps) && ClipsIn(d.perLot, ps)
    decreases |inv|, need > eps
  {
    hide Worth;
    if need > eps && inv != [] {
      var take := Min(need, inv[0].qty);
      ConsumeOrigins(AfterTake(inv, take, eps), need - take, eps, ps);
    }
  }

  lemma {:induction false} RouteFrame(b: Books, b': Books, clips: seq<Clip>, proceeds: real, taken: real,
                                      ps: set<Address>)
    requires taken > 0.0 && ClipsIn(clips, ps) && SameOn(b, b', ps)
    ensures SameOn(RouteGains(b, clips, proceeds, taken), RouteGains(b', clips, proceeds, taken), ps)
    ensures SameOutside(b, RouteGains(b, clips, proceeds, taken), ps)
    decreases |clips|
  {
    hide Share, Worth;
    if clips != [] {
      var c := clips[0];
      var gain := Share(proceeds, c.take, taken) - Worth(c.take, c.costPerUnit);
      RouteFrame(AddGain(b, c.origin, gain), AddGain(b', c.origin, gain), clips[1..], proceeds, taken, ps);
    }
  }

  ghost predicate Framed(w: Wallet, w': Wallet, ps: set<Address>) {
    w.inv == w'.inv && OriginsIn(w.inv, ps) && SameOn(w.books, w'.books, ps)
  }

  lemma LegFrame(w: Wallet, w': Wallet, e: Event, eps: real, ps: set<Address>)
    requires eps >= 0.0 && ValidEvent(e) && Framed(w, w', ps) && IsLeg(e) && e.pos in ps
    ensures Framed(Apply(w, e, eps), Apply(w', e, eps), ps) && SameOutside(w.books, Apply(w, e, eps).books, ps)
  {
    hide Worth, UnitPrice, Consume;
    ConsumeOrigins(w.inv, e.qty, eps, ps);
  }

  lemma SwapFrame(w: Wallet, w': Wallet, e: Event, eps: real, ps: set<Address>)
    requires eps >= 0.0 && ValidEvent(e) && Framed(w, w', ps) && !IsLeg(e)
    ensures Framed(Apply(w, e, eps), Apply(w', e, eps), ps) && SameOutside(w.books, Apply(w, e, eps).books, ps)
  {
    hide Worth, UnitPrice, Consume, RouteGains, BackedProceeds, AccOf;
    if e.Sell? {
      var d := Consume(w.inv, e.qty, eps);
      ConsumeOrigins(w.inv, e.qty, eps, ps);
      if d.taken > eps {
        RouteFrame(w.books, w'.books, d.perLot, BackedProceeds(e.sol, d.taken, d.shortfall), d.taken, ps);
      }
    }
  }

  /**
   * Two wallets with the same inventory that agree on the positions of the timeline still do after the
   * walk, with the same inventory, and the walk leaves every other position alone.
   */
  lemma {:induction false} WalkFrame(w: Wallet, w': Wallet, evs: seq<Event>, eps: real, ps: set<Address>)
    requires eps >= 0.0 && ValidTimeline(evs) && Framed(w, w', ps) && PositionsOf(evs) <= ps
    ensures Framed(Walk(w, evs, eps), Walk(w', evs, eps), ps)
    ensures SameOutside(w.books, Walk(w, evs, eps).books, ps)
  {
    hide Apply, AccOf;
    if evs != [] {
      var n := |evs| - 1;
      assert ValidEvent(evs[n]);
      WalkFrame(w, w', evs[..n], eps, ps);
      if IsLeg(evs[n]) {
        LegFrame(Walk(w, evs[..n], eps), Walk(w', evs[..n], eps), evs[n], eps, ps);
      } else {
        SwapFrame(Walk(w, evs[..n], eps), Walk(w', evs[..n], eps), evs[n], eps, ps);
      }
    }
  }

  // ----- every mint of the wallet ends as if walked alone

  ghost predicate Alone(timelines: seq<seq<Event>>, eps: real, k: nat)
    requires eps >= 0.0 && ValidTimelines(timelines) && k < |timelines| && ValidTimeline(timelines[k])
  {
    var (b, left) := WalkMints(timelines, eps);
    var w := Walk(START, timelines[k], eps);
    left[k] == w.inv && SameOn(b, w.books, PositionsOf(timelines[k]))
  }

  lemma {:induction false} PositionsAmongAll(timelines: seq<seq<Event>>, k: nat)
    requires k < |timelines|
    ensures PositionsOf(timelines[k]) <= AllPositions(timelines)
  {
    if k < |timelines| - 1 { PositionsAmongAll(timelines[..|timelines| - 1], k); }
  }

  lemma {:induction false} DisjointFromLast(timelines: seq<seq<Event>>, last: seq<Event>)
    requires forall i | 0 <= i < |timelines| :: PositionsOf(timelines[i]) !! PositionsOf(last)
    ensures AllPositions(timelines) !! PositionsOf(last)
  {
    if timelines != [] { DisjointFromLast(timelines[..|timelines| - 1], last); }
  }

  lemma {:induction false} UntouchedPositions(timelines: seq<seq<Event>>, eps: real)
    requires eps >= 0.0 && ValidTimelines(timelines)
    ensures SameOutside(EMPTY_BOOKS, WalkMints(timelines, eps).0, AllPositions(timelines))
  {
    hide Walk, AccOf;
    if timelines != [] {
      var n := |timelines| - 1;
      assert timelines[n] in timelines;
      UntouchedPositions(timelines[..n], eps);
      var w := Wallet([], WalkMints(timelines[..n], eps).0);
      WalkFrame(w, w, timelines[n], eps, PositionsOf(timelines[n]));
    }
  }

  lemma {:induction false} MintsWalkAlone(timelines: seq<seq<Event>>, eps: real, k: nat)
    requires eps >= 0.0 && ValidTimelines(timelines) && Disjoint(timelines) && k < |timelines|
    ensures ValidTimeline(timelines[k]) && Alone(timelines, eps, k)
  {
    hide Walk, AccOf, PositionsOf;
    assert timelines[k] in timelines;
    var n := |timelines| - 1;
    assert timelines[n] in timelines;
    var b := WalkMints(timelines[..n], eps).0;
    var ps := PositionsOf(timelines[n]);
    if k == n {
      UntouchedPositions(timelines[..n], eps);
      DisjointFromLast(timelines[..n], timelines[n]);
      WalkFrame(Wallet([], b), START, timelines[n], eps, ps);
    } else {
      MintsWalkAlone(timelines[..n], eps, k);
      WalkFrame(Wallet([], b), Wallet([], b), timelines[n], eps, ps);
      assert PositionsOf(timelines[k]) !! ps;
    }
  }

  // ----- the per-position and per-lot results, for every mint

  /**
   * The cost-basis bound for every mint of a wallet: each leftover lot is priced between 0 and the
   * highest buy of its own mint, and each position's basis averages out within the same bounds.
   */
  lemma CostBasisBound(timelines: seq<seq<Event>>, eps: real, k: nat)
    requires eps >= 0.0 && ValidTimelines(timelines) && Disjoint(timelines) && k < |timelines|
    ensures ValidTimeline(timelines[k])
    ensures var (b, left) := WalkMints(timelines, eps);
            var top := TopPrice(timelines[k]);
            && LotsWithin(left[k], top)
            && forall p | p in PositionsOf(timelines[k]) :: AccWithin(AccOf(b, p), top)
  {
    hide Walk, WalkMints, PositionsOf, TopPrice, AccOf, AccWithin, Worth;
    MintsWalkAlone(timelines, eps, k);
    var top := TopPrice(timelines[k]);
    WalkCostBasis(timelines[k], eps);
    forall p | p in PositionsOf(timelines[k]) ensures AccWithin(AccOf(WalkMints(timelines, eps).0, p), top) {
      AccOfWithin(Walk(START, timelines[k], eps).books, p, top);
    }
  }

  /** For every mint, the quantity behind a position's average never exceeds what it deposited. */
  lemma BasisQtyBound(timelines: seq<seq<Event>>, eps: real, k: nat, p: Address)
    requires eps >= 0.0 && ValidTimelines(timelines) && Disjoint(timelines) && k < |timelines|
    requires p in PositionsOf(timelines[k])
    ensures AccOf(WalkMints(timelines, eps).0, p).inQty <= Deposited(timelines[k], p)
  {
    hide Walk, WalkMints, PositionsOf, AccOf;
    MintsWalkAlone(timelines, eps, k);
    WalkBasisQty(timelines[k], eps, p);
  }

  /** For every mint, a position's SOL leg is what it claimed and withdrew less what it deposited. */
  lemma SolLegIsCashFlow(timelines: seq<seq<Event>>, eps: real, k: nat, p: Address)
    requires eps >= 0.0 && ValidTimelines(timelines) && Disjoint(timelines) && k < |timelines|
    requires p in PositionsOf(timelines[k]) && p != ""
    ensures AccOf(WalkMints(timelines, eps).0, p).solLeg == LegSum(timelines[k], p)
  {
    hide Walk, WalkMints, PositionsOf, AccOf;
    MintsWalkAlone(timelines, eps, k);
    WalkSolLeg(timelines[k], eps, p);
  }

  /** The positions of the walk's books are those with legs on the timeline. */
  lemma {:induction false} BooksOfTimeline(evs: seq<Event>, eps: real)
    requires eps >= 0.0 && ValidTimeline(evs)
    ensures var w := Walk(START, evs, eps);
            w.books.acc.Keys == PositionsOf(evs) && OriginsIn(w.inv, PositionsOf(evs))
  {
    hide Apply;
    if evs != [] {
      var n := |evs| - 1;
      assert ValidEvent(evs[n]);
      BooksOfTimeline(evs[..n], eps);
      StepBooks(Walk(START, evs[..n], eps), evs[n], eps, PositionsOf(evs[..n]), PositionsOf(evs));
    }
  }

  lemma StepBooks(w: Wallet, e: Event, eps: real, ps: set<Address>, ps': set<Address>)
    requires eps >= 0.0 && ValidEvent(e) && w.books.acc.Keys == ps && OriginsIn(w.inv, ps)
    requires ps' == ps + (if IsLeg(e) then {e.pos} else {})
    ensures var w' := Apply(w, e, eps); w'.books.acc.Keys == ps' && OriginsIn(w'.inv, ps')
  {
    hide Worth, UnitPrice, Consume, RouteGains, BackedProceeds, AccOf;
    if e.Deposit? || e.Sell? { ConsumeOrigins(w.inv, e.qty, eps, ps); }
    if e.Sell? {
      var d := Consume(w.inv, e.qty, eps);
      if d.taken > eps {
        RouteKeys(w.books, d.perLot, BackedProceeds(e.sol, d.taken, d.shortfall), d.taken);
      }
    }
  }

  lemma {:induction false} RouteKeys(b: Books, clips: seq<Clip>, proceeds: real, taken: real)
    requires taken > 0.0 && ClipsIn(clips, b.acc.Keys)
    ensures RouteGains(b, clips, proceeds, taken).acc.Keys == b.acc.Keys
    decreases |clips|
  {
    hide Share, Worth, AccOf;
    if clips != [] {
      var c := clips[0];
      var gain := Share(proceeds, c.take, taken) - Worth(c.take, c.costPerUnit);
      RouteKeys(AddGain(b, c.origin, gain), clips[1..], proceeds, taken);
    }
  }

  /** Tokens backed in the positions of a set. */
  ghost function BackedIn(b: Books, ps: set<Address>): real {
    Total(map p | p in ps :: AccOf(b, p).inQty)
  }

  /**
   * Token conservation for every mint of a wallet: the tokens of the mint that came in are in its
   * leftover lots, backed in its positions, or were taken by its sells, up to one threshold per event.
   */
  lemma TokenConservation(timelines: seq<seq<Event>>, eps: real, k: nat)
    requires eps >= 0.0 && ValidTimelines(timelines) && Disjoint(timelines) && k < |timelines|
    ensures ValidTimeline(timelines[k])
    ensures var (b, left) := WalkMints(timelines, eps);
            var t := timelines[k];
            var lost := NetTokensOf(START, t, eps) - QtyOf(left[k]) - BackedIn(b, PositionsOf(t));
            && 0.0 <= lost <= |t| as real * eps
            && (eps == 0.0 ==> lost == 0.0)
  {
    hide Walk, WalkMints, PositionsOf, NetTokensOf, Dust;
    MintsWalkAlone(timelines, eps, k);
    var t, b := timelines[k], WalkMints(timelines, eps).0;
    var w := Walk(START, t, eps);
    WalkTokens(START, t, eps);
    BooksOfTimeline(t, eps);
    assert (map p | p in PositionsOf(t) :: AccOf(b, p).inQty) == QtyByPosition(w.books.acc);
    assert Backed(EMPTY_BOOKS) == 0.0 by { assert QtyByPosition(EMPTY_BOOKS.acc) == map[]; }
    DustMono(0, |w.inv|, eps, 1.0);
    DustIsProduct(|t|, eps, 1.0);
    WorthOfOne(eps);
  }

  // ----- clips in any timeline of the wallet

  lemma {:induction false} SameTimelines(left: seq<seq<Event>>, t: seq<Event>, t': seq<Event>, right: seq<seq<Event>>,
                                         eps: real)
    requires eps >= 0.0 && ValidTimelines(left) && ValidTimelines(right) && ValidTimeline(t) && ValidTimeline(t')
    requires forall b :: Walk(Wallet([], b), t, eps) == Walk(Wallet([], b), t', eps)
    ensures ValidTimelines(left + [t] + right) && ValidTimelines(left + [t'] + right)
    ensures WalkMints(left + [t] + right, eps) == WalkMints(left + [t'] + right, eps)
  {
    hide Walk;
    var ts, ts' := left + [t] + right, left + [t'] + right;
    var n := |ts| - 1;
    if right == [] {
      assert ts[..n] == left && ts'[..n] == left;
    } else {
      var m := |right| - 1;
      SameTimelines(left, t, t', right[..m], eps);
      assert ts[..n] == left + [t] + right[..m] && ts'[..n] == left + [t'] + right[..m];
      assert ts[n] == right[m] && ts'[n] == right[m];
    }
  }

  /** In any mint of the wallet, a sell may be cut into adjacent clips: all books and lots stay the same. */
  lemma ClipsInWallet(left: seq<seq<Event>>, before: seq<Event>, qtys: seq<real>, price: real, after: seq<Event>,
                      right: seq<seq<Event>>)
    requires ValidTimelines(left) && ValidTimelines(right) && ValidTimeline(before) && ValidTimeline(after)
    requires price > 0.0 && qtys != [] && AllPositive(qtys)
    ensures var cut, whole := before + SellClips(qtys, price) + after,
                              before + [Sell(Sum(qtys), Worth(Sum(qtys), price))] + after;
            && ValidTimelines(left + [cut] + right) && ValidTimelines(left + [whole] + right)
            && WalkMints(left + [cut] + right, 0.0) == WalkMints(left + [whole] + right, 0.0)
  {
    hide Walk, WalkMints, Worth, Sum;
    var cut := before + SellClips(qtys, price) + after;
    var whole := before + [Sell(Sum(qtys), Worth(Sum(qtys), price))] + after;
    ClipsInTimeline(START, before, qtys, price, after);
    forall b ensures Walk(Wallet([], b), cut, 0.0) == Walk(Wallet([], b), whole, 0.0) {
      ClipsInTimeline(Wallet([], b), before, qtys, price, after);
    }
    SameTimelines(left, cut, whole, right, 0.0);
  }

  /** The same for a deposit, whatever the SOL sides of its clips. */
  lemma DepositsInWallet(left: seq<seq<Event>>, before: seq<Event>, pos: Address, x: real, y: real, solX: real,
                         solY: real, after: seq<Event>, right: seq<seq<Event>>)
    requires ValidTimelines(left) && ValidTimelines(right) && ValidTimeline(before) && ValidTimeline(after)
    requires x >= 0.0 && y >= 0.0
    ensures var cut, whole := before + [Deposit(pos, x, solX), Deposit(pos, y, solY)] + after,
                              before + [Deposit(pos, x + y, solX + solY)] + after;
            && ValidTimelines(left + [cut] + right) && ValidTimelines(left + [whole] + right)
            && WalkMints(left + [cut] + right, 0.0) == WalkMints(left + [whole] + right, 0.0)
  {
    hide Walk, WalkMints;
    var cut := before + [Deposit(pos, x, solX), Deposit(pos, y, solY)] + after;
    var whole := before + [Deposit(pos, x + y, solX + solY)] + after;
    DepositsInTimeline(START, before, pos, x, y, solX, solY, after);
    forall b ensures Walk(Wallet([], b), cut, 0.0) == Walk(Wallet([], b), whole, 0.0) {
      DepositsInTimeline(Wallet([], b), before, pos, x, y, solX, solY, after);
    }
    SameTimelines(left, cut, whole, right, 0.0);
  }
}
