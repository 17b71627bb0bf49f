/**
 * SOL conservation of the whole engine, from the stored rows of a wallet to its PnL: every leg, buy and
 * sell that is stored is in the equation exactly once.
 */
module FifoHistory {
  import opened Fifo
  import opened FifoConservation
  import opened FifoSplit
  import opened FifoMints
  import opened FifoTimelines

  // ----- the SOL a walk moves, split into stored amounts and the backed part of the sells

  function SignedSolOf(e: Event): real {
    match e
    case Buy(_, sol) => -sol
    case Claim(_, _, sol) => sol
    case Withdraw(_, _, sol) => sol
    case Deposit(_, _, sol) => -sol
    case Sell(_, _) => 0.0
  }

  function SellSolOf(e: Event): real {
    if e.Sell? then e.sol else 0.0
  }

  function One(e: Event): real { 1.0 }

  /** What a sell brings for tokens that the inventory held. */
  ghost function BackedSol(w: Wallet, e: Event, eps: real): real
    requires eps >= 0.0 && ValidEvent(e)
  {
    if e.Sell? then Moved(w, e, eps) else 0.0
  }

  ghost function BackedBy(w: Wallet, evs: seq<Event>, eps: real): real
    requires eps >= 0.0 && ValidTimeline(evs)
  {
    if evs == [] then 0.0
    else
      var n := |evs| - 1;
      BackedBy(w, evs[..n], eps) + BackedSol(Walk(w, evs[..n], eps), evs[n], eps)
  }

  lemma StepBacked(w: Wallet, e: Event, eps: real)
    requires eps >= 0.0 && ValidEvent(e) && Positive(w.inv)
    ensures Moved(w, e, eps) == SignedSolOf(e) + BackedSol(w, e, eps)
    ensures 0.0 <= BackedSol(w, e, eps) <= SellSolOf(e)
  {
    hide BackedProceeds, Consume;
    if e.Sell? {
      var d := Consume(w.inv, e.qty, eps);
      TakesNoMore(w.inv, e.qty, eps);
      if d.taken > eps { BackedIsPart(e.sol, d.taken, d.shortfall); }
    }
  }

  lemma {:induction false} TakesNoMore(inv: seq<Lot>, need: real, eps: real)
    requires eps >= 0.0 && need >= 0.0 && Positive(inv)
    ensures Consume(inv, need, eps).shortfall >= 0.0
    decreases |inv|, need > eps
  {
    hide Worth;
    if need > eps && inv != [] {
      var take := Min(need, inv[0].qty);
      TakesNoMore(AfterTake(inv, take, eps), need - take, eps);
    }
  }

  lemma BackedIsPart(sol: real, taken: real, shortfall: real)
    requires sol >= 0.0 && taken > 0.0 && shortfall >= 0.0
    ensures 0.0 <= BackedProceeds(sol, taken, shortfall) <= sol
  {
    var part := taken / (taken + shortfall);
    assert 0.0 <= part <= 1.0;
    assert sol * part <= sol * 1.0;
  }

  lemma {:induction false} WalkMoves(w: Wallet, evs: seq<Event>, eps: real)
    requires eps >= 0.0 && ValidTimeline(evs) && Positive(w.inv)
    ensures MovedBy(w, evs, eps) == SumOf(evs, SignedSolOf) + BackedBy(w, evs, eps)
    ensures 0.0 <= BackedBy(w, evs, eps) <= SumOf(evs, SellSolOf)
  {
    hide Apply, Moved, BackedSol, SignedSolOf, SellSolOf, Positive;
    if evs != [] {
      var n := |evs| - 1;
      assert ValidEvent(evs[n]);
      WalkMoves(w, evs[..n], eps);
      WalkStaysPositive(w, evs[..n], eps);
      StepBacked(Walk(w, evs[..n], eps), evs[n], eps);
    }
  }

  ghost function BackedByMints(timelines: seq<seq<Event>>, eps: real): real
    requires eps >= 0.0 && ValidTimelines(timelines)
  {
    if timelines == [] then 0.0
    else
      var n := |timelines| - 1;
      BackedByMints(timelines[..n], eps)
      + BackedBy(Wallet([], WalkMints(timelines[..n], eps).0), timelines[n], eps)
  }

  function SumOfAll(timelines: seq<seq<Event>>, f: Event -> real): real {
    if timelines == [] then 0.0
    else
      var n := |timelines| - 1;
      SumOfAll(timelines[..n], f) + SumOf(timelines[n], f)
  }

  lemma {:induction false} MintsMove(timelines: seq<seq<Event>>, eps: real)
    requires eps >= 0.0 && ValidTimelines(timelines)
    ensures MovedByMints(timelines, eps) == SumOfAll(timelines, SignedSolOf) + BackedByMints(timelines, eps)
    ensures 0.0 <= BackedByMints(timelines, eps) <= SumOfAll(timelines, SellSolOf)
  {
    hide MovedBy, BackedBy, SignedSolOf, SellSolOf, SumOf, WalkMints;
    if timelines != [] {
      var n := |timelines| - 1;
      assert timelines[n] in timelines;
      MintsMove(timelines[..n], eps);
      WalkMoves(Wallet([], WalkMints(timelines[..n], eps).0), timelines[n], eps);
    }
  }

  // ----- a sum over all timelines is a sum over all stored rows

  function LinesOf(h: History, mints: seq<Mint>): seq<seq<Event>> {
    seq(|mints|, k requires 0 <= k < |mints| => Strip(Line(h, mints[k])))
  }

  ghost predicate Distinct(mints: seq<Mint>) {
    forall i, j | 0 <= i < j < |mints| :: mints[i] != mints[j]
  }

  ghost function SetOf(mints: seq<Mint>): set<Mint> { set m | m in mints }

  lemma {:induction false} LegsOfUnion(h: History, n: nat, ms: set<Mint>, mint: Mint, f: Event -> real)
    requires n <= |h.legs| && mint !in ms
    ensures LegsIn(h, n, ms + {mint}, f) == LegsIn(h, n, ms, f) + LegsIn(h, n, {mint}, f)
  {
    hide LegEvent, Metas;
    if n > 0 { LegsOfUnion(h, n - 1, ms, mint, f); }
  }

  lemma {:induction false} FlowsOfUnion(flows: seq<Flow>, ms: set<Mint>, mint: Mint, isBuy: bool, f: Event -> real)
    requires mint !in ms
    ensures FlowsIn(flows, ms + {mint}, isBuy, f) == FlowsIn(flows, ms, isBuy, f) + FlowsIn(flows, {mint}, isBuy, f)
  {
    hide FlowEvent;
    if flows != [] { FlowsOfUnion(flows[..|flows| - 1], ms, mint, isBuy, f); }
  }

  lemma {:induction false} NothingIn(h: History, n: nat, f: Event -> real)
    requires n <= |h.legs|
    ensures LegsIn(h, n, {}, f) == 0.0
  {
    hide LegEvent, Metas;
    if n > 0 { NothingIn(h, n - 1, f); }
  }

  lemma {:induction false} NoFlowsIn(flows: seq<Flow>, isBuy: bool, f: Event -> real)
    ensures FlowsIn(flows, {}, isBuy, f) == 0.0
  {
    if flows != [] { NoFlowsIn(flows[..|flows| - 1], isBuy, f); }
  }

  lemma {:induction false} SumOfLines(h: History, mints: seq<Mint>, f: Event -> real)
    requires Distinct(mints)
    ensures SumOfAll(LinesOf(h, mints), f) == StoredIn(h, SetOf(mints), f)
  {
    hide Strip, Line, SumOf, LegsIn, FlowsIn;
    if mints == [] {
      assert SetOf(mints) == {};
      NothingIn(h, |h.legs|, f);
      NoFlowsIn(h.buys, true, f);
      NoFlowsIn(h.sells, false, f);
    } else {
      var n := |mints| - 1;
      var ms := SetOf(mints[..n]);
      SumOfLines(h, mints[..n], f);
      SumOfLine(h, mints[n], f);
      assert LinesOf(h, mints)[..n] == LinesOf(h, mints[..n]);
      assert SetOf(mints) == ms + {mints[n]};
      LegsOfUnion(h, |h.legs|, ms, mints[n], f);
      FlowsOfUnion(h.buys, ms, mints[n], true, f);
      FlowsOfUnion(h.sells, ms, mints[n], false, f);
    }
  }

  // ----- the stored amounts

  /** Lamports that the wallet's legs brought, less those they took, on the SOL side of the pool. */
  function LegLamports(h: History, n: nat): int
    requires n <= |h.legs|
  {
    if n == 0 then 0
    else
      var l, metas := h.legs[n - 1], Metas(h.legs);
      LegLamports(h, n - 1) + (if l.position in metas then Lamports(l, metas[l.position]) else 0)
  }

  function StoredLegSol(h: History): real { LegLamports(h, |h.legs|) as real / 1000000000.0 }

  /** SOL of the counted flows on mints that have a leg. */
  function FlowSol(flows: seq<Flow>, ms: set<Mint>): real {
    if flows == [] then 0.0
    else
      var n := |flows| - 1;
      FlowSol(flows[..n], ms)
      + (if flows[n].tokenAmount > 0.0 && flows[n].sol > 0.0 && flows[n].mint in ms then flows[n].sol else 0.0)
  }

  function LpMints(h: History): set<Mint> { set p | p in Metas(h.legs) :: Metas(h.legs)[p].mint }

  lemma {:induction false} MintsAreMetas(legs: seq<Leg>, metas: map<Address, Pool>)
    requires forall l | l in legs :: l.position in metas
    ensures forall l | l in legs :: metas[l.position].mint in Mints(legs, metas)
    ensures forall m | m in Mints(legs, metas) :: exists l :: l in legs && metas[l.position].mint == m
  {
    if legs != [] {
      var n := |legs| - 1;
      MintsAreMetas(legs[..n], metas);
      assert legs == legs[..n] + [legs[n]];
      forall m | m in Mints(legs, metas) ensures exists l :: l in legs && metas[l.position].mint == m {
        if m in Mints(legs[..n], metas) {
          var l :| l in legs[..n] && metas[l.position].mint == m;
          assert l in legs;
        } else {
          assert legs[n] in legs;
        }
      }
    }
  }

  lemma {:induction false} MetasAreLegs(legs: seq<Leg>)
    ensures forall p :: p in Metas(legs) <==> exists l :: l in legs && l.position == p
  {
    if legs != [] {
      var n := |legs| - 1;
      MetasAreLegs(legs[..n]);
      assert legs == legs[..n] + [legs[n]];
      assert legs[n] in legs;
    }
  }

  lemma LpMintsAreMints(h: History)
    ensures LpMints(h) == SetOf(MintsOf(h)) && Distinct(MintsOf(h))
    ensures forall l | l in h.legs :: l.position in Metas(h.legs) && Metas(h.legs)[l.position].mint in LpMints(h)
  {
    hide Metas, Mints;
    MetasAreLegs(h.legs);
    MintsAreMetas(h.legs, Metas(h.legs));
    MintsDiffer(h.legs, Metas(h.legs));
  }

  lemma {:induction false} SignedLegs(h: History, n: nat)
    requires n <= |h.legs|
    ensures LegsIn(h, n, LpMints(h), SignedSolOf) * 1000000000.0 == LegLamports(h, n) as real
    ensures LegsIn(h, n, LpMints(h), SellSolOf) == 0.0
    ensures LegsIn(h, n, LpMints(h), One) == n as real
  {
    hide Metas, LegQty, LpMints;
    if n > 0 {
      SignedLegs(h, n - 1);
      LpMintsAreMints(h);
      assert h.legs[n - 1] in h.legs;
    }
  }

  lemma {:induction false} SignedFlows(flows: seq<Flow>, ms: set<Mint>, isBuy: bool)
    ensures FlowsIn(flows, ms, isBuy, SignedSolOf) == (if isBuy then -FlowSol(flows, ms) else 0.0)
    ensures FlowsIn(flows, ms, isBuy, SellSolOf) == (if isBuy then 0.0 else FlowSol(flows, ms))
    ensures FlowsIn(flows, ms, isBuy, One) <= |flows| as real
  {
    if flows != [] { SignedFlows(flows[..|flows| - 1], ms, isBuy); }
  }

  lemma TimelinesSum(h: History)
    ensures var ts := Timelines(h);
            && SumOfAll(ts, SignedSolOf) == StoredLegSol(h) - FlowSol(h.buys, LpMints(h))
            && SumOfAll(ts, SellSolOf) == FlowSol(h.sells, LpMints(h))
            && SumOfAll(ts, One) <= (|h.legs| + |h.buys| + |h.sells|) as real
  {
    hide SumOfAll, LegsIn, FlowsIn, LegLamports, FlowSol, LpMints, SetOf, MintsOf, Strip, Line;
    LpMintsAreMints(h);
    assert Timelines(h) == LinesOf(h, MintsOf(h));
    SumOfLines(h, MintsOf(h), SignedSolOf);
    SumOfLines(h, MintsOf(h), SellSolOf);
    SumOfLines(h, MintsOf(h), One);
    SignedLegs(h, |h.legs|);
    SignedFlows(h.buys, LpMints(h), true);
    SignedFlows(h.sells, LpMints(h), false);
  }

  lemma {:induction false} EventsAreOnes(timelines: seq<seq<Event>>)
    ensures SumOfAll(timelines, One) == Events(timelines) as real
  {
    if timelines != [] {
      EventsAreOnes(timelines[..|timelines| - 1]);
      LengthIsOnes(timelines[|timelines| - 1]);
    }
  }

  lemma {:induction false} LengthIsOnes(evs: seq<Event>)
    ensures SumOf(evs, One) == |evs| as real
  {
    if evs != [] { LengthIsOnes(evs[..|evs| - 1]); }
  }

  // ----- conservation

  /** No counted buy of a mint with legs paid more than `top`. */
  ghost predicate BuysWithin(h: History, top: real) {
    top >= 0.0
    && forall f | f in h.buys && Counts(f) && f.mint in LpMints(h) :: UnitPrice(f.sol, f.tokenAmount) <= top
  }

  lemma LinesWithin(h: History, top: real, k: nat)
    requires BuysWithin(h, top) && k < |Timelines(h)|
    ensures ValidTimeline(Timelines(h)[k]) && PricesWithin(Timelines(h)[k], top)
  {
    hide Line, Metas, UnitPrice, LpMints, MintsOf;
    TimelineOf(h, k);
    LpMintsAreMints(h);
    var evs, mint := Timelines(h)[k], MintsOf(h)[k];
    LineBelongs(h, mint);
    forall i | 0 <= i < |evs| && evs[i].Buy?
      ensures ValidEvent(evs[i]) && UnitPrice(evs[i].sol, evs[i].qty) <= top
    {
      assert Belongs(h, mint, Line(h, mint)[i]);
    }
  }

  /**
   * The whole engine, from stored rows to PnL. The PnL of all positions plus the trading PnL is the SOL
   * of all stored legs, less all counted buys of the mints with legs, plus the backed part of their
   * sells, plus the unsold cost basis and the marks; the threshold misplaces at most `eps` tokens at the
   * highest buy price per stored row.
   */
  lemma HistoryConservation(h: History, marks: map<Address, real>, eps: real, top: real)
    requires eps >= 0.0 && BuysWithin(h, top)
    ensures ValidTimelines(Timelines(h))
    ensures var (b, left) := WalkMints(Timelines(h), eps);
            var backed := BackedByMints(Timelines(h), eps);
            var rows := |h.legs| + |h.buys| + |h.sells|;
            var slack := Attributed(HoldMints(b, left, marks, eps))
                         - (StoredLegSol(h) - FlowSol(h.buys, LpMints(h)) + backed
                            + CostOfAll(left) + HeldWorthAll(left, marks, eps));
            && 0.0 <= backed <= FlowSol(h.sells, LpMints(h))
            && 0.0 <= slack <= Dust(rows, eps, top)
            && (eps == 0.0 ==> slack == 0.0)
  {
    TimelinesAreSeparate(h);
    hide Timelines, WalkMints, BackedByMints, StoredLegSol, FlowSol, LpMints, Attributed, HoldMints, CostOfAll;
    hide HeldWorthAll, Dust, BuysWithin, MovedByMints, SumOfAll, Events;
    var ts := Timelines(h);
    forall t | t in ts ensures ValidTimeline(t) && PricesWithin(t, top) {
      var k :| 0 <= k < |ts| && ts[k] == t;
      LinesWithin(h, top, k);
    }
    assert top >= 0.0 by { TopIsSound(h, top); }
    WalletConservation(ts, marks, eps, top);
    MintsMove(ts, eps);
    TimelinesSum(h);
    EventsAreOnes(ts);
    DustMono(Events(ts), |h.legs| + |h.buys| + |h.sells|, eps, top);
  }

  lemma TopIsSound(h: History, top: real)
    requires BuysWithin(h, top)
    ensures top >= 0.0
  {
  }
}
