/**
 * What each event of the walk does, in terms of the lots and the account fields alone: which lots a
 * consumption draws on and leaves, at which price tokens come back, and what a sell brings per origin.
 */
module FifoSteps {
  import opened Options
  import opened Fifo
  import opened FifoConservation
  import opened FifoSplit
  import opened FifoAttribution
  import opened FifoMints

  // ----- a consumption, for every threshold

  /** Tokens of the first `n` lots. */
  ghost function Front(inv: seq<Lot>, n: nat): real
    requires n <= |inv|
  {
    if n == 0 then 0.0 else inv[0].qty + Front(inv[1..], n - 1)
  }

  /**
   * The clips are the first lots of the inventory, each taken whole but for the last, which gives what
   * is still needed. A last lot with more than the threshold left stays in front of the others; and the
   * drawing stops only when the need is down to the threshold or the inventory is empty.
   */
  ghost predicate IsDraw(inv: seq<Lot>, need: real, eps: real, d: Draw) {
    var n := |d.perLot|;
    && n <= |inv|
    && (forall i | 0 <= i < n :: d.perLot[i].costPerUnit == inv[i].costPerUnit && d.perLot[i].origin == inv[i].origin)
    && (forall i | 0 <= i < n - 1 :: d.perLot[i].take == inv[i].qty)
    && (if n == 0 then d.left == inv
        else
          var still, last := need - Front(inv, n - 1), inv[n - 1];
          && still > eps
          && d.perLot[n - 1].take == (if still <= last.qty then still else last.qty)
          && d.left == (if last.qty - d.perLot[n - 1].take > eps
                        then [Lot(last.qty - d.perLot[n - 1].take, last.costPerUnit, last.origin)] + inv[n..]
                        else inv[n..]))
    && (need - d.taken <= eps || d.left == [])
    && d.taken == ClipQty(d.perLot) && d.cost == ClipCost(d.perLot) && d.taken + d.shortfall == need
  }

  lemma {:induction false} ConsumeIsDraw(inv: seq<Lot>, need: real, eps: real)
    requires eps >= 0.0
    ensures IsDraw(inv, need, eps, Consume(inv, need, eps))
    decreases |inv|, need > eps
  {
    hide Worth;
    if need > eps && inv != [] {
      var take := Min(need, inv[0].qty);
      var rest := Consume(AfterTake(inv, take, eps), need - take, eps);
      if need <= inv[0].qty {
        assert rest == Draw(0.0, 0.0, [], need - take, AfterTake(inv, take, eps));
        SingleDraw(inv, need, eps);
      } else {
        ConsumeIsDraw(inv[1..], need - take, eps);
        DrawExtends(inv, need, eps, rest);
      }
    }
  }

  /** A first lot that covers the need is the only one drawn on. */
  lemma SingleDraw(inv: seq<Lot>, need: real, eps: real)
    requires eps >= 0.0 && need > eps && inv != [] && need <= inv[0].qty
    ensures var lot := inv[0];
            IsDraw(inv, need, eps, Taking(Clip(lot.costPerUnit, lot.origin, need), Worth(need, lot.costPerUnit),
                                          Draw(0.0, 0.0, [], 0.0, AfterTake(inv, need, eps))))
  {
    hide Worth;
    var clip := Clip(inv[0].costPerUnit, inv[0].origin, need);
    assert ClipQty([clip][1..]) == 0.0 && ClipCost([clip][1..]) == 0.0;
    assert [clip] + [] == [clip];
    assert Front(inv, 0) == 0.0;
  }

  /** A first lot that is taken whole comes before what the rest of the inventory gives. */
  lemma DrawExtends(inv: seq<Lot>, need: real, eps: real, rest: Draw)
    requires eps >= 0.0 && need > eps && inv != [] && need > inv[0].qty
    requires IsDraw(inv[1..], need - inv[0].qty, eps, rest)
    ensures var lot := inv[0];
            IsDraw(inv, need, eps,
                   Taking(Clip(lot.costPerUnit, lot.origin, lot.qty), Worth(lot.qty, lot.costPerUnit), rest))
  {
    hide Worth;
    var lot := inv[0];
    var d := Taking(Clip(lot.costPerUnit, lot.origin, lot.qty), Worth(lot.qty, lot.costPerUnit), rest);
    var n := |d.perLot|;
    assert d.perLot[1..] == rest.perLot;
    forall i | 0 <= i < n
      ensures d.perLot[i].costPerUnit == inv[i].costPerUnit && d.perLot[i].origin == inv[i].origin
      ensures i < n - 1 ==> d.perLot[i].take == inv[i].qty
    {
      if i > 0 { assert d.perLot[i] == rest.perLot[i - 1] && inv[i] == inv[1..][i - 1]; }
    }
    if n > 1 {
      assert inv[1..][n - 2] == inv[n - 1] && inv[1..][n - 1..] == inv[n..];
      assert Front(inv, n - 1) == lot.qty + Front(inv[1..], n - 2);
    }
  }

  // ----- events that push a lot

  /** A buy pushes a lot without origin that cost, all of it, the SOL spent; no account changes. */
  lemma BuyPushes(w: Wallet, qty: real, sol: real, eps: real)
    requires eps >= 0.0 && qty > 0.0 && sol > 0.0
    ensures var w' := Apply(w, Buy(qty, sol), eps);
            && w'.books == w.books && |w'.inv| == |w.inv| + 1 && w'.inv[..|w.inv|] == w.inv
            && var lot := w'.inv[|w.inv|]; lot.qty == qty && lot.origin == None && qty * lot.costPerUnit == sol
  {
    PriceTimesQty(sol, qty);
  }

  /** The price of a quantity is the one that, times the quantity, gives the SOL. */
  lemma PriceTimesQty(sol: real, qty: real)
    requires qty > 0.0
    ensures UnitPrice(sol, qty) * qty == sol && qty * UnitPrice(sol, qty) == sol
  {
  }

  /** A claim pushes its tokens for free, when there are more than the threshold, and adds its SOL. */
  lemma ClaimPushes(w: Wallet, pos: Address, qty: real, sol: real, eps: real)
    requires eps >= 0.0 && qty >= 0.0
    ensures var w' := Apply(w, Claim(pos, qty, sol), eps);
            var a := if pos in w.books.acc then w.books.acc[pos] else NEW_ACC;
            && w'.inv == (if qty > eps then w.inv + [Lot(qty, 0.0, Some(pos))] else w.inv)
            && w'.books == Books(w.books.acc[pos := a.(solLeg := a.solLeg + sol)], w.books.tradingPnL)
  {
  }

  /**
   * A withdraw above the threshold pushes one lot at the average the position's backed tokens cost, or
   * for free if it has none, and credits the position with exactly that lot's cost. Below the threshold
   * only the SOL counts.
   */
  lemma WithdrawPushes(w: Wallet, pos: Address, qty: real, sol: real, eps: real)
    requires eps >= 0.0 && qty >= 0.0
    ensures var w' := Apply(w, Withdraw(pos, qty, sol), eps);
            var a := if pos in w.books.acc then w.books.acc[pos] else NEW_ACC;
            && (qty <= eps ==>
                  w' == Wallet(w.inv, Books(w.books.acc[pos := a.(solLeg := a.solLeg + sol)], w.books.tradingPnL)))
            && (qty > eps ==>
                  && |w'.inv| == |w.inv| + 1 && w'.inv[..|w.inv|] == w.inv
                  && var lot := w'.inv[|w.inv|];
                     && lot.qty == qty && lot.origin == Some(pos)
                     && (if a.inQty > eps then lot.costPerUnit * a.inQty == a.inCost else lot.costPerUnit == 0.0)
                     && pos in w'.books.acc
                     && var a' := w'.books.acc[pos];
                        && a'.exitCredit == a.exitCredit + qty * lot.costPerUnit
                        && a' == a.(solLeg := a.solLeg + sol, exitCredit := a'.exitCredit)
                        && w'.books == Books(w.books.acc[pos := a'], w.books.tradingPnL))
  {
    var a := if pos in w.books.acc then w.books.acc[pos] else NEW_ACC;
    var avg := if a.inQty > eps then UnitPrice(a.inCost, a.inQty) else 0.0;
    if a.inQty > eps { PriceTimesQty(a.inCost, a.inQty); }
    WithdrawIs(w, pos, qty, sol, eps, a, avg, qty * avg);
    hide Apply, UnitPrice;
    if qty > eps {
      var lot := Apply(w, Withdraw(pos, qty, sol), eps).inv[|w.inv|];
      assert lot == Lot(qty, avg, Some(pos));
      assert qty * lot.costPerUnit == qty * avg;
    }
  }

  lemma WithdrawIs(w: Wallet, pos: Address, qty: real, sol: real, eps: real, a: Acc, avg: real, credit: real)
    requires eps >= 0.0 && qty >= 0.0
    requires a == AccOf(w.books, pos) && avg == ExitPrice(a, eps) && credit == Worth(qty, avg)
    ensures Apply(w, Withdraw(pos, qty, sol), eps)
            == if qty > eps
               then Wallet(w.inv + [Lot(qty, avg, Some(pos))],
                           Books(w.books.acc[pos := a.(solLeg := a.solLeg + sol, exitCredit := a.exitCredit + credit)],
                                 w.books.tradingPnL))
               else Wallet(w.inv, Books(w.books.acc[pos := a.(solLeg := a.solLeg + sol)], w.books.tradingPnL))
  {
    hide Worth, UnitPrice;
    assert a.exitCredit + 0.0 == a.exitCredit;
  }

  // ----- events that draw

  /** A deposit above the threshold pays the cost of what it draws, and only what it drew gets a basis. */
  lemma DepositDraws(w: Wallet, pos: Address, qty: real, sol: real, eps: real)
    requires eps >= 0.0 && qty >= 0.0
    ensures var w' := Apply(w, Deposit(pos, qty, sol), eps);
            var a := if pos in w.books.acc then w.books.acc[pos] else NEW_ACC;
            if qty <= eps then
              w' == Wallet(w.inv, Books(w.books.acc[pos := a.(solLeg := a.solLeg - sol)], w.books.tradingPnL))
            else
              exists d :: IsDraw(w.inv, qty, eps, d)
                          && var a' := Acc(a.solLeg - sol, a.entryCost + d.cost, a.exitCredit, a.realizedGain,
                                           a.heldValue, a.inQty + d.taken, a.inCost + d.cost);
                             w' == Wallet(d.left, Books(w.books.acc[pos := a'], w.books.tradingPnL))
  {
    hide Consume, IsDraw;
    if qty > eps { ConsumeIsDraw(w.inv, qty, eps); }
  }

  /** Proceeds less cost of the clips of one origin, at a unit price. */
  ghost function GainsAt(clips: seq<Clip>, p: Address, price: real): real {
    if clips == [] then 0.0
    else
      (if clips[0].origin == Some(p) then clips[0].take * price - clips[0].take * clips[0].costPerUnit else 0.0)
      + GainsAt(clips[1..], p, price)
  }

  /** The same for the clips of no position. */
  ghost function TradingAt(clips: seq<Clip>, price: real): real {
    if clips == [] then 0.0
    else
      (if clips[0].origin.Some? && clips[0].origin.value != "" then 0.0
       else clips[0].take * price - clips[0].take * clips[0].costPerUnit)
      + TradingAt(clips[1..], price)
  }

  lemma {:induction false} GainsAreAtPrice(clips: seq<Clip>, p: Address, sol: real, taken: real, shortfall: real)
    requires taken > 0.0 && taken + shortfall > 0.0
    ensures var proceeds, price := BackedProceeds(sol, taken, shortfall), UnitPrice(sol, taken + shortfall);
            && GainsFrom(clips, p, proceeds, taken) == GainsAt(clips, p, price)
            && TradingGains(clips, proceeds, taken) == TradingAt(clips, price)
  {
    hide UnitPrice, BackedProceeds, Share;
    if clips != [] {
      GainsAreAtPrice(clips[1..], p, sol, taken, shortfall);
      ShareIsAtPrice(sol, taken, shortfall, clips[0].take);
    }
  }

  /** What the clips of a sell at a unit price do to the books, seen from position `p`. */
  ghost predicate IsRouted(b: Books, b': Books, clips: seq<Clip>, price: real, p: Address) {
    && AccOf(b', p) == AccOf(b, p).(realizedGain := AccOf(b, p).realizedGain + GainsAt(clips, p, price))
    && b'.tradingPnL == b.tradingPnL + TradingAt(clips, price)
  }

  lemma RouteIsRouted(b: Books, clips: seq<Clip>, sol: real, taken: real, shortfall: real, p: Address)
    requires taken > 0.0 && taken + shortfall > 0.0 && p != ""
    ensures IsRouted(b, RouteGains(b, clips, BackedProceeds(sol, taken, shortfall), taken), clips,
                     UnitPrice(sol, taken + shortfall), p)
  {
    hide RouteGains, BackedProceeds, UnitPrice, AccOf, GainsFrom, TradingGains, GainsAt, TradingAt;
    RouteByOrigin(b, clips, BackedProceeds(sol, taken, shortfall), taken, p);
    GainsAreAtPrice(clips, p, sol, taken, shortfall);
  }

  /**
   * A sell draws, and unless it found next to nothing books for each position the tokens that came from
   * it, at the price of the whole sell less their cost; what came from no position goes to trading.
   */
  lemma SellDraws(w: Wallet, qty: real, sol: real, eps: real, p: Address)
    requires eps >= 0.0 && qty > 0.0 && sol > 0.0 && p != ""
    ensures var w' := Apply(w, Sell(qty, sol), eps);
            exists d :: IsDraw(w.inv, qty, eps, d) && w'.inv == d.left
                        && if d.taken <= eps then w'.books == w.books
                           else IsRouted(w.books, w'.books, d.perLot, UnitPrice(sol, qty), p)
  {
    hide Consume, IsDraw, RouteGains, BackedProceeds, UnitPrice, IsRouted;
    var d := Consume(w.inv, qty, eps);
    ConsumeIsDraw(w.inv, qty, eps);
    if d.taken > eps { RouteIsRouted(w.books, d.perLot, sol, d.taken, d.shortfall, p); }
  }

  // ----- what goes in comes out at the same price

  /** Tokens above the threshold that position `p` withdraws. */
  ghost function Withdrawn(evs: seq<Event>, p: Address, eps: real): real {
    if evs == [] then 0.0
    else
      var e := evs[|evs| - 1];
      Withdrawn(evs[..|evs| - 1], p, eps) + (if e.Withdraw? && e.pos == p && e.qty > eps then e.qty else 0.0)
  }

  /** The basis fields of an account: what its deposits paid, and what that is averaged over. */
  ghost predicate SameBasis(a: Acc, a': Acc) {
    a'.entryCost == a.entryCost && a'.inQty == a.inQty && a'.inCost == a.inCost
  }

  lemma StepBasis(w: Wallet, e: Event, eps: real, p: Address)
    requires eps >= 0.0 && ValidEvent(e) && p != "" && !(e.Deposit? && e.pos == p)
    ensures var a, a' := AccOf(w.books, p), AccOf(Apply(w, e, eps).books, p);
            && SameBasis(a, a')
            && (!(e.Withdraw? && e.pos == p && e.qty > eps) ==> a'.exitCredit == a.exitCredit)
  {
    hide Worth, UnitPrice, BackedProceeds, Consume;
    if e.Sell? {
      var d := Consume(w.inv, e.qty, eps);
      if d.taken > eps {
        RouteByOrigin(w.books, d.perLot, BackedProceeds(e.sol, d.taken, d.shortfall), d.taken, p);
      }
    }
  }

  lemma StepCredit(w: Wallet, e: Event, eps: real, p: Address)
    requires eps >= 0.0 && ValidEvent(e) && e.Withdraw? && e.pos == p && e.qty > eps && AccOf(w.books, p).inQty > eps
    ensures var a, a' := AccOf(w.books, p), AccOf(Apply(w, e, eps).books, p);
            Worth(a'.exitCredit - a.exitCredit, a.inQty) == Worth(e.qty, a.inCost)
  {
    var a := AccOf(w.books, p);
    var avg := UnitPrice(a.inCost, a.inQty);
    PriceTimesQty(a.inCost, a.inQty);
    WithdrawIs(w, p, e.qty, e.sol, eps, a, avg, Worth(e.qty, avg));
    assert e.qty * avg * a.inQty == e.qty * (avg * a.inQty);
  }

  /** As long as nothing is deposited, withdraws are credited at the average: credit to cost as tokens to tokens. */
  lemma {:induction false} WithdrawsAtAverage(w: Wallet, evs: seq<Event>, eps: real, p: Address)
    requires eps >= 0.0 && ValidTimeline(evs) && p != "" && AccOf(w.books, p).inQty > eps
    requires forall e | e in evs :: !(e.Deposit? && e.pos == p)
    ensures var a, a' := AccOf(w.books, p), AccOf(Walk(w, evs, eps).books, p);
            && SameBasis(a, a')
            && Worth(a'.exitCredit - a.exitCredit, a.inQty) == Worth(Withdrawn(evs, p, eps), a.inCost)
  {
    hide Apply, AccOf, Worth;
    var a := AccOf(w.books, p);
    if evs == [] {
      NoWorth(a.inQty);
      NoWorth(a.inCost);
    } else {
      var n := |evs| - 1;
      var e, mid := evs[n], Walk(w, evs[..n], eps);
      assert ValidEvent(e);
      WithdrawsAtAverage(w, evs[..n], eps, p);
      StepBasis(mid, e, eps, p);
      var m, a' := AccOf(mid.books, p), AccOf(Walk(w, evs, eps).books, p);
      if e.Withdraw? && e.pos == p && e.qty > eps {
        StepCredit(mid, e, eps, p);
        WorthAdds(m.exitCredit - a.exitCredit, a'.exitCredit - m.exitCredit, a.inQty);
        WorthAdds(Withdrawn(evs[..n], p, eps), e.qty, a.inCost);
        assert m.exitCredit - a.exitCredit + (a'.exitCredit - m.exitCredit) == a'.exitCredit - a.exitCredit;
      }
    }
  }

  lemma NoWorth(x: real)
    ensures Worth(0.0, x) == 0.0
  {
  }

  lemma {:induction false} NoCreditYet(evs: seq<Event>, eps: real, p: Address)
    requires eps >= 0.0 && ValidTimeline(evs) && p != ""
    requires forall e | e in evs :: !(e.Withdraw? && e.pos == p)
    ensures AccOf(Walk(START, evs, eps).books, p).exitCredit == 0.0
  {
    hide Apply, AccOf;
    if evs == [] {
      BasisStart(p);
    } else {
      var n := |evs| - 1;
      assert ValidEvent(evs[n]);
      NoCreditYet(evs[..n], eps, p);
      StepCreditless(Walk(START, evs[..n], eps), evs[n], eps, p);
    }
  }

  lemma StepCreditless(w: Wallet, e: Event, eps: real, p: Address)
    requires eps >= 0.0 && ValidEvent(e) && p != "" && !(e.Withdraw? && e.pos == p)
    ensures AccOf(Apply(w, e, eps).books, p).exitCredit == AccOf(w.books, p).exitCredit
  {
    if !(e.Deposit? && e.pos == p) { StepBasis(w, e, eps, p); } else { hide Consume; }
  }

  lemma SameCredit(credit: real, qty: real, cost: real)
    requires qty > 0.0 && Worth(credit, qty) == Worth(qty, cost)
    ensures credit == cost
  {
    assert credit < cost ==> credit * qty < cost * qty;
    assert credit > cost ==> credit * qty > cost * qty;
  }

  /**
   * A round trip costs nothing: a position that withdraws, after its last deposit, exactly the tokens
   * that its deposits were backed with is credited exactly what they had cost, whatever else happens.
   */
  lemma RoundTrip(before: seq<Event>, after: seq<Event>, eps: real, p: Address)
    requires eps >= 0.0 && ValidTimeline(before + after) && p != ""
    requires forall e | e in before :: !(e.Withdraw? && e.pos == p)
    requires forall e | e in after :: !(e.Deposit? && e.pos == p)
    requires var a := AccOf(Walk(START, before + after, eps).books, p);
             a.inQty > eps && Withdrawn(after, p, eps) == a.inQty
    ensures var a := AccOf(Walk(START, before + after, eps).books, p); a.exitCredit == a.entryCost
  {
    PartsAreValid(before, after);
    hide Walk, AccOf, Withdrawn, ValidTimeline;
    WalkAppends(START, before, after, eps);
    NoCreditYet(before, eps, p);
    CostIsBasis(before, eps, p);
    CreditIsCost(Walk(START, before, eps), after, eps, p);
  }

  lemma PartsAreValid(before: seq<Event>, after: seq<Event>)
    requires ValidTimeline(before + after)
    ensures ValidTimeline(before) && ValidTimeline(after)
  {
    assert forall e | e in before :: e in before + after;
    assert forall e | e in after :: e in before + after;
  }

  lemma CostIsBasis(evs: seq<Event>, eps: real, p: Address)
    requires eps >= 0.0 && ValidTimeline(evs)
    ensures var a := AccOf(Walk(START, evs, eps).books, p); a.entryCost == a.inCost
  {
    WalkCostBasis(evs, eps);
    hide Walk, AccOf, Worth, TopPrice, LotsWithin;
    AccOfWithin(Walk(START, evs, eps).books, p, TopPrice(evs));
  }

  /** From a state without credit, withdrawing what backs the basis credits the whole cost. */
  lemma CreditIsCost(w: Wallet, evs: seq<Event>, eps: real, p: Address)
    requires eps >= 0.0 && ValidTimeline(evs) && p != "" && forall e | e in evs :: !(e.Deposit? && e.pos == p)
    requires var a := AccOf(w.books, p); a.exitCredit == 0.0 && a.entryCost == a.inCost
    requires var a := AccOf(Walk(w, evs, eps).books, p); a.inQty > eps && Withdrawn(evs, p, eps) == a.inQty
    ensures var a := AccOf(Walk(w, evs, eps).books, p); a.exitCredit == a.entryCost
  {
    hide Walk, AccOf, Worth, Withdrawn;
    BasisStays(w, evs, eps, p);
    WithdrawsAtAverage(w, evs, eps, p);
    var a := AccOf(Walk(w, evs, eps).books, p);
    SameCredit(a.exitCredit, a.inQty, a.inCost);
  }

  lemma {:induction false} BasisStays(w: Wallet, evs: seq<Event>, eps: real, p: Address)
    requires eps >= 0.0 && ValidTimeline(evs) && p != "" && forall e | e in evs :: !(e.Deposit? && e.pos == p)
    ensures SameBasis(AccOf(w.books, p), AccOf(Walk(w, evs, eps).books, p))
  {
    hide Apply, AccOf;
    if evs != [] {
      var n := |evs| - 1;
      assert ValidEvent(evs[n]);
      BasisStays(w, evs[..n], eps, p);
      StepBasis(Walk(w, evs[..n], eps), evs[n], eps, p);
    }
  }

  /** The same in a wallet of several mints. */
  lemma RoundTripInWallet(timelines: seq<seq<Event>>, k: nat, before: seq<Event>, after: seq<Event>, eps: real,
                          p: Address)
    requires eps >= 0.0 && ValidTimelines(timelines) && Disjoint(timelines) && k < |timelines| && p != ""
    requires timelines[k] == before + after && p in PositionsOf(timelines[k])
    requires forall e | e in before :: !(e.Withdraw? && e.pos == p)
    requires forall e | e in after :: !(e.Deposit? && e.pos == p)
    requires var a := AccOf(WalkMints(timelines, eps).0, p); a.inQty > eps && Withdrawn(after, p, eps) == a.inQty
    ensures var a := AccOf(WalkMints(timelines, eps).0, p); a.exitCredit == a.entryCost
  {
    hide Walk, WalkMints, AccOf, Withdrawn, PositionsOf;
    MintsWalkAlone(timelines, eps, k);
    RoundTrip(before, after, eps, p);
  }
}
