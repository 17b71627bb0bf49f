/**
 * SOL conservation and the cost-basis bound of the FIFO walk, for every dust threshold `eps`. Every
 * theorem holds for any order of events, so in particular for the engine's (time, kind) order.
 */
module FifoConservation {
  import opened Options
  import opened Fifo
  import opened MapTotals

  ghost function CostOf(lots: seq<Lot>): real {
    if lots == [] then 0.0 else Worth(lots[0].qty, lots[0].costPerUnit) + CostOf(lots[1..])
  }

  ghost function QtyOf(lots: seq<Lot>): real {
    if lots == [] then 0.0 else lots[0].qty + QtyOf(lots[1..])
  }

  ghost function ClipCost(clips: seq<Clip>): real {
    if clips == [] then 0.0 else Worth(clips[0].take, clips[0].costPerUnit) + ClipCost(clips[1..])
  }

  ghost function ClipQty(clips: seq<Clip>): real {
    if clips == [] then 0.0 else clips[0].take + ClipQty(clips[1..])
  }

  /** Everything the walk has attributed so far: the PnL of every position plus the trading PnL. */
  ghost function Attributed(b: Books): real {
    Total(PnlByPosition(b.acc)) + b.tradingPnL
  }

  ghost function PnlByPosition(acc: map<Address, Acc>): map<Address, real> {
    map p | p in acc :: PnlOf(acc[p])
  }

  /** Every lot is non-empty and priced between 0 and `top`. */
  ghost predicate LotsWithin(lots: seq<Lot>, top: real) {
    forall l | l in lots :: l.qty > 0.0 && 0.0 <= l.costPerUnit <= top
  }

  /** The average deposit cost of a position lies between 0 and `top`; its entry cost is its basis. */
  ghost predicate AccWithin(a: Acc, top: real) {
    0.0 <= a.inQty && 0.0 <= a.inCost <= Worth(a.inQty, top) && a.entryCost == a.inCost
  }

  ghost predicate BooksWithin(b: Books, top: real) {
    forall p | p in b.acc :: AccWithin(b.acc[p], top)
  }

  ghost predicate Within(w: Wallet, top: real) {
    top >= 0.0 && LotsWithin(w.inv, top) && BooksWithin(w.books, top)
  }

  ghost predicate PricesWithin(evs: seq<Event>, top: real)
    requires ValidTimeline(evs)
  {
    top >= 0.0 && forall e | e in evs && e.Buy? :: UnitPrice(e.sol, e.qty) <= top
  }

  /** The highest price paid by a buy of the timeline, 0 when there is none. */
  ghost function TopPrice(evs: seq<Event>): real
    requires ValidTimeline(evs)
  {
    if evs == [] then 0.0
    else
      var e := evs[|evs| - 1];
      assert ValidEvent(e);
      var top := TopPrice(evs[..|evs| - 1]);
      if e.Buy? && UnitPrice(e.sol, e.qty) > top then UnitPrice(e.sol, e.qty) else top
  }

  /**
   * The signed SOL that event `e` moves through the wallet, as far as the walk can attribute it: the
   * part of a sell that finds no tokens in the inventory has no known origin and stays out.
   */
  ghost function Moved(w: Wallet, e: Event, eps: real): real
    requires eps >= 0.0 && ValidEvent(e)
  {
    match e
    case Buy(_, sol) => -sol
    case Claim(_, _, sol) => sol
    case Withdraw(_, _, sol) => sol
    case Deposit(_, _, sol) => -sol
    case Sell(qty, sol) =>
      var d := Consume(w.inv, qty, eps);
      if d.taken > eps then BackedProceeds(sol, d.taken, d.shortfall) else 0.0
  }

  ghost function MovedBy(w: Wallet, evs: seq<Event>, eps: real): real
    requires eps >= 0.0 && ValidTimeline(evs)
  {
    if evs == [] then 0.0
    else
      var n := |evs| - 1;
      MovedBy(w, evs[..n], eps) + Moved(Walk(w, evs[..n], eps), evs[n], eps)
  }

  /** `n` times the most SOL that one dropped or unbooked crumb of at most `eps` tokens can carry. */
  ghost function Dust(n: nat, eps: real, top: real): real {
    if n == 0 then 0.0 else Worth(eps, top) + Dust(n - 1, eps, top)
  }

  // ----- elementary facts

  lemma WorthMono(q1: real, q2: real, p1: real, p2: real)
    requires 0.0 <= q1 <= q2 && 0.0 <= p1 <= p2
    ensures 0.0 <= Worth(q1, p1) <= Worth(q2, p2)
  {
    assert q1 * p1 <= q2 * p1 <= q2 * p2;
  }

  lemma WorthAdds(q1: real, q2: real, p: real)
    ensures Worth(q1 + q2, p) == Worth(q1, p) + Worth(q2, p)
  {
  }

  lemma WorthOfNothing(x: real)
    ensures Worth(x, 0.0) == 0.0 && Worth(0.0, x) == 0.0
  {
  }

  lemma WorthOfPrice(sol: real, qty: real)
    requires qty > 0.0
    ensures Worth(qty, UnitPrice(sol, qty)) == sol
  {
  }

  lemma {:induction false} DustIsProduct(n: nat, eps: real, top: real)
    ensures Dust(n, eps, top) == n as real * Worth(eps, top)
  {
    if n > 0 {
      DustIsProduct(n - 1, eps, top);
      var u := Worth(eps, top);
      assert n as real * u == (n - 1) as real * u + u;
    }
  }

  lemma {:induction false} DustAdds(m: nat, n: nat, eps: real, top: real)
    ensures Dust(m + n, eps, top) == Dust(m, eps, top) + Dust(n, eps, top)
  {
    if n > 0 { DustAdds(m, n - 1, eps, top); }
  }

  lemma {:induction false} DustMono(m: nat, n: nat, eps: real, top: real)
    requires m <= n && eps >= 0.0 && top >= 0.0
    ensures 0.0 <= Dust(m, eps, top) <= Dust(n, eps, top)
  {
    hide Worth;
    WorthMono(0.0, eps, 0.0, top);
    if m < n { DustMono(m, n - 1, eps, top); } else if m > 0 { DustMono(m - 1, n - 1, eps, top); }
  }

  lemma {:induction false} CostAppend(lots: seq<Lot>, lot: Lot)
    ensures CostOf(lots + [lot]) == CostOf(lots) + Worth(lot.qty, lot.costPerUnit)
  {
    hide Worth;
    if lots != [] {
      assert (lots + [lot])[1..] == lots[1..] + [lot];
      CostAppend(lots[1..], lot);
    } else {
      assert lots + [lot] == [lot];
    }
  }

  /** Replacing one accumulator changes the attributed total by the change of that position's PnL. */
  lemma PutAttributed(b: Books, pos: Address, a: Acc)
    ensures Attributed(Put(b, pos, a)) == Attributed(b) + PnlOf(a) - PnlOf(AccOf(b, pos))
  {
    assert PnlByPosition(Put(b, pos, a).acc) == PnlByPosition(b.acc)[pos := PnlOf(a)];
    TotalUpdate(PnlByPosition(b.acc), pos, PnlOf(a));
  }

  lemma GainAttributed(b: Books, origin: Option<Address>, gain: real)
    ensures Attributed(AddGain(b, origin, gain)) == Attributed(b) + gain
  {
    hide AccOf;
    if HasPosition(origin) {
      var a := AccOf(b, origin.value);
      PutAttributed(b, origin.value, a.(realizedGain := a.realizedGain + gain));
    }
  }

  // ----- taking tokens out

  lemma {:induction false} ConsumeClips(inv: seq<Lot>, need: real, eps: real)
    requires eps >= 0.0
    ensures var d := Consume(inv, need, eps); d.cost == ClipCost(d.perLot) && d.taken == ClipQty(d.perLot)
    decreases |inv|, need > eps
  {
    hide Worth;
    if need > eps && inv != [] {
      var take := Min(need, inv[0].qty);
      ConsumeClips(AfterTake(inv, take, eps), need - take, eps);
    }
  }

  /** One pass of the loop: the cost that leaves is booked, but for a crumb that is dropped with its lot. */
  lemma AfterTakeSheds(inv: seq<Lot>, take: real, eps: real, top: real)
    requires eps >= 0.0 && LotsWithin(inv, top) && inv != [] && 0.0 <= take <= inv[0].qty && top >= 0.0
    ensures var left := AfterTake(inv, take, eps);
            && LotsWithin(left, top) && |inv| - 1 <= |left| <= |inv| && (take == inv[0].qty ==> |left| < |inv|)
            && var shed := CostOf(inv) - Worth(take, inv[0].costPerUnit) - CostOf(left);
               0.0 <= shed <= Dust(|inv| - |left|, eps, top)
  {
    hide Worth;
    var lot := inv[0];
    var rest := lot.qty - take;
    WorthAdds(take, rest, lot.costPerUnit);
    if rest <= eps {
      WorthMono(rest, eps, lot.costPerUnit, top);
      assert Dust(1, eps, top) == Worth(eps, top) + Dust(0, eps, top);
    } else {
      assert AfterTake(inv, take, eps)[1..] == inv[1..];
    }
  }

  /** A consumption never takes more than asked, and never books above the top price. */
  lemma {:induction false} ConsumeBounds(inv: seq<Lot>, need: real, eps: real, top: real)
    requires eps >= 0.0 && need >= 0.0 && top >= 0.0 && LotsWithin(inv, top)
    ensures var d := Consume(inv, need, eps);
            && LotsWithin(d.left, top) && |d.left| <= |inv|
            && 0.0 <= d.taken && 0.0 <= d.shortfall && 0.0 <= d.cost <= Worth(d.taken, top)
    decreases |inv|, need > eps
  {
    hide Worth, CostOf, Dust;
    WorthOfNothing(top);
    if need > eps && inv != [] {
      var take := Min(need, inv[0].qty);
      AfterTakeSheds(inv, take, eps, top);
      ConsumeBounds(AfterTake(inv, take, eps), need - take, eps, top);
      WorthMono(take, take, inv[0].costPerUnit, top);
      WorthAdds(take, Consume(AfterTake(inv, take, eps), need - take, eps).taken, top);
    }
  }

  /**
   * A consumption is fully accounted for: what it booked and what is left add up to what was there,
   * up to one crumb per dropped lot.
   */
  lemma {:induction false} ConsumeSheds(inv: seq<Lot>, need: real, eps: real, top: real)
    requires eps >= 0.0 && need >= 0.0 && top >= 0.0 && LotsWithin(inv, top)
    ensures var d := Consume(inv, need, eps);
            && |d.left| <= |inv|
            && 0.0 <= CostOf(inv) - d.cost - CostOf(d.left) <= Dust(|inv| - |d.left|, eps, top)
    decreases |inv|, need > eps
  {
    hide Worth, CostOf, Dust, AfterTake;
    DustMono(0, 0, eps, top);
    if need > eps && inv != [] {
      var take := Min(need, inv[0].qty);
      var inv' := AfterTake(inv, take, eps);
      AfterTakeSheds(inv, take, eps, top);
      ConsumeSheds(inv', need - take, eps, top);
      DustAdds(|inv| - |inv'|, |inv'| - |Consume(inv', need - take, eps).left|, eps, top);
    }
  }

  // ----- routing the gains

  lemma ShareAdds(proceeds: real, x: real, y: real, taken: real)
    requires taken > 0.0
    ensures Share(proceeds, x + y, taken) == Share(proceeds, x, taken) + Share(proceeds, y, taken)
    ensures Share(proceeds, 0.0, taken) == 0.0 && Share(proceeds, taken, taken) == proceeds
  {
    assert (x + y) / taken == x / taken + y / taken;
  }

  /** Routing attributes exactly the shares of the clips less their cost, whatever their origins. */
  lemma {:induction false} RouteAttributed(b: Books, clips: seq<Clip>, proceeds: real, taken: real)
    requires taken > 0.0
    ensures Attributed(RouteGains(b, clips, proceeds, taken))
            == Attributed(b) + Share(proceeds, ClipQty(clips), taken) - ClipCost(clips)
    decreases |clips|
  {
    hide Worth;
    if clips != [] {
      var c := clips[0];
      var gain := Share(proceeds, c.take, taken) - Worth(c.take, c.costPerUnit);
      GainAttributed(b, c.origin, gain);
      RouteAttributed(AddGain(b, c.origin, gain), clips[1..], proceeds, taken);
      ShareAdds(proceeds, c.take, ClipQty(clips[1..]), taken);
    } else {
      ShareAdds(proceeds, 0.0, 0.0, taken);
    }
  }

  lemma {:induction false} RouteKeepsWithin(b: Books, clips: seq<Clip>, proceeds: real, taken: real, top: real)
    requires taken > 0.0 && BooksWithin(b, top) && top >= 0.0
    ensures BooksWithin(RouteGains(b, clips, proceeds, taken), top)
    decreases |clips|
  {
    hide Worth;
    if clips != [] {
      var c := clips[0];
      var gain := Share(proceeds, c.take, taken) - Worth(c.take, c.costPerUnit);
      WorthMono(0.0, 0.0, 0.0, top);
      RouteKeepsWithin(AddGain(b, c.origin, gain), clips[1..], proceeds, taken, top);
    }
  }

  // ----- one event

  /** Attributed PnL beyond the SOL that moved and the change of the cost held in the inventory. */
  ghost function Slack(w: Wallet, e: Event, eps: real): real
    requires eps >= 0.0 && ValidEvent(e)
  {
    var w' := Apply(w, e, eps);
    Attributed(w'.books) - Attributed(w.books) - Moved(w, e, eps) - (CostOf(w'.inv) - CostOf(w.inv))
  }

  ghost predicate StepSound(w: Wallet, e: Event, eps: real, top: real)
    requires eps >= 0.0 && ValidEvent(e)
  {
    var w' := Apply(w, e, eps);
    && Within(w', top)
    && 0.0 <= Slack(w, e, eps)
    && Slack(w, e, eps) + Dust(|w'.inv|, eps, top) <= Dust(|w.inv| + 1, eps, top)
  }

  lemma DustStep(m: nat, n: nat, eps: real, top: real)
    requires m <= n + 1 && eps >= 0.0 && top >= 0.0
    ensures Dust(m, eps, top) <= Dust(n + 1, eps, top)
    ensures m <= n ==> Dust(n - m, eps, top) + Dust(m, eps, top) <= Dust(n + 1, eps, top)
    ensures m <= n ==> Dust(n - m, eps, top) + Dust(m, eps, top) + Worth(eps, top) <= Dust(n + 1, eps, top)
  {
    hide Worth;
    DustMono(m, n + 1, eps, top);
    DustMono(n, n + 1, eps, top);
    if m <= n { DustAdds(n - m, m, eps, top); }
  }

  lemma BuySound(w: Wallet, e: Event, eps: real, top: real)
    requires eps >= 0.0 && ValidEvent(e) && Within(w, top) && e.Buy? && UnitPrice(e.sol, e.qty) <= top
    ensures StepSound(w, e, eps, top)
  {
    hide Worth;
    var lot := Lot(e.qty, UnitPrice(e.sol, e.qty), None);
    CostAppend(w.inv, lot);
    WorthOfPrice(e.sol, e.qty);
    assert UnitPrice(e.sol, e.qty) >= 0.0;
  }

  lemma AccOfWithin(b: Books, pos: Address, top: real)
    requires BooksWithin(b, top)
    ensures AccWithin(AccOf(b, pos), top)
  {
    WorthOfNothing(top);
  }

  lemma ClaimSound(w: Wallet, e: Event, eps: real, top: real)
    requires eps >= 0.0 && ValidEvent(e) && Within(w, top) && e.Claim?
    ensures StepSound(w, e, eps, top)
  {
    hide Worth, AccOf, Attributed, CostOf, Dust;
    var a := AccOf(w.books, e.pos);
    PutAttributed(w.books, e.pos, a.(solLeg := a.solLeg + e.sol));
    CostAppend(w.inv, Lot(e.qty, 0.0, Some(e.pos)));
    WorthOfNothing(e.qty);
    AccOfWithin(w.books, e.pos, top);
    DustStep(|w.inv|, |w.inv|, eps, top);
  }

  lemma ExitPriceWithin(a: Acc, eps: real, top: real)
    requires eps >= 0.0 && top >= 0.0 && AccWithin(a, top)
    ensures 0.0 <= ExitPrice(a, eps) <= top
  {
    if a.inQty > eps {
      WorthOfPrice(a.inCost, a.inQty);
      var avg := UnitPrice(a.inCost, a.inQty);
      if avg > top { assert a.inQty * avg > a.inQty * top; }
    }
  }

  lemma WithdrawSound(w: Wallet, e: Event, eps: real, top: real)
    requires eps >= 0.0 && ValidEvent(e) && Within(w, top) && e.Withdraw?
    ensures StepSound(w, e, eps, top)
  {
    hide Worth, AccOf;
    var a := AccOf(w.books, e.pos);
    AccOfWithin(w.books, e.pos, top);
    var avg := ExitPrice(a, eps);
    ExitPriceWithin(a, eps, top);
    var credit := if e.qty > eps then Worth(e.qty, avg) else 0.0;
    PutAttributed(w.books, e.pos, AfterWithdraw(a, e.sol, credit));
    CostAppend(w.inv, Lot(e.qty, avg, Some(e.pos)));
    DustStep(|w.inv|, |w.inv|, eps, top);
  }

  lemma DepositSound(w: Wallet, e: Event, eps: real, top: real)
    requires eps >= 0.0 && ValidEvent(e) && Within(w, top) && e.Deposit?
    ensures StepSound(w, e, eps, top)
  {
    hide Worth, AccOf, Attributed, CostOf, Dust, Consume;
    var a := AccOf(w.books, e.pos);
    AccOfWithin(w.books, e.pos, top);
    if e.qty > eps {
      var d := Consume(w.inv, e.qty, eps);
      ConsumeBounds(w.inv, e.qty, eps, top);
      ConsumeSheds(w.inv, e.qty, eps, top);
      WorthAdds(a.inQty, d.taken, top);
      PutAttributed(w.books, e.pos, AfterDeposit(a, e.sol, d.cost, d.taken));
      DustStep(|d.left|, |w.inv|, eps, top);
    } else {
      PutAttributed(w.books, e.pos, AfterDeposit(a, e.sol, 0.0, 0.0));
      DustStep(|w.inv|, |w.inv|, eps, top);
    }
  }

  lemma SellSound(w: Wallet, e: Event, eps: real, top: real)
    requires eps >= 0.0 && ValidEvent(e) && Within(w, top) && e.Sell?
    ensures StepSound(w, e, eps, top)
  {
    hide Worth, Attributed, CostOf, Dust, Consume, RouteGains, Share, BackedProceeds, ClipCost, ClipQty;
    var d := Consume(w.inv, e.qty, eps);
    ConsumeBounds(w.inv, e.qty, eps, top);
    ConsumeSheds(w.inv, e.qty, eps, top);
    ConsumeClips(w.inv, e.qty, eps);
    DustStep(|d.left|, |w.inv|, eps, top);
    if d.taken > eps {
      var proceeds := BackedProceeds(e.sol, d.taken, d.shortfall);
      RouteAttributed(w.books, d.perLot, proceeds, d.taken);
      RouteKeepsWithin(w.books, d.perLot, proceeds, d.taken, top);
      ShareAdds(proceeds, 0.0, 0.0, d.taken);
    } else {
      WorthMono(d.taken, eps, top, top);
    }
  }

  lemma StepIsSound(w: Wallet, e: Event, eps: real, top: real)
    requires eps >= 0.0 && ValidEvent(e) && Within(w, top) && (e.Buy? ==> UnitPrice(e.sol, e.qty) <= top)
    ensures StepSound(w, e, eps, top)
  {
    match e
    case Buy(_, _) => BuySound(w, e, eps, top);
    case Claim(_, _, _) => ClaimSound(w, e, eps, top);
    case Withdraw(_, _, _) => WithdrawSound(w, e, eps, top);
    case Deposit(_, _, _) => DepositSound(w, e, eps, top);
    case Sell(_, _) => SellSound(w, e, eps, top);
  }

  // ----- whole timelines

  lemma {:induction false} WalkIsSound(w: Wallet, evs: seq<Event>, eps: real, top: real)
    requires eps >= 0.0 && ValidTimeline(evs) && Within(w, top) && PricesWithin(evs, top)
    ensures var w' := Walk(w, evs, eps);
            && Within(w', top)
            && var slack := Attributed(w'.books) - Attributed(w.books) - MovedBy(w, evs, eps)
                            - (CostOf(w'.inv) - CostOf(w.inv));
               0.0 <= slack && slack + Dust(|w'.inv|, eps, top) <= Dust(|w.inv| + |evs|, eps, top)
  {
    hide Worth, UnitPrice, Apply, Moved;
    if evs != [] {
      var n := |evs| - 1;
      var mid := Walk(w, evs[..n], eps);
      assert ValidEvent(evs[n]);
      WalkIsSound(w, evs[..n], eps, top);
      StepIsSound(mid, evs[n], eps, top);
      assert Dust(|mid.inv| + 1, eps, top) == Dust(|mid.inv|, eps, top) + Worth(eps, top);
      assert Dust(|w.inv| + |evs|, eps, top) == Dust(|w.inv| + n, eps, top) + Worth(eps, top);
    }
  }

  /** The highest price is one some buy paid, and no buy paid more. */
  lemma {:induction false} TopPriceIsHighest(evs: seq<Event>)
    requires ValidTimeline(evs)
    ensures PricesWithin(evs, TopPrice(evs))
    ensures TopPrice(evs) == 0.0 || exists e :: e in evs && e.Buy? && UnitPrice(e.sol, e.qty) == TopPrice(evs)
  {
    hide UnitPrice;
    if evs != [] {
      var n := |evs| - 1;
      TopPriceIsHighest(evs[..n]);
      assert evs == evs[..n] + [evs[n]];
      assert ValidEvent(evs[n]);
      if e :| e in evs[..n] && e.Buy? && UnitPrice(e.sol, e.qty) == TopPrice(evs[..n]) { assert e in evs; }
      if evs[n].Buy? { assert evs[n] in evs; }
    }
  }

  /**
   * SOL conservation for one mint: attributed PnL is the SOL that moved plus the cost still in the
   * inventory; the threshold can misplace at most `eps` tokens at the highest buy price per event.
   */
  lemma SolConservation(evs: seq<Event>, eps: real)
    requires eps >= 0.0 && ValidTimeline(evs)
    ensures var w0 := Wallet([], EMPTY_BOOKS);
            var w := Walk(w0, evs, eps);
            var slack := Attributed(w.books) - (MovedBy(w0, evs, eps) + CostOf(w.inv));
            && 0.0 <= slack <= Dust(|evs|, eps, TopPrice(evs))
            && (eps == 0.0 ==> slack == 0.0)
  {
    hide Worth, UnitPrice, Apply, Moved;
    var top := TopPrice(evs);
    var w0 := Wallet([], EMPTY_BOOKS);
    TopPriceIsHighest(evs);
    WalkIsSound(w0, evs, eps, top);
    assert PnlByPosition(EMPTY_BOOKS.acc) == map[];
    DustMono(0, |Walk(w0, evs, eps).inv|, eps, top);
    if eps == 0.0 { DustOfNothing(|evs|, top); }
  }

  lemma DustOfNothing(n: nat, top: real)
    ensures Dust(n, 0.0, top) == 0.0
  {
    DustIsProduct(n, 0.0, top);
  }

  /**
   * The cost-basis bound: at the end of every timeline, hence after every event, no lot is priced
   * outside [0, highest buy so far] although withdrawn lots come back at an averaged deposit cost.
   */
  lemma WalkCostBasis(evs: seq<Event>, eps: real)
    requires eps >= 0.0 && ValidTimeline(evs)
    ensures Within(Walk(Wallet([], EMPTY_BOOKS), evs, eps), TopPrice(evs))
  {
    hide UnitPrice, Apply, Moved;
    TopPriceIsHighest(evs);
    WalkIsSound(Wallet([], EMPTY_BOOKS), evs, eps, TopPrice(evs));
  }

  /** Tokens the timeline deposits into position `p`. */
  ghost function Deposited(evs: seq<Event>, p: Address): real {
    if evs == [] then 0.0
    else
      var e := evs[|evs| - 1];
      Deposited(evs[..|evs| - 1], p) + (if e.Deposit? && e.pos == p then e.qty else 0.0)
  }

  lemma {:induction false} RouteKeepsQty(b: Books, clips: seq<Clip>, proceeds: real, taken: real, p: Address)
    requires taken > 0.0
    ensures AccOf(RouteGains(b, clips, proceeds, taken), p).inQty == AccOf(b, p).inQty
    decreases |clips|
  {
    if clips != [] {
      var c := clips[0];
      var gain := Share(proceeds, c.take, taken) - Worth(c.take, c.costPerUnit);
      RouteKeepsQty(AddGain(b, c.origin, gain), clips[1..], proceeds, taken, p);
    }
  }

  lemma StepBasisQty(w: Wallet, e: Event, eps: real, top: real, p: Address)
    requires eps >= 0.0 && ValidEvent(e) && Within(w, top)
    ensures AccOf(Apply(w, e, eps).books, p).inQty
            <= AccOf(w.books, p).inQty + (if e.Deposit? && e.pos == p then e.qty else 0.0)
  {
    hide Worth, UnitPrice, BackedProceeds;
    if e.Deposit? {
      ConsumeBounds(w.inv, e.qty, eps, top);
    } else if e.Sell? {
      var d := Consume(w.inv, e.qty, eps);
      if d.taken > eps {
        RouteKeepsQty(w.books, d.perLot, BackedProceeds(e.sol, d.taken, d.shortfall), d.taken, p);
      }
    }
  }

  /** Only tokens backed by the inventory enter the averaged basis, never more than were deposited. */
  lemma {:induction false} WalkBasisQty(evs: seq<Event>, eps: real, p: Address)
    requires eps >= 0.0 && ValidTimeline(evs)
    ensures AccOf(Walk(Wallet([], EMPTY_BOOKS), evs, eps).books, p).inQty <= Deposited(evs, p)
  {
    hide Worth, UnitPrice, Apply, AccOf;
    if evs != [] {
      var n := |evs| - 1;
      var w0 := Wallet([], EMPTY_BOOKS);
      assert ValidEvent(evs[n]);
      WalkBasisQty(evs[..n], eps, p);
      TopPriceIsHighest(evs[..n]);
      WalkIsSound(w0, evs[..n], eps, TopPrice(evs[..n]));
      StepBasisQty(Walk(w0, evs[..n], eps), evs[n], eps, TopPrice(evs[..n]), p);
    } else {
      assert AccOf(EMPTY_BOOKS, p) == NEW_ACC by { BasisStart(p); }
    }
  }

  lemma BasisStart(p: Address)
    ensures AccOf(EMPTY_BOOKS, p) == NEW_ACC
  {
  }

  // ----- all mints, and the held residual

  ghost function MovedByMints(timelines: seq<seq<Event>>, eps: real): real
    requires eps >= 0.0 && forall t | t in timelines :: ValidTimeline(t)
  {
    if timelines == [] then 0.0
    else
      var n := |timelines| - 1;
      MovedByMints(timelines[..n], eps)
      + MovedBy(Wallet([], WalkMints(timelines[..n], eps).0), timelines[n], eps)
  }

  ghost function CostOfAll(left: seq<seq<Lot>>): real {
    if left == [] then 0.0 else CostOfAll(left[..|left| - 1]) + CostOf(left[|left| - 1])
  }

  function Events(timelines: seq<seq<Event>>): nat {
    if timelines == [] then 0 else Events(timelines[..|timelines| - 1]) + |timelines[|timelines| - 1]|
  }

  lemma {:induction false} MintsAreSound(timelines: seq<seq<Event>>, eps: real, top: real)
    requires eps >= 0.0 && top >= 0.0
    requires forall t | t in timelines :: ValidTimeline(t) && PricesWithin(t, top)
    ensures var (b, left) := WalkMints(timelines, eps);
            && BooksWithin(b, top)
            && 0.0 <= Attributed(b) - MovedByMints(timelines, eps) - CostOfAll(left)
                   <= Dust(Events(timelines), eps, top)
  {
    hide Worth, UnitPrice, Apply, Moved;
    if timelines == [] {
      assert PnlByPosition(EMPTY_BOOKS.acc) == map[];
    } else {
      var n := |timelines| - 1;
      MintsAreSound(timelines[..n], eps, top);
      var (b, left) := WalkMints(timelines[..n], eps);
      assert timelines[n] in timelines;
      var w := Walk(Wallet([], b), timelines[n], eps);
      WalkIsSound(Wallet([], b), timelines[n], eps, top);
      DustMono(0, |w.inv|, eps, top);
      DustAdds(Events(timelines[..n]), |timelines[n]|, eps, top);
      assert WalkMints(timelines, eps).1 == left + [w.inv];
    }
  }

  /** The marked value of leftover lots, lot by lot. */
  ghost function HeldWorth(lots: seq<Lot>, marks: map<Address, real>, eps: real): real {
    if lots == [] then 0.0
    else
      var lot := lots[0];
      (if lot.origin.Some? && lot.origin.value != "" && lot.qty > eps && lot.origin.value in marks
       then Worth(lot.qty, marks[lot.origin.value]) else 0.0)
      + HeldWorth(lots[1..], marks, eps)
  }

  ghost function HeldWorthAll(left: seq<seq<Lot>>, marks: map<Address, real>, eps: real): real {
    if left == [] then 0.0 else HeldWorth(left[0], marks, eps) + HeldWorthAll(left[1..], marks, eps)
  }

  lemma HoldLotAttributed(b: Books, lot: Lot, marks: map<Address, real>, eps: real)
    ensures Attributed(HoldLot(b, lot, marks, eps)) == Attributed(b) + HeldWorth([lot], marks, eps)
  {
    assert HeldWorth([lot][1..], marks, eps) == 0.0;
    if Marked(lot, marks, eps) {
      var worth := Worth(lot.qty, marks[lot.origin.value]);
      AddHeldAttributed(b, lot.origin.value, worth);
    }
  }

  lemma AddHeldAttributed(b: Books, pos: Address, worth: real)
    ensures Attributed(AddHeld(b, pos, worth)) == Attributed(b) + worth
  {
    hide AccOf;
    var a := AccOf(b, pos);
    PutAttributed(b, pos, a.(heldValue := a.heldValue + worth));
  }

  lemma {:induction false} HoldAttributed(b: Books, lots: seq<Lot>, marks: map<Address, real>, eps: real)
    ensures Attributed(Hold(b, lots, marks, eps)) == Attributed(b) + HeldWorth(lots, marks, eps)
    decreases |lots|
  {
    if lots != [] {
      var lot := lots[0];
      HoldAttributed(HoldLot(b, lot, marks, eps), lots[1..], marks, eps);
      HoldLotAttributed(b, lot, marks, eps);
    }
  }

  lemma {:induction false} HoldMintsAttributed(b: Books, left: seq<seq<Lot>>, marks: map<Address, real>, eps: real)
    ensures Attributed(HoldMints(b, left, marks, eps)) == Attributed(b) + HeldWorthAll(left, marks, eps)
    decreases |left|
  {
    if left != [] {
      HoldAttributed(b, left[0], marks, eps);
      HoldMintsAttributed(Hold(b, left[0], marks, eps), left[1..], marks, eps);
    }
  }

  /**
   * The whole wallet, all mints and the held pass included: the PnL of all positions plus the trading
   * PnL is the SOL moved, plus the unsold cost basis, plus the marks, but for the bounded dust.
   */
  lemma WalletConservation(timelines: seq<seq<Event>>, marks: map<Address, real>, eps: real, top: real)
    requires eps >= 0.0 && top >= 0.0
    requires forall t | t in timelines :: ValidTimeline(t) && PricesWithin(t, top)
    ensures var (b, left) := WalkMints(timelines, eps);
            var slack := Attributed(HoldMints(b, left, marks, eps))
                         - (MovedByMints(timelines, eps) + CostOfAll(left) + HeldWorthAll(left, marks, eps));
            && 0.0 <= slack <= Dust(Events(timelines), eps, top)
            && (eps == 0.0 ==> slack == 0.0)
  {
    var (b, left) := WalkMints(timelines, eps);
    MintsAreSound(timelines, eps, top);
    HoldMintsAttributed(b, left, marks, eps);
    if eps == 0.0 { DustOfNothing(Events(timelines), top); }
  }
}
