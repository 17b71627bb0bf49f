/** Which position each amount of the walk is booked on, and where every token of a mint went. */
module FifoAttribution {
  import opened Options
  import opened Fifo
  import opened MapTotals
  import opened FifoConservation
  import opened FifoSplit

  // ----- gains and held value go to the origin of the lots

  /** The gains of the clips that came from position `p`. */
  ghost function GainsFrom(clips: seq<Clip>, p: Address, proceeds: real, taken: real): real
    requires taken > 0.0
  {
    if clips == [] then 0.0
    else
      var c := clips[0];
      (if c.origin == Some(p) then Share(proceeds, c.take, taken) - Worth(c.take, c.costPerUnit) else 0.0)
      + GainsFrom(clips[1..], p, proceeds, taken)
  }

  /** The gains of the clips that came from buys. */
  ghost function TradingGains(clips: seq<Clip>, proceeds: real, taken: real): real
    requires taken > 0.0
  {
    if clips == [] then 0.0
    else
      var c := clips[0];
      (if c.origin.Some? && c.origin.value != "" then 0.0
       else Share(proceeds, c.take, taken) - Worth(c.take, c.costPerUnit))
      + TradingGains(clips[1..], proceeds, taken)
  }

  lemma GainGoesTo(b: Books, origin: Option<Address>, gain: real, p: Address)
    requires p != ""
    ensures AccOf(AddGain(b, origin, gain), p)
            == AccOf(b, p).(realizedGain := AccOf(b, p).realizedGain + (if origin == Some(p) then gain else 0.0))
    ensures AddGain(b, origin, gain).tradingPnL == b.tradingPnL + (if HasPosition(origin) then 0.0 else gain)
  {
  }

  /** A sell changes no position but in its realized gain, and that by the gains of its own tokens. */
  lemma {:induction false} RouteByOrigin(b: Books, clips: seq<Clip>, proceeds: real, taken: real, p: Address)
    requires taken > 0.0 && p != ""
    ensures var b' := RouteGains(b, clips, proceeds, taken);
            && AccOf(b', p)
               == AccOf(b, p).(realizedGain := AccOf(b, p).realizedGain + GainsFrom(clips, p, proceeds, taken))
            && b'.tradingPnL == b.tradingPnL + TradingGains(clips, proceeds, taken)
    decreases |clips|
  {
    hide Share, Worth, AddGain, AccOf;
    if clips != [] {
      var c := clips[0];
      var gain := Share(proceeds, c.take, taken) - Worth(c.take, c.costPerUnit);
      GainGoesTo(b, c.origin, gain, p);
      RouteByOrigin(AddGain(b, c.origin, gain), clips[1..], proceeds, taken, p);
    }
  }

  /** The marked value of the lots that came from position `p`. */
  ghost function HeldBy(lots: seq<Lot>, p: Address, marks: map<Address, real>, eps: real): real {
    if lots == [] then 0.0
    else
      (if lots[0].origin == Some(p) && p != "" && lots[0].qty > eps && p in marks then Worth(lots[0].qty, marks[p])
       else 0.0)
      + HeldBy(lots[1..], p, marks, eps)
  }

  lemma HeldGoesTo(b: Books, lot: Lot, marks: map<Address, real>, eps: real, p: Address)
    ensures AccOf(HoldLot(b, lot, marks, eps), p)
            == AccOf(b, p).(heldValue := AccOf(b, p).heldValue + HeldBy([lot], p, marks, eps))
    ensures HoldLot(b, lot, marks, eps).tradingPnL == b.tradingPnL
  {
    hide Worth;
    assert HeldBy([lot][1..], p, marks, eps) == 0.0;
  }

  lemma {:induction false} HoldByOrigin(b: Books, lots: seq<Lot>, marks: map<Address, real>, eps: real, p: Address)
    ensures var b' := Hold(b, lots, marks, eps);
            && AccOf(b', p) == AccOf(b, p).(heldValue := AccOf(b, p).heldValue + HeldBy(lots, p, marks, eps))
            && b'.tradingPnL == b.tradingPnL
    decreases |lots|
  {
    hide HoldLot, Worth, AccOf;
    if lots != [] {
      HeldGoesTo(b, lots[0], marks, eps, p);
      HoldByOrigin(HoldLot(b, lots[0], marks, eps), lots[1..], marks, eps, p);
      assert HeldBy([lots[0]], p, marks, eps) + HeldBy(lots[1..], p, marks, eps) == HeldBy(lots, p, marks, eps) by {
        assert HeldBy([lots[0]][1..], p, marks, eps) == 0.0;
      }
    }
  }

  ghost function HeldByAll(left: seq<seq<Lot>>, p: Address, marks: map<Address, real>, eps: real): real {
    if left == [] then 0.0 else HeldBy(left[0], p, marks, eps) + HeldByAll(left[1..], p, marks, eps)
  }

  lemma {:induction false} HoldMintsByOrigin(b: Books, left: seq<seq<Lot>>, marks: map<Address, real>, eps: real,
                                             p: Address)
    ensures var b' := HoldMints(b, left, marks, eps);
            && AccOf(b', p) == AccOf(b, p).(heldValue := AccOf(b, p).heldValue + HeldByAll(left, p, marks, eps))
            && b'.tradingPnL == b.tradingPnL
    decreases |left|
  {
    hide Hold, HeldBy, AccOf;
    if left != [] {
      HoldByOrigin(b, left[0], marks, eps, p);
      HoldMintsByOrigin(Hold(b, left[0], marks, eps), left[1..], marks, eps, p);
    }
  }

  // ----- the SOL leg is the position's own cash flow

  function LegSol(e: Event, p: Address): real {
    match e
    case Claim(pos, _, sol) => if pos == p then sol else 0.0
    case Withdraw(pos, _, sol) => if pos == p then sol else 0.0
    case Deposit(pos, _, sol) => if pos == p then -sol else 0.0
    case Buy(_, _) => 0.0
    case Sell(_, _) => 0.0
  }

  function LegSum(evs: seq<Event>, p: Address): real {
    if evs == [] then 0.0 else LegSum(evs[..|evs| - 1], p) + LegSol(evs[|evs| - 1], p)
  }

  lemma StepSolLeg(w: Wallet, e: Event, eps: real, p: Address)
    requires eps >= 0.0 && ValidEvent(e) && p != ""
    ensures AccOf(Apply(w, e, eps).books, p).solLeg == AccOf(w.books, p).solLeg + LegSol(e, p)
  {
    hide Worth, UnitPrice, BackedProceeds, Consume;
    if e.Sell? {
      var d := Consume(w.inv, e.qty, eps);
      if d.taken > eps {
        RouteByOrigin(w.books, d.perLot, BackedProceeds(e.sol, d.taken, d.shortfall), d.taken, p);
      }
    }
  }

  /** The SOL leg of a position is exactly what it claimed and withdrew less what it deposited. */
  lemma {:induction false} WalkSolLeg(evs: seq<Event>, eps: real, p: Address)
    requires eps >= 0.0 && ValidTimeline(evs) && p != ""
    ensures AccOf(Walk(Wallet([], EMPTY_BOOKS), evs, eps).books, p).solLeg == LegSum(evs, p)
  {
    hide Apply, LegSol;
    if evs != [] {
      var n := |evs| - 1;
      assert ValidEvent(evs[n]);
      WalkSolLeg(evs[..n], eps, p);
      StepSolLeg(Walk(Wallet([], EMPTY_BOOKS), evs[..n], eps), evs[n], eps, p);
    } else {
      hide AccOf;
      BasisStart(p);
    }
  }

  // ----- every token is accounted for

  ghost function QtyByPosition(acc: map<Address, Acc>): map<Address, real> {
    map p | p in acc :: acc[p].inQty
  }

  /** Tokens that positions hold with a basis. */
  ghost function Backed(b: Books): real {
    Total(QtyByPosition(b.acc))
  }

  /** Tokens an event brings into the wallet, less those a sell takes out of the inventory. */
  ghost function NetTokens(w: Wallet, e: Event, eps: real): real
    requires eps >= 0.0 && ValidEvent(e)
  {
    match e
    case Buy(qty, _) => qty
    case Claim(_, qty, _) => qty
    case Withdraw(_, qty, _) => qty
    case Deposit(_, _, _) => 0.0
    case Sell(qty, _) => -Consume(w.inv, qty, eps).taken
  }

  ghost function NetTokensOf(w: Wallet, evs: seq<Event>, eps: real): real
    requires eps >= 0.0 && ValidTimeline(evs)
  {
    if evs == [] then 0.0
    else
      var n := |evs| - 1;
      NetTokensOf(w, evs[..n], eps) + NetTokens(Walk(w, evs[..n], eps), evs[n], eps)
  }

  lemma PutBacked(b: Books, pos: Address, a: Acc)
    ensures Backed(Put(b, pos, a)) == Backed(b) + a.inQty - AccOf(b, pos).inQty
  {
    assert QtyByPosition(Put(b, pos, a).acc) == QtyByPosition(b.acc)[pos := a.inQty];
    TotalUpdate(QtyByPosition(b.acc), pos, a.inQty);
  }

  lemma {:induction false} RouteBacked(b: Books, clips: seq<Clip>, proceeds: real, taken: real)
    requires taken > 0.0
    ensures Backed(RouteGains(b, clips, proceeds, taken)) == Backed(b)
    decreases |clips|
  {
    hide Share, Worth, Backed;
    if clips != [] {
      var c := clips[0];
      var gain := Share(proceeds, c.take, taken) - Worth(c.take, c.costPerUnit);
      GainBacked(b, c.origin, gain);
      RouteBacked(AddGain(b, c.origin, gain), clips[1..], proceeds, taken);
    }
  }

  lemma GainBacked(b: Books, origin: Option<Address>, gain: real)
    ensures Backed(AddGain(b, origin, gain)) == Backed(b)
  {
    hide AccOf;
    if HasPosition(origin) {
      var a := AccOf(b, origin.value);
      PutBacked(b, origin.value, a.(realizedGain := a.realizedGain + gain));
    }
  }

  lemma {:induction false} QtyAppend(lots: seq<Lot>, lot: Lot)
    ensures QtyOf(lots + [lot]) == QtyOf(lots) + lot.qty
  {
    if lots != [] {
      assert (lots + [lot])[1..] == lots[1..] + [lot];
      QtyAppend(lots[1..], lot);
    } else {
      assert lots + [lot] == [lot];
    }
  }

  lemma WorthOfOne(x: real)
    ensures Worth(x, 1.0) == x
  {
  }

  /** One pass of the consume loop loses at most a crumb of `eps` tokens with a dropped lot. */
  lemma AfterTakeTokens(inv: seq<Lot>, take: real, eps: real)
    requires eps >= 0.0 && Positive(inv) && inv != [] && 0.0 <= take <= inv[0].qty
    ensures var left := AfterTake(inv, take, eps);
            && Positive(left) && |inv| - 1 <= |left| <= |inv| && (take == inv[0].qty ==> |left| < |inv|)
            && 0.0 <= QtyOf(inv) - take - QtyOf(left) <= Dust(|inv| - |left|, eps, 1.0)
  {
    hide Worth;
    WorthOfOne(eps);
    if inv[0].qty - take <= eps {
      assert Dust(1, eps, 1.0) == Worth(eps, 1.0) + Dust(0, eps, 1.0);
    } else {
      assert AfterTake(inv, take, eps)[1..] == inv[1..];
    }
  }

  lemma {:induction false} ConsumeTokens(inv: seq<Lot>, need: real, eps: real)
    requires eps >= 0.0 && need >= 0.0 && Positive(inv)
    ensures var d := Consume(inv, need, eps);
            && |d.left| <= |inv|
            && 0.0 <= QtyOf(inv) - d.taken - QtyOf(d.left) <= Dust(|inv| - |d.left|, eps, 1.0)
    decreases |inv|, need > eps
  {
    hide Worth, QtyOf, Dust, AfterTake;
    DustMono(0, 0, eps, 1.0);
    if need > eps && inv != [] {
      var take := Min(need, inv[0].qty);
      var inv' := AfterTake(inv, take, eps);
      AfterTakeTokens(inv, take, eps);
      ConsumeTokens(inv', need - take, eps);
      DustAdds(|inv| - |inv'|, |inv'| - |Consume(inv', need - take, eps).left|, eps, 1.0);
    }
  }

  /** Tokens that a step loses from view, because they are below the threshold. */
  ghost function LostTokens(w: Wallet, e: Event, eps: real): real
    requires eps >= 0.0 && ValidEvent(e)
  {
    var w' := Apply(w, e, eps);
    QtyOf(w.inv) + Backed(w.books) + NetTokens(w, e, eps) - QtyOf(w'.inv) - Backed(w'.books)
  }

  ghost predicate StepKeepsTokens(w: Wallet, e: Event, eps: real)
    requires eps >= 0.0 && ValidEvent(e)
  {
    && 0.0 <= LostTokens(w, e, eps)
    && LostTokens(w, e, eps) + Dust(|Apply(w, e, eps).inv|, eps, 1.0) <= Dust(|w.inv| + 1, eps, 1.0)
  }

  lemma InflowTokens(w: Wallet, e: Event, eps: real)
    requires eps >= 0.0 && ValidEvent(e) && (e.Buy? || e.Claim? || e.Withdraw?)
    ensures StepKeepsTokens(w, e, eps)
  {
    hide Worth, UnitPrice, AccOf, QtyOf, Backed;
    WorthOfOne(eps);
    match e
    case Buy(qty, sol) => QtyAppend(w.inv, Lot(qty, UnitPrice(sol, qty), None));
    case Claim(pos, qty, sol) =>
      var a := AccOf(w.books, pos);
      PutBacked(w.books, pos, a.(solLeg := a.solLeg + sol));
      QtyAppend(w.inv, Lot(qty, 0.0, Some(pos)));
    case Withdraw(pos, qty, sol) =>
      var a := AccOf(w.books, pos);
      QtyAppend(w.inv, Lot(qty, ExitPrice(a, eps), Some(pos)));
      PutBacked(w.books, pos, AfterWithdraw(a, sol, if qty > eps then Worth(qty, ExitPrice(a, eps)) else 0.0));
  }

  lemma OutflowTokens(w: Wallet, e: Event, eps: real)
    requires eps >= 0.0 && ValidEvent(e) && Positive(w.inv) && (e.Deposit? || e.Sell?)
    ensures StepKeepsTokens(w, e, eps)
  {
    hide Worth, BackedProceeds, Consume, AccOf, QtyOf, Backed, Dust, RouteGains;
    var d := Consume(w.inv, e.qty, eps);
    ConsumeTokens(w.inv, e.qty, eps);
    DustStep(|d.left|, |w.inv|, eps, 1.0);
    DustStep(|w.inv|, |w.inv|, eps, 1.0);
    if e.Deposit? {
      var a := AccOf(w.books, e.pos);
      var cost, taken := if e.qty > eps then d.cost else 0.0, if e.qty > eps then d.taken else 0.0;
      PutBacked(w.books, e.pos, AfterDeposit(a, e.sol, cost, taken));
    } else if d.taken > eps {
      RouteBacked(w.books, d.perLot, BackedProceeds(e.sol, d.taken, d.shortfall), d.taken);
    }
  }

  /**
   * Token conservation, on whatever books the walk starts: every token that came in is in the inventory,
   * backed in a position, or was taken by a sell, up to one threshold per event and exactly for `eps` = 0.
   */
  lemma {:induction false} WalkTokens(w: Wallet, evs: seq<Event>, eps: real)
    requires eps >= 0.0 && ValidTimeline(evs) && Positive(w.inv)
    ensures var w' := Walk(w, evs, eps);
            var lost := QtyOf(w.inv) + Backed(w.books) + NetTokensOf(w, evs, eps) - QtyOf(w'.inv) - Backed(w'.books);
            0.0 <= lost && lost + Dust(|w'.inv|, eps, 1.0) <= Dust(|w.inv| + |evs|, eps, 1.0)
  {
    hide Apply, NetTokens, Worth, QtyOf, Backed;
    if evs != [] {
      var n := |evs| - 1;
      var e, mid := evs[n], Walk(w, evs[..n], eps);
      assert ValidEvent(e);
      WalkTokens(w, evs[..n], eps);
      WalkStaysPositive(w, evs[..n], eps);
      if e.Deposit? || e.Sell? { OutflowTokens(mid, e, eps); } else { InflowTokens(mid, e, eps); }
      assert Dust(|mid.inv| + 1, eps, 1.0) == Dust(|mid.inv|, eps, 1.0) + Worth(eps, 1.0);
      assert Dust(|w.inv| + |evs|, eps, 1.0) == Dust(|w.inv| + n, eps, 1.0) + Worth(eps, 1.0);
    }
  }
}
