/** What one position does to the ledger of its mint, and what all positions together keep of it. */
module ResidualLedger {
  import opened StableSort
  import opened Residual

  ghost predicate TimeSorted(lots: seq<SellLot>) {
    forall i, j | 0 <= i < j < |lots| :: lots[i].ts <= lots[j].ts
  }

  ghost predicate NonNegative(lots: seq<SellLot>) {
    forall i | 0 <= i < |lots| :: lots[i].remTok >= 0.0
  }

  predicate Eligible(ask: Ask, lot: SellLot) {
    ask.from <= lot.ts as real <= ask.until
  }

  function TokOf(lots: seq<SellLot>): real {
    if lots == [] then 0.0 else TokOf(lots[..|lots| - 1]) + lots[|lots| - 1].remTok
  }

  function SolOf(lots: seq<SellLot>): real {
    if lots == [] then 0.0 else SolOf(lots[..|lots| - 1]) + lots[|lots| - 1].remSol
  }

  lemma {:induction false} UpdateSums(lots: seq<SellLot>, i: nat, lot: SellLot)
    requires i < |lots|
    ensures TokOf(lots[i := lot]) == TokOf(lots) - lots[i].remTok + lot.remTok
    ensures SolOf(lots[i := lot]) == SolOf(lots) - lots[i].remSol + lot.remSol
  {
    var n := |lots| - 1;
    if i < n {
      UpdateSums(lots[..n], i, lot);
      assert lots[i := lot][..n] == lots[..n][i := lot];
    } else {
      assert lots[i := lot][..n] == lots[..n];
    }
  }

  // ----- the inner loop

  /** Lot `i` was drawn on. */
  predicate Drawn(before: seq<SellLot>, after: seq<SellLot>, i: nat)
    requires i < |before| == |after|
  {
    after[i].remTok < before[i].remTok
  }

  /**
   * A fill takes only from eligible lots above the threshold, never passes over an earlier eligible
   * lot, and stops only when the need or every eligible lot is down to the threshold.
   */
  ghost predicate GreedyFill(before: seq<SellLot>, f: Fill, ask: Ask, eps: real) {
    && |f.lots| == |before|
    && f.need >= 0.0
    && (forall i | 0 <= i < |before| :: f.lots[i].ts == before[i].ts && 0.0 <= f.lots[i].remTok <= before[i].remTok)
    && (forall i | 0 <= i < |before| && Drawn(before, f.lots, i) ::
          Eligible(ask, before[i]) && before[i].remTok > eps && Exhausted(f.lots, i, ask.from, eps))
    && (f.need <= eps || forall i | 0 <= i < |before| && Eligible(ask, before[i]) :: f.lots[i].remTok <= eps)
  }

  /** Every lot below index `i` from time `from` on is down to the threshold. */
  ghost predicate Exhausted(lots: seq<SellLot>, i: nat, from: real, eps: real)
    requires i <= |lots|
  {
    forall k | 0 <= k < i && lots[k].ts as real >= from :: lots[k].remTok <= eps
  }

  /** The state of the inner loop at lot `i`. */
  ghost predicate Filling(before: seq<SellLot>, f: Fill, i: nat, ask: Ask, eps: real) {
    && i <= |f.lots| == |before|
    && f.need >= 0.0
    && (forall k | i <= k < |before| :: f.lots[k] == before[k])
    && (forall k | 0 <= k < i :: f.lots[k].ts == before[k].ts && 0.0 <= f.lots[k].remTok <= before[k].remTok)
    && (forall k | 0 <= k < i && Drawn(before, f.lots, k) ::
          Eligible(ask, before[k]) && before[k].remTok > eps && Exhausted(f.lots, k, ask.from, eps))
    && (f.need <= eps || Exhausted(f.lots, i, ask.from, eps))
  }

  lemma FillingTake(before: seq<SellLot>, f: Fill, i: nat, ask: Ask, eps: real)
    requires NonNegative(before) && eps >= 0.0 && Filling(before, f, i, ask, eps)
    requires i < |before| && f.need > eps && f.lots[i].remTok > eps && Eligible(ask, f.lots[i])
    ensures Filling(before, TakeFrom(f, i), i + 1, ask, eps)
  {
    hide SolShare;
    var g := TakeFrom(f, i);
    assert forall k | 0 <= k < |before| && k != i :: g.lots[k] == f.lots[k];
    forall k | 0 <= k < i + 1 && Drawn(before, g.lots, k)
      ensures Eligible(ask, before[k]) && before[k].remTok > eps && Exhausted(g.lots, k, ask.from, eps)
    {
      assert k < i ==> Drawn(before, f.lots, k);
    }
  }

  lemma {:induction false} FillingEnds(before: seq<SellLot>, f: Fill, i: nat, ask: Ask, eps: real)
    requires NonNegative(before) && TimeSorted(before) && eps >= 0.0 && Filling(before, f, i, ask, eps)
    ensures GreedyFill(before, FillFrom(f, i, ask, eps), ask, eps)
    decreases |before| - i
  {
    hide SolShare, TakeFrom;
    if i < |before| && f.need > eps {
      if f.lots[i].remTok <= eps || f.lots[i].ts as real < ask.from {
        FillingEnds(before, f, i + 1, ask, eps);
      } else if f.lots[i].ts as real <= ask.until {
        FillingTake(before, f, i, ask, eps);
        FillingEnds(before, TakeFrom(f, i), i + 1, ask, eps);
      }
    }
  }

  lemma FillIsGreedy(lots: seq<SellLot>, ask: Ask, eps: real)
    requires NonNegative(lots) && TimeSorted(lots) && eps >= 0.0 && ask.need >= 0.0
    ensures GreedyFill(lots, FillAsk(lots, ask, eps), ask, eps)
  {
    FillingEnds(lots, Fill(lots, ask.need, 0.0, 0.0), 0, ask, eps);
  }

  // ----- conservation, and the price of a lot

  function Value(tok: real, price: real): real { tok * price }

  /** Lot by lot, the remaining SOL is the remaining tokens at the price the sell was made at. */
  ghost predicate Priced(lots: seq<SellLot>, prices: seq<real>) {
    && |lots| == |prices|
    && forall i | 0 <= i < |lots| ::
         lots[i].remTok >= 0.0 && prices[i] >= 0.0 && lots[i].remSol == Value(lots[i].remTok, prices[i])
  }

  /** The SOL of what was drawn from each lot, at that lot's own price. */
  function DrawnValue(before: seq<SellLot>, after: seq<SellLot>, prices: seq<real>): real
    requires |before| == |after| == |prices|
  {
    if before == [] then 0.0
    else
      var n := |before| - 1;
      DrawnValue(before[..n], after[..n], prices[..n]) + Value(before[n].remTok - after[n].remTok, prices[n])
  }

  lemma ShareAtPrice(lot: SellLot, take: real, price: real)
    requires lot.remTok > 0.0 && lot.remSol == Value(lot.remTok, price)
    ensures SolShare(lot, take) == Value(take, price)
    ensures lot.remSol - Value(take, price) == Value(lot.remTok - take, price)
  {
    assert lot.remSol * take == lot.remTok * (take * price);
    assert lot.remTok * (take * price) / lot.remTok == take * price;
  }

  ghost predicate SameAccount(f: Fill, g: Fill) {
    && |f.lots| == |g.lots|
    && f.need + f.soldAmount == g.need + g.soldAmount
    && TokOf(f.lots) + f.soldAmount == TokOf(g.lots) + g.soldAmount
    && SolOf(f.lots) + f.soldProceeds == SolOf(g.lots) + g.soldProceeds
    && f.soldAmount <= g.soldAmount && f.soldProceeds <= g.soldProceeds
  }

  lemma TakeKeepsAccount(f: Fill, i: nat, prices: seq<real>, eps: real)
    requires i < |f.lots| && Priced(f.lots, prices) && eps >= 0.0 && f.need > eps && f.lots[i].remTok > eps
    ensures SameAccount(f, TakeFrom(f, i)) && Priced(TakeFrom(f, i).lots, prices) && TakeFrom(f, i).need >= 0.0
  {
    var lot := f.lots[i];
    var take := Min(f.need, lot.remTok);
    ShareAtPrice(lot, take, prices[i]);
    assert Value(take, prices[i]) >= 0.0;
    hide SolShare, Value;
    UpdateSums(f.lots, i, Sold(lot, take));
  }

  lemma {:induction false} FillKeepsAccount(f: Fill, i: nat, ask: Ask, prices: seq<real>, eps: real)
    requires i <= |f.lots| && Priced(f.lots, prices) && eps >= 0.0 && f.need >= 0.0
    ensures var g := FillFrom(f, i, ask, eps); SameAccount(f, g) && Priced(g.lots, prices) && g.need >= 0.0
    decreases |f.lots| - i
  {
    hide SolShare, Value, TakeFrom;
    if i < |f.lots| && f.need > eps {
      if f.lots[i].remTok <= eps || f.lots[i].ts as real < ask.from {
        FillKeepsAccount(f, i + 1, ask, prices, eps);
      } else if f.lots[i].ts as real <= ask.until {
        TakeKeepsAccount(f, i, prices, eps);
        FillKeepsAccount(TakeFrom(f, i), i + 1, ask, prices, eps);
      }
    }
  }

  /** What one position sells leaves the ledger, token for token and lamport for lamport. */
  lemma FillConserves(lots: seq<SellLot>, ask: Ask, prices: seq<real>, eps: real)
    requires Priced(lots, prices) && eps >= 0.0 && ask.need >= 0.0
    ensures var f := FillAsk(lots, ask, eps);
            && Priced(f.lots, prices)
            && f.soldAmount == TokOf(lots) - TokOf(f.lots) && f.soldProceeds == SolOf(lots) - SolOf(f.lots)
            && f.soldAmount == ask.need - f.need && 0.0 <= f.soldAmount <= ask.need && 0.0 <= f.soldProceeds
  {
    FillKeepsAccount(Fill(lots, ask.need, 0.0, 0.0), 0, ask, prices, eps);
  }

  lemma {:induction false} SolAtPrices(before: seq<SellLot>, after: seq<SellLot>, prices: seq<real>)
    requires Priced(before, prices) && Priced(after, prices)
    ensures SolOf(before) - SolOf(after) == DrawnValue(before, after, prices)
  {
    if before != [] {
      var n := |before| - 1;
      SolAtPrices(before[..n], after[..n], prices[..n]);
      ValueDiff(before[n].remTok, after[n].remTok, prices[n]);
    }
  }

  lemma ValueDiff(x: real, y: real, price: real)
    ensures Value(x, price) - Value(y, price) == Value(x - y, price)
  {
  }

  // ----- the initial ledger

  /** The price each lot of the mint was sold at. */
  ghost function Prices(lots: seq<SellLot>): (r: seq<real>)
    requires forall i | 0 <= i < |lots| :: lots[i].remTok > 0.0
    ensures |r| == |lots|
  {
    seq(|lots|, i requires 0 <= i < |lots| => lots[i].remSol / lots[i].remTok)
  }

  lemma {:induction false} ArrivalsPositive(sells: seq<Sell>, mint: string)
    ensures forall l | l in Arrivals(sells, mint) :: l.remTok > 0.0 && l.remSol > 0.0
  {
    if sells != [] { ArrivalsPositive(sells[..|sells| - 1], mint); }
  }

  lemma LotsAreSound(sells: seq<Sell>, mint: string)
    ensures var lots := Lots(sells, mint);
            && TimeSorted(lots) && NonNegative(lots)
            && (forall i | 0 <= i < |lots| :: lots[i].remTok > 0.0 && lots[i].remSol > 0.0)
            && Priced(lots, Prices(lots))
  {
    var lots := Lots(sells, mint);
    ArrivalsPositive(sells, mint);
    SortSorts(Arrivals(sells, mint), TimeKey);
    forall i, j | 0 <= i < j < |lots| ensures lots[i].ts <= lots[j].ts {
      assert TimeKey(lots[i]) <= TimeKey(lots[j]);
    }
    forall i | 0 <= i < |lots| ensures lots[i].remTok > 0.0 && lots[i].remSol > 0.0 {
      assert lots[i] in multiset(lots) && lots[i] in multiset(Arrivals(sells, mint));
    }
    forall i | 0 <= i < |lots|
      ensures Prices(lots)[i] >= 0.0 && lots[i].remSol == Value(lots[i].remTok, Prices(lots)[i])
    {
      PriceIsRatio(lots[i]);
    }
  }

  lemma PriceIsRatio(lot: SellLot)
    requires lot.remTok > 0.0 && lot.remSol > 0.0
    ensures lot.remSol / lot.remTok >= 0.0 && lot.remSol == Value(lot.remTok, lot.remSol / lot.remTok)
  {
  }

  // ----- one mint on its own, and the projection of the whole run to it

  function AsksOf(ps: seq<Closed>, mint: string, windowSec: real): (r: seq<Ask>)
    requires forall p | p in ps :: HasResidual(p)
  {
    if ps == [] then []
    else
      var n := |ps| - 1;
      assert HasResidual(ps[n]);
      AsksOf(ps[..n], mint, windowSec) + (if ps[n].residualMint.value == mint then [AskOf(ps[n], windowSec)] else [])
  }

  /** The lots of a mint after its asks have been filled in turn. */
  function LotsAfter(lots: seq<SellLot>, asks: seq<Ask>, eps: real): (r: seq<SellLot>)
    requires eps >= 0.0
    ensures |r| == |lots|
  {
    if asks == [] then lots
    else FillAsk(LotsAfter(lots, asks[..|asks| - 1], eps), asks[|asks| - 1], eps).lots
  }

  function SoldOf(out: seq<RealizedResidual>, mint: string): real {
    if out == [] then 0.0
    else
      var n := |out| - 1;
      SoldOf(out[..n], mint) + (if out[n].mint == mint then out[n].soldAmount else 0.0)
  }

  function ProceedsOf(out: seq<RealizedResidual>, mint: string): real {
    if out == [] then 0.0
    else
      var n := |out| - 1;
      ProceedsOf(out[..n], mint) + (if out[n].mint == mint then out[n].soldProceeds else 0.0)
  }

  /** Positions of other mints leave a mint's ledger alone, so each mint evolves on its own. */
  lemma {:induction false} MintsAreIndependent(ledger: Ledger, ps: seq<Closed>, mint: string, windowSec: real,
                                               eps: real)
    requires eps >= 0.0 && forall p | p in ps :: HasResidual(p)
    ensures LotsIn(MatchAll(ledger, ps, windowSec, eps).0, mint)
            == LotsAfter(LotsIn(ledger, mint), AsksOf(ps, mint, windowSec), eps)
  {
    hide FillFrom;
    if ps != [] {
      var n := |ps| - 1;
      assert HasResidual(ps[n]);
      MintsAreIndependent(ledger, ps[..n], mint, windowSec, eps);
      var before := MatchAll(ledger, ps[..n], windowSec, eps).0;
      var asks := AsksOf(ps[..n], mint, windowSec);
      if ps[n].residualMint.value == mint {
        var ask := AskOf(ps[n], windowSec);
        assert AsksOf(ps, mint, windowSec) == asks + [ask];
        assert (asks + [ask])[..|asks|] == asks;
        if mint !in before { assert FillAsk(LotsIn(before, mint), ask, eps).lots == []; }
      } else {
        assert AsksOf(ps, mint, windowSec) == asks;
      }
    }
  }

  lemma {:induction false} AsksArePositive(ps: seq<Closed>, mint: string, windowSec: real)
    requires forall p | p in ps :: HasResidual(p)
    ensures forall i | 0 <= i < |AsksOf(ps, mint, windowSec)| :: AsksOf(ps, mint, windowSec)[i].need > 0.0
  {
    if ps != [] {
      assert HasResidual(ps[|ps| - 1]);
      AsksArePositive(ps[..|ps| - 1], mint, windowSec);
    }
  }

  lemma {:induction false} LotsStayPriced(lots: seq<SellLot>, asks: seq<Ask>, prices: seq<real>, eps: real)
    requires Priced(lots, prices) && eps >= 0.0 && forall i | 0 <= i < |asks| :: asks[i].need > 0.0
    ensures Priced(LotsAfter(lots, asks, eps), prices)
  {
    hide FillAsk, Value;
    if asks != [] {
      var n := |asks| - 1;
      LotsStayPriced(lots, asks[..n], prices, eps);
      FillConserves(LotsAfter(lots, asks[..n], eps), asks[n], prices, eps);
    }
  }

  /** What one report says about its own position. */
  ghost predicate ReportSound(p: Closed, r: RealizedResidual)
    requires HasResidual(p)
  {
    && r.positionAddress == p.positionAddress && r.mint == p.residualMint.value
    && r.soldAmount + r.heldAmount == p.residualAmount.value
    && 0.0 <= r.soldAmount && 0.0 <= r.heldAmount && 0.0 <= r.soldProceeds
    && 0.0 <= r.fillFraction <= 1.0 && r.fillFraction * p.residualAmount.value == r.soldAmount
    && (r.fillFraction == 1.0 <==> r.heldAmount == 0.0)
  }

  lemma ReportIsSound(p: Closed, f: Fill)
    requires HasResidual(p) && 0.0 <= f.soldAmount <= p.residualAmount.value && 0.0 <= f.soldProceeds
    ensures ReportSound(p, Report(p, f))
  {
    var amount := p.residualAmount.value;
    var x := f.soldAmount / amount;
    assert x * amount == f.soldAmount;
    assert x > 1.0 ==> x * amount > amount;
    assert x < 0.0 ==> x * amount < 0.0;
  }

  lemma LedgerHasLots(sells: seq<Sell>, mint: string)
    ensures LotsIn(LedgerOf(sells), mint) == Lots(sells, mint)
  {
    ArrivalsExist(sells, mint);
  }

  ghost function PricesOf(sells: seq<Sell>, mint: string): seq<real> {
    LotsAreSound(sells, mint);
    Prices(Lots(sells, mint))
  }

  /** The ledger of a mint just before the last position is still priced as its sells were. */
  lemma LedgerStaysPriced(sells: seq<Sell>, ps: seq<Closed>, mint: string, windowSec: real, eps: real)
    requires eps >= 0.0 && forall p | p in ps :: HasResidual(p)
    ensures Priced(LotsIn(MatchAll(LedgerOf(sells), ps, windowSec, eps).0, mint), PricesOf(sells, mint))
  {
    hide FillAsk, Value, Lots, LedgerOf, MatchAll, Prices;
    LotsAreSound(sells, mint);
    LedgerHasLots(sells, mint);
    MintsAreIndependent(LedgerOf(sells), ps, mint, windowSec, eps);
    AsksArePositive(ps, mint, windowSec);
    LotsStayPriced(Lots(sells, mint), AsksOf(ps, mint, windowSec), PricesOf(sells, mint), eps);
  }

  /** The last position's fill, and the account it keeps with the lots of its mint. */
  lemma LastFill(sells: seq<Sell>, ps: seq<Closed>, windowSec: real, eps: real) returns (f: Fill)
    requires eps >= 0.0 && ps != [] && forall p | p in ps :: HasResidual(p)
    ensures HasResidual(ps[|ps| - 1])
    ensures var n := |ps| - 1;
            var p := ps[n];
            var (before, out) := MatchAll(LedgerOf(sells), ps[..n], windowSec, eps);
            var lots := LotsIn(before, p.residualMint.value);
            && MatchAll(LedgerOf(sells), ps, windowSec, eps)
               == (Store(before, p.residualMint.value, f.lots), out + [Report(p, f)])
            && |f.lots| == |lots|
            && f.soldAmount == TokOf(lots) - TokOf(f.lots) && f.soldProceeds == SolOf(lots) - SolOf(f.lots)
            && ReportSound(p, Report(p, f))
  {
    hide Value, FillFrom, Lots, LedgerOf, Prices, Priced, ReportSound;
    var n := |ps| - 1;
    var p := ps[n];
    assert HasResidual(p);
    var before := MatchAll(LedgerOf(sells), ps[..n], windowSec, eps).0;
    var lots := LotsIn(before, p.residualMint.value);
    f := FillAsk(lots, AskOf(p, windowSec), eps);
    LedgerStaysPriced(sells, ps[..n], p.residualMint.value, windowSec, eps);
    FillConserves(lots, AskOf(p, windowSec), PricesOf(sells, p.residualMint.value), eps);
    ReportIsSound(p, f);
  }

  /** Every report accounts for its own residual. */
  lemma {:induction false} ReportsAreSound(sells: seq<Sell>, ps: seq<Closed>, windowSec: real, eps: real)
    requires eps >= 0.0 && forall p | p in ps :: HasResidual(p)
    ensures forall i | 0 <= i < |ps| ::
              HasResidual(ps[i]) && ReportSound(ps[i], MatchAll(LedgerOf(sells), ps, windowSec, eps).1[i])
  {
    hide ReportSound, FillAsk, LedgerOf;
    if ps != [] {
      var f := LastFill(sells, ps, windowSec, eps);
      ReportsAreSound(sells, ps[..|ps| - 1], windowSec, eps);
    }
  }

  lemma {:induction false} SoldLeavesLedger(sells: seq<Sell>, ps: seq<Closed>, mint: string, windowSec: real, eps: real)
    requires eps >= 0.0 && forall p | p in ps :: HasResidual(p)
    ensures var (ledger, out) := MatchAll(LedgerOf(sells), ps, windowSec, eps);
            var before, after := LotsIn(LedgerOf(sells), mint), LotsIn(ledger, mint);
            && SoldOf(out, mint) + TokOf(after) == TokOf(before)
            && ProceedsOf(out, mint) + SolOf(after) == SolOf(before)
  {
    hide ReportSound, FillAsk, LedgerOf, MatchAll;
    if ps == [] {
      assert MatchAll(LedgerOf(sells), ps, windowSec, eps) == (LedgerOf(sells), []) by {
        MatchNone(LedgerOf(sells), windowSec, eps);
      }
    } else {
      var n := |ps| - 1;
      var f := LastFill(sells, ps, windowSec, eps);
      SoldLeavesLedger(sells, ps[..n], mint, windowSec, eps);
      var (before, out) := MatchAll(LedgerOf(sells), ps[..n], windowSec, eps);
      assert (out + [Report(ps[n], f)])[..n] == out;
      if mint !in before { assert f.lots == [] || ps[n].residualMint.value != mint; }
    }
  }

  lemma MatchNone(ledger: Ledger, windowSec: real, eps: real)
    requires eps >= 0.0
    ensures MatchAll(ledger, [], windowSec, eps) == (ledger, [])
  {
  }

  /**
   * Sell-ledger conservation over the whole run, mint by mint: tokens sold plus tokens left are the
   * tokens of the sells, SOL booked plus SOL left is the SOL received, every lot keeps its price, and
   * what was booked is what was drawn from each lot at that lot's price.
   */
  lemma LedgerConserves(ps: seq<Closed>, sells: seq<Sell>, mint: string, windowSec: real, eps: real)
    requires eps >= 0.0
    ensures var (ledger, out) := MatchAll(LedgerOf(sells), CloseOrder(ps), windowSec, eps);
            var before, after := Lots(sells, mint), LotsIn(ledger, mint);
            && out == Reconstruct(ps, sells, windowSec, eps)
            && Priced(before, PricesOf(sells, mint)) && Priced(after, PricesOf(sells, mint))
            && SoldOf(out, mint) + TokOf(after) == TokOf(before)
            && ProceedsOf(out, mint) + SolOf(after) == SolOf(before)
            && ProceedsOf(out, mint) == DrawnValue(before, after, PricesOf(sells, mint))
  {
    hide FillAsk, Value, CloseOrder, MatchAll;
    LotsAreSound(sells, mint);
    LedgerHasLots(sells, mint);
    LedgerStaysPriced(sells, CloseOrder(ps), mint, windowSec, eps);
    SoldLeavesLedger(sells, CloseOrder(ps), mint, windowSec, eps);
    SolAtPrices(Lots(sells, mint), LotsIn(MatchAll(LedgerOf(sells), CloseOrder(ps), windowSec, eps).0, mint),
                PricesOf(sells, mint));
  }

  // ----- against the sells themselves

  function TokensSold(sells: seq<Sell>, mint: string): real {
    if sells == [] then 0.0
    else
      var n := |sells| - 1;
      var s := sells[n];
      TokensSold(sells[..n], mint)
      + (if mint != "" && s.mint == mint && s.tokenAmount > 0.0 && s.solReceived > 0.0 then s.tokenAmount else 0.0)
  }

  function SolReceived(sells: seq<Sell>, mint: string): real {
    if sells == [] then 0.0
    else
      var n := |sells| - 1;
      var s := sells[n];
      SolReceived(sells[..n], mint)
      + (if mint != "" && s.mint == mint && s.tokenAmount > 0.0 && s.solReceived > 0.0 then s.solReceived else 0.0)
  }

  lemma SumsAppend(lots: seq<SellLot>, lot: SellLot)
    ensures TokOf(lots + [lot]) == TokOf(lots) + lot.remTok && SolOf(lots + [lot]) == SolOf(lots) + lot.remSol
  {
    assert (lots + [lot])[..|lots|] == lots;
  }

  lemma {:induction false} InsertKeepsSums(lots: seq<SellLot>, lot: SellLot)
    ensures TokOf(Insert(lots, lot, TimeKey)) == TokOf(lots) + lot.remTok
    ensures SolOf(Insert(lots, lot, TimeKey)) == SolOf(lots) + lot.remSol
  {
    hide TokOf, SolOf;
    var n := |lots| - 1;
    if lots == [] || TimeKey(lots[n]) <= TimeKey(lot) {
      SumsAppend(lots, lot);
    } else {
      InsertKeepsSums(lots[..n], lot);
      SumsAppend(Insert(lots[..n], lot, TimeKey), lots[n]);
      SumsAppend(lots[..n], lots[n]);
      assert lots == lots[..n] + [lots[n]];
    }
  }

  lemma {:induction false} SortKeepsSums(lots: seq<SellLot>)
    ensures TokOf(Sort(lots, TimeKey)) == TokOf(lots) && SolOf(Sort(lots, TimeKey)) == SolOf(lots)
  {
    hide Insert;
    if lots != [] {
      var n := |lots| - 1;
      SortKeepsSums(lots[..n]);
      InsertKeepsSums(Sort(lots[..n], TimeKey), lots[n]);
    }
  }

  lemma {:induction false} ArrivalsSums(sells: seq<Sell>, mint: string)
    ensures TokOf(Arrivals(sells, mint)) == TokensSold(sells, mint)
    ensures SolOf(Arrivals(sells, mint)) == SolReceived(sells, mint)
  {
    if sells == [] {
      assert Arrivals(sells, mint) == [];
    } else {
      var n := |sells| - 1;
      ArrivalsSums(sells[..n], mint);
      var s, lots := sells[n], Arrivals(sells[..n], mint);
      var lot := SellLot(s.ts, s.tokenAmount, s.solReceived);
      SumsAppend(lots, lot);
      hide TokOf, SolOf;
      var counts := Counts(s) && s.mint == mint;
      assert counts <==> mint != "" && s.mint == mint && s.tokenAmount > 0.0 && s.solReceived > 0.0;
      hide Counts;
      assert Arrivals(sells, mint) == if counts then lots + [lot] else lots;
    }
  }

  lemma {:induction false} PricedSums(lots: seq<SellLot>, prices: seq<real>)
    requires Priced(lots, prices)
    ensures TokOf(lots) >= 0.0 && SolOf(lots) >= 0.0
  {
    if lots != [] {
      var n := |lots| - 1;
      PricedSums(lots[..n], prices[..n]);
      assert lots[n].remTok * prices[n] >= 0.0;
    }
  }

  /** No double counting: a mint's positions never book more tokens or SOL than its sells brought. */
  lemma NeverMoreThanReceived(ps: seq<Closed>, sells: seq<Sell>, mint: string, windowSec: real, eps: real)
    requires eps >= 0.0
    ensures var out := Reconstruct(ps, sells, windowSec, eps);
            var (ledger, _) := MatchAll(LedgerOf(sells), CloseOrder(ps), windowSec, eps);
            && SoldOf(out, mint) + TokOf(LotsIn(ledger, mint)) == TokensSold(sells, mint)
            && ProceedsOf(out, mint) + SolOf(LotsIn(ledger, mint)) == SolReceived(sells, mint)
            && SoldOf(out, mint) <= TokensSold(sells, mint) && ProceedsOf(out, mint) <= SolReceived(sells, mint)
  {
    LedgerConserves(ps, sells, mint, windowSec, eps);
    ArrivalsSums(sells, mint);
    SortKeepsSums(Arrivals(sells, mint));
    hide Priced, MatchAll, CloseOrder, LedgerOf, Arrivals, Sort, TokOf, SolOf, SoldOf, ProceedsOf, DrawnValue, Value;
    PricedSums(LotsIn(MatchAll(LedgerOf(sells), CloseOrder(ps), windowSec, eps).0, mint), PricesOf(sells, mint));
  }
}
