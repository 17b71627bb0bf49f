/**
 * Exact arithmetic (`eps` = 0): what a consumption takes, token by token, and the independence of the
 * books from the way a sell or a deposit is cut into adjacent clips.
 */
module FifoSplit {
  import opened Options
  import opened Fifo
  import opened FifoConservation

  ghost predicate Positive(lots: seq<Lot>) {
    forall l | l in lots :: l.qty > 0.0
  }

  // ----- the two ways a consumption meets the oldest lot

  lemma ConsumeWhole(inv: seq<Lot>, need: real)
    requires Positive(inv) && inv != [] && need >= inv[0].qty
    ensures Consume(inv, need, 0.0)
            == Taking(Clip(inv[0].costPerUnit, inv[0].origin, inv[0].qty), Worth(inv[0].qty, inv[0].costPerUnit),
                      Consume(inv[1..], need - inv[0].qty, 0.0))
  {
    hide Worth;
    assert inv[0] in inv;
  }

  lemma ConsumePart(inv: seq<Lot>, need: real)
    requires inv != [] && 0.0 < need < inv[0].qty
    ensures Consume(inv, need, 0.0)
            == Draw(Worth(need, inv[0].costPerUnit), need, [Clip(inv[0].costPerUnit, inv[0].origin, need)], 0.0,
                    [inv[0].(qty := inv[0].qty - need)] + inv[1..])
  {
    hide Worth;
  }

  // ----- first in, first out

  /** The price and origin of the token at offset `t` from the front of the inventory. */
  ghost function TokenAt(lots: seq<Lot>, t: real): Option<(real, Option<Address>)> {
    if lots == [] then None
    else if t < lots[0].qty then Some((lots[0].costPerUnit, lots[0].origin))
    else TokenAt(lots[1..], t - lots[0].qty)
  }

  ghost function ClipTokenAt(clips: seq<Clip>, t: real): Option<(real, Option<Address>)> {
    if clips == [] then None
    else if t < clips[0].take then Some((clips[0].costPerUnit, clips[0].origin))
    else ClipTokenAt(clips[1..], t - clips[0].take)
  }

  lemma {:induction false} QtyNonNegative(lots: seq<Lot>)
    requires Positive(lots)
    ensures QtyOf(lots) >= 0.0 && (lots != [] ==> QtyOf(lots) > 0.0)
  {
    if lots != [] { QtyNonNegative(lots[1..]); }
  }

  /** As much as asked is taken while stock lasts, and exactly that much leaves the inventory. */
  lemma {:induction false} ConsumeTakesAll(inv: seq<Lot>, need: real)
    requires Positive(inv) && need >= 0.0
    ensures var d := Consume(inv, need, 0.0);
            && d.taken == Min(need, QtyOf(inv)) && QtyOf(d.left) == QtyOf(inv) - d.taken && Positive(d.left)
    decreases |inv|, need > 0.0
  {
    QtyNonNegative(inv);
    if need > 0.0 && inv != [] {
      var take := Min(need, inv[0].qty);
      var inv' := AfterTake(inv, take, 0.0);
      assert take < inv[0].qty ==> inv'[1..] == inv[1..];
      ConsumeTakesAll(inv', need - take);
      QtyNonNegative(inv[1..]);
    }
  }

  /** The clips are the oldest tokens, in order. */
  lemma {:induction false} ClipsAreOldest(inv: seq<Lot>, need: real, t: real)
    requires Positive(inv) && 0.0 <= t < Consume(inv, need, 0.0).taken
    ensures ClipTokenAt(Consume(inv, need, 0.0).perLot, t) == TokenAt(inv, t)
    decreases |inv|
  {
    hide Worth;
    if need > 0.0 && inv != [] {
      if need < inv[0].qty {
        ConsumePart(inv, need);
      } else {
        ConsumeWhole(inv, need);
        assert Consume(inv, need, 0.0).perLot[1..] == Consume(inv[1..], need - inv[0].qty, 0.0).perLot;
        if t >= inv[0].qty { ClipsAreOldest(inv[1..], need - inv[0].qty, t - inv[0].qty); }
      }
    }
  }

  /** The inventory keeps the younger tokens, in order. */
  lemma {:induction false} RestIsYoungest(inv: seq<Lot>, need: real, t: real)
    requires Positive(inv) && need >= 0.0 && t >= 0.0
    ensures var d := Consume(inv, need, 0.0); TokenAt(d.left, t) == TokenAt(inv, d.taken + t)
    decreases |inv|
  {
    hide Worth;
    if need > 0.0 && inv != [] {
      var d := Consume(inv, need, 0.0);
      if need < inv[0].qty {
        ConsumePart(inv, need);
        assert d.left[1..] == inv[1..];
        assert t - (inv[0].qty - need) == need + t - inv[0].qty;
      } else {
        ConsumeWhole(inv, need);
        ConsumeTakesAll(inv[1..], need - inv[0].qty);
        QtyNonNegative(inv[1..]);
        RestIsYoungest(inv[1..], need - inv[0].qty, t);
        assert d.taken + t - inv[0].qty == Consume(inv[1..], need - inv[0].qty, 0.0).taken + t;
      }
    }
  }

  // ----- routing at a unit price

  ghost function GainAt(c: Clip, price: real): real {
    Worth(c.take, price) - Worth(c.take, c.costPerUnit)
  }

  ghost function RouteAt(b: Books, clips: seq<Clip>, price: real): Books
    decreases |clips|
  {
    if clips == [] then b
    else RouteAt(AddGain(b, clips[0].origin, GainAt(clips[0], price)), clips[1..], price)
  }

  lemma ShareIsAtPrice(sol: real, taken: real, shortfall: real, take: real)
    requires taken > 0.0 && taken + shortfall > 0.0
    ensures Share(BackedProceeds(sol, taken, shortfall), take, taken) == Worth(take, UnitPrice(sol, taken + shortfall))
  {
    var qty := taken + shortfall;
    var price := sol / qty;
    var ratio := take / taken;
    assert price * qty == sol && ratio * taken == take;
    assert sol * (taken / qty) == price * taken;
    assert price * taken * ratio == price * (ratio * taken);
  }

  lemma {:induction false} RouteIsAtPrice(b: Books, clips: seq<Clip>, sol: real, taken: real, shortfall: real)
    requires taken > 0.0 && taken + shortfall > 0.0
    ensures RouteGains(b, clips, BackedProceeds(sol, taken, shortfall), taken)
            == RouteAt(b, clips, UnitPrice(sol, taken + shortfall))
    decreases |clips|
  {
    hide Worth, UnitPrice, BackedProceeds, Share, AddGain;
    if clips != [] {
      ShareIsAtPrice(sol, taken, shortfall, clips[0].take);
      RouteIsAtPrice(AddGain(b, clips[0].origin, GainAt(clips[0], UnitPrice(sol, taken + shortfall))),
                     clips[1..], sol, taken, shortfall);
    }
  }

  lemma NothingTaken(inv: seq<Lot>, need: real)
    requires Positive(inv) && need >= 0.0
    ensures var d := Consume(inv, need, 0.0); d.taken <= 0.0 ==> d.perLot == [] && d.cost == 0.0 && d.left == inv
  {
    hide Worth;
    if need > 0.0 && inv != [] {
      var take := Min(need, inv[0].qty);
      ConsumeTakesAll(AfterTake(inv, take, 0.0), need - take);
      QtyNonNegative(AfterTake(inv, take, 0.0));
    }
  }

  /** A sell books every consumed token at the price of the whole sell, even when stock runs short. */
  lemma SellIsAtPrice(w: Wallet, qty: real, sol: real)
    requires Positive(w.inv) && qty > 0.0 && sol > 0.0
    ensures var d := Consume(w.inv, qty, 0.0);
            Apply(w, Sell(qty, sol), 0.0) == Wallet(d.left, RouteAt(w.books, d.perLot, UnitPrice(sol, qty)))
  {
    hide UnitPrice, BackedProceeds;
    var d := Consume(w.inv, qty, 0.0);
    NothingTaken(w.inv, qty);
    if d.taken > 0.0 { RouteIsAtPrice(w.books, d.perLot, sol, d.taken, d.shortfall); }
  }

  lemma DepositIsConsume(w: Wallet, pos: Address, qty: real, sol: real)
    requires qty >= 0.0
    ensures var d := Consume(w.inv, qty, 0.0);
            Apply(w, Deposit(pos, qty, sol), 0.0)
            == Wallet(d.left, Put(w.books, pos, AfterDeposit(AccOf(w.books, pos), sol, d.cost, d.taken)))
  {
  }

  // ----- splitting one consumption in two

  lemma GainMerges(b: Books, origin: Option<Address>, g1: real, g2: real)
    ensures AddGain(AddGain(b, origin, g1), origin, g2) == AddGain(b, origin, g1 + g2)
  {
    if HasPosition(origin) {
      var b1 := AddGain(b, origin, g1);
      assert AddGain(b1, origin, g2).acc == AddGain(b, origin, g1 + g2).acc;
    }
  }

  lemma ClipMerges(b: Books, price: real, cost: real, origin: Option<Address>, x: real, y: real)
    ensures AddGain(AddGain(b, origin, GainAt(Clip(cost, origin, x), price)), origin,
                    GainAt(Clip(cost, origin, y), price))
            == AddGain(b, origin, GainAt(Clip(cost, origin, x + y), price))
  {
    hide Worth, AddGain;
    WorthAdds(x, y, price);
    WorthAdds(x, y, cost);
    GainMerges(b, origin, GainAt(Clip(cost, origin, x), price), GainAt(Clip(cost, origin, y), price));
  }

  ghost predicate SplitAgrees(inv: seq<Lot>, x: real, y: real, b: Books, price: real) {
    var d := Consume(inv, x + y, 0.0);
    var d1 := Consume(inv, x, 0.0);
    var d2 := Consume(d1.left, y, 0.0);
    && d.left == d2.left
    && d.cost == d1.cost + d2.cost
    && d.taken == d1.taken + d2.taken
    && RouteAt(b, d.perLot, price) == RouteAt(RouteAt(b, d1.perLot, price), d2.perLot, price)
  }

  /** Taking x and then y leaves the same lots, costs the same and routes the same as taking x + y. */
  lemma {:induction false} ConsumeSplits(inv: seq<Lot>, x: real, y: real, b: Books, price: real)
    requires Positive(inv) && x >= 0.0 && y >= 0.0
    ensures SplitAgrees(inv, x, y, b, price)
    decreases |inv|
  {
    if inv == [] || x == 0.0 {
      SplitAtOnce(inv, x, y, b, price);
    } else if x >= inv[0].qty {
      var b' := AddGain(b, inv[0].origin, GainAt(Clip(inv[0].costPerUnit, inv[0].origin, inv[0].qty), price));
      ConsumeSplits(inv[1..], x - inv[0].qty, y, b', price);
      SplitPastLot(inv, x, y, b, price);
    } else if y > 0.0 {
      SplitInsideLot(inv, x, y, b, price);
    } else {
      SplitAtEnd(inv, x, b, price);
    }
  }

  lemma SplitAtOnce(inv: seq<Lot>, x: real, y: real, b: Books, price: real)
    requires (inv == [] || x == 0.0) && x >= 0.0 && y >= 0.0
    ensures SplitAgrees(inv, x, y, b, price)
  {
    hide Worth, AddGain, GainAt;
  }

  lemma SplitAtEnd(inv: seq<Lot>, x: real, b: Books, price: real)
    requires inv != [] && 0.0 < x < inv[0].qty
    ensures SplitAgrees(inv, x, 0.0, b, price)
  {
    hide Worth, AddGain, GainAt;
    ConsumePart(inv, x);
  }

  lemma SplitPastLot(inv: seq<Lot>, x: real, y: real, b: Books, price: real)
    requires Positive(inv) && inv != [] && x >= inv[0].qty && y >= 0.0
    requires var b' := AddGain(b, inv[0].origin, GainAt(Clip(inv[0].costPerUnit, inv[0].origin, inv[0].qty), price));
             SplitAgrees(inv[1..], x - inv[0].qty, y, b', price)
    ensures SplitAgrees(inv, x, y, b, price)
  {
    hide Worth, AddGain, GainAt, Consume;
    ConsumeWhole(inv, x);
    ConsumeWhole(inv, x + y);
    assert x + y - inv[0].qty == x - inv[0].qty + y;
  }

  lemma RouteOne(b: Books, c: Clip, price: real)
    ensures RouteAt(b, [c], price) == AddGain(b, c.origin, GainAt(c, price))
  {
    hide AddGain, GainAt;
    assert [c][1..] == [];
  }

  lemma SplitInsideLot(inv: seq<Lot>, x: real, y: real, b: Books, price: real)
    requires Positive(inv) && inv != [] && 0.0 < x < inv[0].qty && y > 0.0
    ensures SplitAgrees(inv, x, y, b, price)
  {
    hide Worth, AddGain, GainAt, Consume;
    var lot := inv[0];
    var rest := lot.qty - x;
    var left := [lot.(qty := rest)] + inv[1..];
    assert left[1..] == inv[1..];
    var z := if y >= rest then rest else y;
    var c1, c2 := Clip(lot.costPerUnit, lot.origin, x), Clip(lot.costPerUnit, lot.origin, z);
    ConsumePart(inv, x);
    ClipMerges(b, price, lot.costPerUnit, lot.origin, x, z);
    WorthAdds(x, z, lot.costPerUnit);
    RouteOne(b, c1, price);
    if y >= rest {
      ConsumeWhole(left, y);
      ConsumeWhole(inv, x + y);
      assert x + y - lot.qty == y - rest;
      assert x + rest == lot.qty;
    } else {
      ConsumePart(left, y);
      ConsumePart(inv, x + y);
      RouteOne(b, Clip(lot.costPerUnit, lot.origin, x + y), price);
      RouteOne(AddGain(b, lot.origin, GainAt(c1, price)), c2, price);
      assert rest - y == lot.qty - (x + y);
    }
  }

  // ----- splitting sells and deposits

  /** Two adjacent sells at one price leave the wallet exactly as the single sell of both amounts. */
  lemma SellSplits(w: Wallet, x: real, y: real, price: real)
    requires Positive(w.inv) && x > 0.0 && y > 0.0 && price > 0.0
    ensures Worth(x, price) > 0.0 && Worth(y, price) > 0.0 && Worth(x + y, price) > 0.0
    ensures Apply(Apply(w, Sell(x, Worth(x, price)), 0.0), Sell(y, Worth(y, price)), 0.0)
            == Apply(w, Sell(x + y, Worth(x + y, price)), 0.0)
  {
    PriceOfWorth(x, price);
    PriceOfWorth(y, price);
    PriceOfWorth(x + y, price);
    hide Worth, UnitPrice, Apply;
    SellIsAtPrice(w, x, Worth(x, price));
    SellIsAtPrice(w, x + y, Worth(x + y, price));
    ConsumeTakesAll(w.inv, x);
    SellIsAtPrice(Apply(w, Sell(x, Worth(x, price)), 0.0), y, Worth(y, price));
    ConsumeSplits(w.inv, x, y, w.books, price);
  }

  lemma PriceOfWorth(qty: real, price: real)
    requires qty > 0.0 && price > 0.0
    ensures Worth(qty, price) > 0.0 && UnitPrice(Worth(qty, price), qty) == price
  {
  }

  /** Two adjacent deposits into one position equal the single deposit, whatever their SOL sides. */
  lemma DepositSplits(w: Wallet, pos: Address, x: real, y: real, solX: real, solY: real)
    requires Positive(w.inv) && x >= 0.0 && y >= 0.0
    ensures Apply(Apply(w, Deposit(pos, x, solX), 0.0), Deposit(pos, y, solY), 0.0)
            == Apply(w, Deposit(pos, x + y, solX + solY), 0.0)
  {
    hide Worth, Apply, Put, AccOf, AfterDeposit, Consume;
    DepositIsConsume(w, pos, x, solX);
    DepositIsConsume(w, pos, x + y, solX + solY);
    var w1 := Apply(w, Deposit(pos, x, solX), 0.0);
    DepositIsConsume(w1, pos, y, solY);
    ConsumeSplits(w.inv, x, y, w.books, 0.0);
    var a := AccOf(w.books, pos);
    var d1 := Consume(w.inv, x, 0.0);
    var d2 := Consume(d1.left, y, 0.0);
    DepositsAdd(a, solX, solY, d1.cost, d2.cost, d1.taken, d2.taken);
    PutTwice(w.books, pos, AfterDeposit(a, solX, d1.cost, d1.taken),
             AfterDeposit(a, solX + solY, d1.cost + d2.cost, d1.taken + d2.taken));
  }

  lemma PutTwice(b: Books, pos: Address, a: Acc, a': Acc)
    ensures AccOf(Put(b, pos, a), pos) == a && Put(Put(b, pos, a), pos, a') == Put(b, pos, a')
  {
    assert Put(Put(b, pos, a), pos, a').acc == Put(b, pos, a').acc;
  }

  lemma DepositsAdd(a: Acc, s1: real, s2: real, c1: real, c2: real, t1: real, t2: real)
    ensures AfterDeposit(AfterDeposit(a, s1, c1, t1), s2, c2, t2) == AfterDeposit(a, s1 + s2, c1 + c2, t1 + t2)
  {
  }

  predicate AllPositive(xs: seq<real>) {
    forall i | 0 <= i < |xs| :: xs[i] > 0.0
  }

  function Sum(xs: seq<real>): real {
    if xs == [] then 0.0 else Sum(xs[..|xs| - 1]) + xs[|xs| - 1]
  }

  lemma {:induction false} SumPositive(xs: seq<real>)
    requires xs != [] && AllPositive(xs)
    ensures Sum(xs) > 0.0
  {
    var n := |xs| - 1;
    if n > 0 { SumPositive(xs[..n]); }
  }

  function SellClips(qtys: seq<real>, price: real): (evs: seq<Event>)
    requires price > 0.0 && AllPositive(qtys)
    ensures ValidTimeline(evs) && |evs| == |qtys|
  {
    if qtys == [] then []
    else
      var n := |qtys| - 1;
      assert qtys[n] * price > 0.0;
      SellClips(qtys[..n], price) + [Sell(qtys[n], Worth(qtys[n], price))]
  }

  /** The last clip, and the walk up to it. */
  lemma LastClip(w: Wallet, qtys: seq<real>, price: real)
    requires price > 0.0 && qtys != [] && AllPositive(qtys)
    ensures var n := |qtys| - 1;
            var last := Sell(qtys[n], Worth(qtys[n], price));
            && ValidEvent(last) && Sum(qtys) == Sum(qtys[..n]) + qtys[n] && (n == 0 ==> Sum(qtys[..n]) == 0.0)
            && Walk(w, SellClips(qtys, price), 0.0) == Apply(Walk(w, SellClips(qtys[..n], price), 0.0), last, 0.0)
            && (n == 0 ==> Walk(w, SellClips(qtys[..n], price), 0.0) == w)
  {
    hide Apply;
    var n := |qtys| - 1;
    var evs := SellClips(qtys, price);
    assert evs[..n] == SellClips(qtys[..n], price) && evs[n] == Sell(qtys[n], Worth(qtys[n], price));
    assert ValidEvent(evs[n]);
  }

  /**
   * Split invariance: selling in any number of adjacent clips at one price gives the same gain per
   * origin, the same trading PnL, the same accumulators and the same inventory as selling at once.
   */
  lemma {:induction false} SplitInvariance(w: Wallet, qtys: seq<real>, price: real)
    requires Positive(w.inv) && price > 0.0 && qtys != [] && AllPositive(qtys)
    ensures Sum(qtys) > 0.0 && Worth(Sum(qtys), price) > 0.0
    ensures Walk(w, SellClips(qtys, price), 0.0) == Apply(w, Sell(Sum(qtys), Worth(Sum(qtys), price)), 0.0)
  {
    hide Worth, Apply, Walk, Sum, SellClips, Positive;
    SumPositive(qtys);
    PriceOfWorth(Sum(qtys), price);
    LastClip(w, qtys, price);
    var n := |qtys| - 1;
    if n > 0 {
      SplitInvariance(w, qtys[..n], price);
      SellSplits(w, Sum(qtys[..n]), qtys[n], price);
    }
  }

  // ----- and in the middle of any timeline

  lemma {:induction false} WalkAppends(w: Wallet, xs: seq<Event>, ys: seq<Event>, eps: real)
    requires eps >= 0.0 && ValidTimeline(xs) && ValidTimeline(ys)
    ensures ValidTimeline(xs + ys)
    ensures Walk(w, xs + ys, eps) == Walk(Walk(w, xs, eps), ys, eps)
  {
    hide Apply;
    if ys == [] {
      assert xs + ys == xs;
    } else {
      var n := |ys| - 1;
      WalkAppends(w, xs, ys[..n], eps);
      assert (xs + ys)[..|xs + ys| - 1] == xs + ys[..n];
      assert (xs + ys)[|xs + ys| - 1] == ys[n];
    }
  }

  /** Replacing a stretch of events by one that leads to the same state changes nothing later. */
  lemma SameMiddle(w0: Wallet, before: seq<Event>, mid: seq<Event>, mid': seq<Event>, after: seq<Event>)
    requires ValidTimeline(before) && ValidTimeline(mid) && ValidTimeline(mid') && ValidTimeline(after)
    requires var w := Walk(w0, before, 0.0); Walk(w, mid, 0.0) == Walk(w, mid', 0.0)
    ensures ValidTimeline(before + mid + after) && ValidTimeline(before + mid' + after)
    ensures Walk(w0, before + mid + after, 0.0) == Walk(w0, before + mid' + after, 0.0)
  {
    hide Walk;
    WalkAppends(w0, before, mid, 0.0);
    WalkAppends(w0, before, mid', 0.0);
    WalkAppends(w0, before + mid, after, 0.0);
    WalkAppends(w0, before + mid', after, 0.0);
  }

  lemma WalkOne(w: Wallet, e: Event)
    requires ValidEvent(e)
    ensures ValidTimeline([e]) && Walk(w, [e], 0.0) == Apply(w, e, 0.0)
  {
    hide Apply;
    assert [e][..0] == [] && Walk(w, [], 0.0) == w;
  }

  lemma {:induction false} ConsumeStaysPositive(inv: seq<Lot>, need: real, eps: real)
    requires eps >= 0.0 && Positive(inv)
    ensures Positive(Consume(inv, need, eps).left)
    decreases |inv|, need > eps
  {
    hide Worth;
    if need > eps && inv != [] {
      var take := Min(need, inv[0].qty);
      ConsumeStaysPositive(AfterTake(inv, take, eps), need - take, eps);
    }
  }

  /** No lot of any inventory is ever empty, whatever books the walk starts on. */
  lemma {:induction false} WalkStaysPositive(w: Wallet, evs: seq<Event>, eps: real)
    requires eps >= 0.0 && ValidTimeline(evs) && Positive(w.inv)
    ensures Positive(Walk(w, evs, eps).inv)
  {
    hide Consume, RouteGains, BackedProceeds, UnitPrice, Worth;
    if evs != [] {
      var n := |evs| - 1;
      assert ValidEvent(evs[n]);
      WalkStaysPositive(w, evs[..n], eps);
      ConsumeStaysPositive(Walk(w, evs[..n], eps).inv, evs[n].qty, eps);
    }
  }

  /** Whatever came before and comes after, and on whatever books, a sell may be cut into adjacent clips. */
  lemma ClipsInTimeline(w0: Wallet, before: seq<Event>, qtys: seq<real>, price: real, after: seq<Event>)
    requires Positive(w0.inv) && ValidTimeline(before) && ValidTimeline(after)
    requires price > 0.0 && qtys != [] && AllPositive(qtys)
    ensures var sell := Sell(Sum(qtys), Worth(Sum(qtys), price));
            && ValidTimeline(before + SellClips(qtys, price) + after) && ValidTimeline(before + [sell] + after)
            && Walk(w0, before + SellClips(qtys, price) + after, 0.0) == Walk(w0, before + [sell] + after, 0.0)
  {
    hide Walk, Worth, Sum;
    WalkStaysPositive(w0, before, 0.0);
    var w := Walk(w0, before, 0.0);
    var sell := Sell(Sum(qtys), Worth(Sum(qtys), price));
    SplitInvariance(w, qtys, price);
    WalkOne(w, sell);
    SameMiddle(w0, before, SellClips(qtys, price), [sell], after);
  }

  /** The same for a deposit, whatever the SOL sides of its clips. */
  lemma DepositsInTimeline(w0: Wallet, before: seq<Event>, pos: Address, x: real, y: real, solX: real, solY: real,
                           after: seq<Event>)
    requires Positive(w0.inv) && ValidTimeline(before) && ValidTimeline(after) && x >= 0.0 && y >= 0.0
    ensures var clips, whole := [Deposit(pos, x, solX), Deposit(pos, y, solY)], [Deposit(pos, x + y, solX + solY)];
            && ValidTimeline(before + clips + after) && ValidTimeline(before + whole + after)
            && Walk(w0, before + clips + after, 0.0) == Walk(w0, before + whole + after, 0.0)
  {
    hide Walk;
    WalkStaysPositive(w0, before, 0.0);
    var w := Walk(w0, before, 0.0);
    var d1, d2 := Deposit(pos, x, solX), Deposit(pos, y, solY);
    DepositSplits(w, pos, x, y, solX, solY);
    hide Apply;
    WalkOne(w, d1);
    WalkOne(Apply(w, d1, 0.0), d2);
    WalkOne(w, Deposit(pos, x + y, solX + solY));
    WalkAppends(w, [d1], [d2], 0.0);
    assert [d1] + [d2] == [d1, d2];
    SameMiddle(w0, before, [d1, d2], [Deposit(pos, x + y, solX + solY)], after);
  }
}
