/**
 * The chained FIFO cost-basis walk of `RealizedPnlEngine`: one inventory of lots per mint, and
 * accumulators per position that are shared by all mints. `eps` is the engine's dust threshold.
 */
module Fifo {
  import opened Options

  type Address = string

  /** One event on a mint's timeline. Buys and sells carry no position, liquidity legs always do. */
  datatype Event =
    | Buy(qty: real, sol: real)
    | Claim(pos: Address, qty: real, sol: real)
    | Withdraw(pos: Address, qty: real, sol: real)
    | Deposit(pos: Address, qty: real, sol: real)
    | Sell(qty: real, sol: real)

  datatype Lot = Lot(qty: real, costPerUnit: real, origin: Option<Address>)

  /** A part of one lot taken out of the inventory. */
  datatype Clip = Clip(costPerUnit: real, origin: Option<Address>, take: real)

  datatype Acc = Acc(solLeg: real, entryCost: real, exitCredit: real, realizedGain: real,
                     heldValue: real, inQty: real, inCost: real)

  const NEW_ACC := Acc(0.0, 0.0, 0.0, 0.0, 0.0, 0.0, 0.0)

  /** What the walk books: the position accumulators and the pure trading result. */
  datatype Books = Books(acc: map<Address, Acc>, tradingPnL: real)

  datatype Wallet = Wallet(inv: seq<Lot>, books: Books)

  const EMPTY_BOOKS := Books(map[], 0.0)

  /** Timelines only hold swaps with positive amounts and legs with non-negative token amounts. */
  predicate ValidEvent(e: Event) {
    e.qty >= 0.0 && (e.Buy? || e.Sell? ==> e.qty > 0.0 && e.sol > 0.0)
  }

  predicate ValidTimeline(evs: seq<Event>) {
    forall e | e in evs :: ValidEvent(e)
  }

  function AccOf(b: Books, pos: Address): Acc {
    if pos in b.acc then b.acc[pos] else NEW_ACC
  }

  function Put(b: Books, pos: Address, a: Acc): Books {
    b.(acc := b.acc[pos := a])
  }

  /** The SOL worth of `qty` tokens at a unit price. */
  function Worth(qty: real, price: real): real { qty * price }

  function UnitPrice(sol: real, qty: real): real
    requires qty > 0.0
  {
    sol / qty
  }

  function Min(x: real, y: real): real { if x <= y then x else y }

  // ----- taking tokens out of the inventory, oldest lot first

  datatype Draw = Draw(cost: real, taken: real, perLot: seq<Clip>, shortfall: real, left: seq<Lot>)

  /** What is left of the inventory once `take` tokens of its first lot are gone: dust is dropped. */
  function AfterTake(inv: seq<Lot>, take: real, eps: real): seq<Lot>
    requires inv != []
  {
    var lot := inv[0];
    if lot.qty - take <= eps then inv[1..] else [lot.(qty := lot.qty - take)] + inv[1..]
  }

  function Taking(clip: Clip, paid: real, rest: Draw): Draw {
    Draw(paid + rest.cost, clip.take + rest.taken, [clip] + rest.perLot, rest.shortfall, rest.left)
  }

  function Consume(inv: seq<Lot>, need: real, eps: real): (d: Draw)
    requires eps >= 0.0
    ensures d.taken + d.shortfall == need
    decreases |inv|, need > eps
  {
    if need <= eps || inv == [] then Draw(0.0, 0.0, [], need, inv)
    else
      var lot := inv[0];
      var take := Min(need, lot.qty);
      Taking(Clip(lot.costPerUnit, lot.origin, take), Worth(take, lot.costPerUnit),
             Consume(AfterTake(inv, take, eps), need - take, eps))
  }

  /** A consumption that continues what is already on the account. */
  ghost function After(cost: real, taken: real, perLot: seq<Clip>, rest: Draw): Draw {
    Draw(cost + rest.cost, taken + rest.taken, perLot + rest.perLot, rest.shortfall, rest.left)
  }

  lemma AfterTaking(cost: real, taken: real, perLot: seq<Clip>, inv: seq<Lot>, need: real, eps: real)
    requires eps >= 0.0 && need > eps && inv != []
    ensures var take := Min(need, inv[0].qty);
            var clip := Clip(inv[0].costPerUnit, inv[0].origin, take);
            After(cost, taken, perLot, Consume(inv, need, eps))
            == After(cost + Worth(take, inv[0].costPerUnit), taken + take, perLot + [clip],
                     Consume(AfterTake(inv, take, eps), need - take, eps))
  {
    hide Worth;
    var take := Min(need, inv[0].qty);
    var clip := Clip(inv[0].costPerUnit, inv[0].origin, take);
    var rest := Consume(AfterTake(inv, take, eps), need - take, eps);
    assert perLot + ([clip] + rest.perLot) == perLot + [clip] + rest.perLot;
  }

  lemma AfterStops(cost: real, taken: real, perLot: seq<Clip>, inv: seq<Lot>, need: real, eps: real)
    requires eps >= 0.0 && (need <= eps || inv == [])
    ensures After(cost, taken, perLot, Consume(inv, need, eps)) == Draw(cost, taken, perLot, need, inv)
  {
  }

  lemma AfterNothing(d: Draw)
    ensures After(0.0, 0.0, [], d) == d
  {
  }

  /** The part of a sell's SOL that stands for tokens found in the inventory. */
  function BackedProceeds(sol: real, taken: real, shortfall: real): real
    requires taken + shortfall > 0.0
  {
    sol * (taken / (taken + shortfall))
  }

  /** Neither the missing origin of a buy nor an empty address names a position. */
  predicate HasPosition(origin: Option<Address>) {
    origin.Some? && origin.value != ""
  }

  function AddGain(b: Books, origin: Option<Address>, gain: real): Books {
    if HasPosition(origin) then
      var a := AccOf(b, origin.value);
      Put(b, origin.value, a.(realizedGain := a.realizedGain + gain))
    else
      b.(tradingPnL := b.tradingPnL + gain)
  }

  function Share(proceeds: real, take: real, taken: real): real
    requires taken > 0.0
  {
    proceeds * (take / taken)
  }

  /** Split the proceeds of a sell over the clips it consumed and book each gain at the lot's origin. */
  function RouteGains(b: Books, clips: seq<Clip>, proceeds: real, taken: real): Books
    requires taken > 0.0
    decreases |clips|
  {
    if clips == [] then b
    else
      var c := clips[0];
      var gain := Share(proceeds, c.take, taken) - Worth(c.take, c.costPerUnit);
      RouteGains(AddGain(b, c.origin, gain), clips[1..], proceeds, taken)
  }

  // ----- one event, and a whole timeline

  /** The price at which withdrawn tokens re-enter the inventory. */
  function ExitPrice(a: Acc, eps: real): real
    requires eps >= 0.0
  {
    if a.inQty > eps then UnitPrice(a.inCost, a.inQty) else 0.0
  }

  function AfterWithdraw(a: Acc, sol: real, credit: real): Acc {
    a.(solLeg := a.solLeg + sol, exitCredit := a.exitCredit + credit)
  }

  function AfterDeposit(a: Acc, sol: real, cost: real, taken: real): Acc {
    a.(solLeg := a.solLeg - sol, entryCost := a.entryCost + cost,
       inQty := a.inQty + taken, inCost := a.inCost + cost)
  }

  function Apply(w: Wallet, e: Event, eps: real): Wallet
    requires eps >= 0.0 && ValidEvent(e)
  {
    match e
    case Buy(qty, sol) => w.(inv := w.inv + [Lot(qty, UnitPrice(sol, qty), None)])
    case Claim(pos, qty, sol) =>
      var a := AccOf(w.books, pos);
      Wallet(if qty > eps then w.inv + [Lot(qty, 0.0, Some(pos))] else w.inv,
             Put(w.books, pos, a.(solLeg := a.solLeg + sol)))
    case Withdraw(pos, qty, sol) =>
      var a := AccOf(w.books, pos);
      if qty > eps then
        var avg := ExitPrice(a, eps);
        Wallet(w.inv + [Lot(qty, avg, Some(pos))], Put(w.books, pos, AfterWithdraw(a, sol, Worth(qty, avg))))
      else
        w.(books := Put(w.books, pos, AfterWithdraw(a, sol, 0.0)))
    case Deposit(pos, qty, sol) =>
      if qty > eps then
        var d := Consume(w.inv, qty, eps);
        Wallet(d.left, Put(w.books, pos, AfterDeposit(AccOf(w.books, pos), sol, d.cost, d.taken)))
      else
        w.(books := Put(w.books, pos, AfterDeposit(AccOf(w.books, pos), sol, 0.0, 0.0)))
    case Sell(qty, sol) =>
      var d := Consume(w.inv, qty, eps);
      if d.taken > eps then
        var proceeds := BackedProceeds(sol, d.taken, d.shortfall);
        Wallet(d.left, RouteGains(w.books, d.perLot, proceeds, d.taken))
      else w.(inv := d.left)
  }

  function Walk(w: Wallet, evs: seq<Event>, eps: real): Wallet
    requires eps >= 0.0 && ValidTimeline(evs)
  {
    if evs == [] then w else Apply(Walk(w, evs[..|evs| - 1], eps), evs[|evs| - 1], eps)
  }

  /** The walk over every mint: a fresh inventory per mint, one set of books for all of them. */
  function WalkMints(timelines: seq<seq<Event>>, eps: real): (r: (Books, seq<seq<Lot>>))
    requires eps >= 0.0 && forall t | t in timelines :: ValidTimeline(t)
    ensures |r.1| == |timelines|
  {
    if timelines == [] then (EMPTY_BOOKS, [])
    else
      var n := |timelines| - 1;
      var (b, left) := WalkMints(timelines[..n], eps);
      var w := Walk(Wallet([], b), timelines[n], eps);
      (w.books, left + [w.inv])
  }

  // ----- held residual

  /** Value the leftover lots of one mint at the mark of their origin position. */
  function Hold(b: Books, lots: seq<Lot>, marks: map<Address, real>, eps: real): Books
    decreases |lots|
  {
    if lots == [] then b
    else Hold(HoldLot(b, lots[0], marks, eps), lots[1..], marks, eps)
  }

  predicate Marked(lot: Lot, marks: map<Address, real>, eps: real) {
    HasPosition(lot.origin) && lot.qty > eps && lot.origin.value in marks
  }

  function AddHeld(b: Books, pos: Address, worth: real): Books {
    var a := AccOf(b, pos);
    Put(b, pos, a.(heldValue := a.heldValue + worth))
  }

  function HoldLot(b: Books, lot: Lot, marks: map<Address, real>, eps: real): Books {
    if Marked(lot, marks, eps) then AddHeld(b, lot.origin.value, Worth(lot.qty, marks[lot.origin.value])) else b
  }

  function HoldMints(b: Books, left: seq<seq<Lot>>, marks: map<Address, real>, eps: real): Books
    decreases |left|
  {
    if left == [] then b else HoldMints(Hold(b, left[0], marks, eps), left[1..], marks, eps)
  }

  function PnlOf(a: Acc): real {
    a.solLeg - a.entryCost + a.exitCredit + a.realizedGain + a.heldValue
  }
}

/** The walk as the engine runs it: lots pushed, decremented and shifted in place. */
module FifoEngine {
  import opened Options
  import opened Fifo

  class FifoWalk {
    const eps: real
    var inv: seq<Lot>
    var acc: map<Address, Acc>
    var tradingPnL: real

    constructor (eps: real)
      ensures this.eps == eps && inv == [] && Booked() == EMPTY_BOOKS
    {
      this.eps := eps;
      inv, acc, tradingPnL := [], map[], 0.0;
    }

    ghost function Booked(): Books
      reads this
    {
      Books(acc, tradingPnL)
    }

    ghost function State(): Wallet
      reads this
    {
      Wallet(inv, Booked())
    }

    method Draw(need: real) returns (cost: real, taken: real, perLot: seq<Clip>, shortfall: real)
      requires eps >= 0.0
      modifies this`inv
      ensures Fifo.Draw(cost, taken, perLot, shortfall, inv) == Consume(old(inv), need, eps)
    {
      var remaining := need;
      hide Consume, After, Worth;
      cost, taken, perLot := 0.0, 0.0, [];
      ghost var d := Consume(inv, need, eps);
      AfterNothing(d);
      while remaining > eps && inv != []
        invariant d == After(cost, taken, perLot, Consume(inv, remaining, eps))
        decreases |inv|, remaining > eps
      {
        var lot := inv[0];
        var take := Min(remaining, lot.qty);
        var paid := Worth(take, lot.costPerUnit);
        var clip := Clip(lot.costPerUnit, lot.origin, take);
        AfterTaking(cost, taken, perLot, inv, remaining, eps);
        cost := cost + paid;
        taken := taken + take;
        perLot := perLot + [clip];
        remaining := remaining - take;
        if lot.qty - take <= eps {
          inv := inv[1..];
        } else {
          inv := [lot.(qty := lot.qty - take)] + inv[1..];
        }
      }
      AfterStops(cost, taken, perLot, inv, remaining, eps);
      shortfall := remaining;
    }

    method Route(perLot: seq<Clip>, proceeds: real, taken: real)
      requires taken > 0.0
      modifies this`acc, this`tradingPnL
      ensures Booked() == RouteGains(old(Booked()), perLot, proceeds, taken)
    {
      assert perLot[0..] == perLot;
      for i := 0 to |perLot|
        invariant RouteGains(Booked(), perLot[i..], proceeds, taken)
                  == RouteGains(old(Booked()), perLot, proceeds, taken)
      {
        var c := perLot[i];
        assert perLot[i..][0] == c && perLot[i..][1..] == perLot[i + 1..];
        var share := Share(proceeds, c.take, taken);
        var gain := share - Worth(c.take, c.costPerUnit);
        ghost var b := Booked();
        assert RouteGains(b, perLot[i..], proceeds, taken)
               == RouteGains(AddGain(b, c.origin, gain), perLot[i + 1..], proceeds, taken);
        if HasPosition(c.origin) {
          var a := if c.origin.value in acc then acc[c.origin.value] else NEW_ACC;
          acc := acc[c.origin.value := a.(realizedGain := a.realizedGain + gain)];
        } else {
          tradingPnL := tradingPnL + gain;
        }
        assert Booked() == AddGain(b, c.origin, gain);
      }
    }

    method OnWithdraw(pos: Address, qty: real, sol: real)
      requires eps >= 0.0 && qty >= 0.0
      modifies this
      ensures State() == Apply(old(State()), Withdraw(pos, qty, sol), eps)
    {
      var a := if pos in acc then acc[pos] else NEW_ACC;
      a := a.(solLeg := a.solLeg + sol);
      if qty > eps {
        var avg := if a.inQty > eps then UnitPrice(a.inCost, a.inQty) else 0.0;
        inv := inv + [Lot(qty, avg, Some(pos))];
        a := a.(exitCredit := a.exitCredit + Worth(qty, avg));
      }
      acc := acc[pos := a];
    }

    method OnDeposit(pos: Address, qty: real, sol: real)
      requires eps >= 0.0 && qty >= 0.0
      modifies this
      ensures State() == Apply(old(State()), Deposit(pos, qty, sol), eps)
    {
      var a := if pos in acc then acc[pos] else NEW_ACC;
      a := a.(solLeg := a.solLeg - sol);
      if qty > eps {
        var cost, taken, _, _ := Draw(qty);
        a := a.(entryCost := a.entryCost + cost, inQty := a.inQty + taken, inCost := a.inCost + cost);
      }
      acc := acc[pos := a];
    }

    method OnSell(qty: real, sol: real)
      requires eps >= 0.0 && qty > 0.0 && sol > 0.0
      modifies this
      ensures State() == Apply(old(State()), Sell(qty, sol), eps)
    {
      var _, taken, perLot, shortfall := Draw(qty);
      if taken > eps {
        var proceeds := BackedProceeds(sol, taken, shortfall);
        Route(perLot, proceeds, taken);
      }
    }

    method Step(e: Event)
      requires eps >= 0.0 && ValidEvent(e)
      modifies this
      ensures State() == Apply(old(State()), e, eps)
    {
      match e
      case Buy(qty, sol) =>
        inv := inv + [Lot(qty, UnitPrice(sol, qty), None)];
      case Claim(pos, qty, sol) =>
        var a := if pos in acc then acc[pos] else NEW_ACC;
        acc := acc[pos := a.(solLeg := a.solLeg + sol)];
        if qty > eps {
          inv := inv + [Lot(qty, 0.0, Some(pos))];
        }
      case Withdraw(pos, qty, sol) =>
        OnWithdraw(pos, qty, sol);
      case Deposit(pos, qty, sol) =>
        OnDeposit(pos, qty, sol);
      case Sell(qty, sol) =>
        OnSell(qty, sol);
    }

    /** The event loop of one mint, on the inventory and the books the engine holds at its start. */
    method Run(evs: seq<Event>)
      requires eps >= 0.0 && ValidTimeline(evs)
      modifies this
      ensures State() == Walk(old(State()), evs, eps)
    {
      for i := 0 to |evs|
        invariant State() == Walk(old(State()), evs[..i], eps)
      {
        assert evs[..i + 1][..i] == evs[..i];
        Step(evs[i]);
      }
      assert evs[..|evs|] == evs;
    }

    /** All mints in turn, each from an empty inventory; returns the leftover lots mint by mint. */
    method RunMints(timelines: seq<seq<Event>>) returns (left: seq<seq<Lot>>)
      requires eps >= 0.0 && forall t | t in timelines :: ValidTimeline(t)
      requires Booked() == EMPTY_BOOKS
      modifies this
      ensures (Booked(), left) == WalkMints(timelines, eps)
    {
      left := [];
      for i := 0 to |timelines|
        invariant (Booked(), left) == WalkMints(timelines[..i], eps)
      {
        assert timelines[..i + 1][..i] == timelines[..i];
        inv := [];
        Run(timelines[i]);
        left := left + [inv];
      }
      assert timelines[..|timelines|] == timelines;
    }

    /** The held-residual pass over the leftover lots of one mint. */
    method MarkHeld(lots: seq<Lot>, marks: map<Address, real>)
      modifies this`acc
      ensures Booked() == Hold(old(Booked()), lots, marks, eps)
    {
      assert lots[0..] == lots;
      for i := 0 to |lots|
        invariant tradingPnL == old(tradingPnL)
        invariant Hold(Booked(), lots[i..], marks, eps) == Hold(old(Booked()), lots, marks, eps)
      {
        var lot := lots[i];
        assert lots[i..][0] == lot && lots[i..][1..] == lots[i + 1..];
        ghost var b := Booked();
        if HasPosition(lot.origin) && lot.qty > eps && lot.origin.value in marks {
          var a := if lot.origin.value in acc then acc[lot.origin.value] else NEW_ACC;
          var worth := Worth(lot.qty, marks[lot.origin.value]);
          acc := acc[lot.origin.value := a.(heldValue := a.heldValue + worth)];
          assert Booked() == AddHeld(b, lot.origin.value, worth);
        }
        assert Booked() == HoldLot(b, lot, marks, eps);
      }
    }
  }
}
