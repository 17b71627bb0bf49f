/**
 * The net-worth curve: running sums of daily flows, plus the deposits of open positions computed as a
 * sweep of +deposit at the open day and -deposit at the close day.
 */
module Networth {
  import opened Options

  const DAY_MS := 86_400_000

  /** Lifecycle in epoch milliseconds, and the SOL side deposited. */
  datatype Position = Position(dep: real, openedAt: nat, closedAt: Option<nat>)

  datatype FlowEvent = FlowEvent(day: int, sol: real, isTrading: bool)

  datatype Delta = Delta(day: int, amount: real)

  datatype Point = Point(date: int, networth: real, apports: real, realPnl: real)

  /** `floor(ms / 1000 / 86400)`. */
  function DayOfMs(ms: nat): int { ms / 1000 / 86400 }

  // ----- the sweep

  /** One event per open, one per close. */
  function Events(ps: seq<Position>): seq<Delta> {
    if ps == [] then []
    else
      var n := |ps| - 1;
      var p := ps[n];
      Events(ps[..n]) + [Delta(DayOfMs(p.openedAt), p.dep)]
      + (if p.closedAt.Some? then [Delta(DayOfMs(p.closedAt.value), -p.dep)] else [])
  }

  function FlowDeltas(fs: seq<FlowEvent>, trading: bool): seq<Delta> {
    if fs == [] then []
    else
      var n := |fs| - 1;
      FlowDeltas(fs[..n], trading) + (if fs[n].isTrading == trading then [Delta(fs[n].day, fs[n].sol)] else [])
  }

  function DayTotal(es: seq<Delta>, day: int): real {
    if es == [] then 0.0
    else
      var n := |es| - 1;
      DayTotal(es[..n], day) + (if es[n].day == day then es[n].amount else 0.0)
  }

  /** The window sum over the first `n` days of the series that starts at `first`. */
  function Sweep(es: seq<Delta>, first: int, n: nat): real {
    if n == 0 then 0.0 else Sweep(es, first, n - 1) + DayTotal(es, first + n - 1)
  }

  function PointAt(fs: seq<FlowEvent>, ps: seq<Position>, first: int, n: nat): Point {
    var trading, ext := Sweep(FlowDeltas(fs, true), first, n), Sweep(FlowDeltas(fs, false), first, n);
    var deployed := Sweep(Events(ps), first, n);
    Point(first + n - 1, trading + ext + deployed, ext, trading + deployed)
  }

  // ----- the simple form: a scan of all events up to a day

  function Between(es: seq<Delta>, first: int, last: int): real {
    if es == [] then 0.0
    else
      var n := |es| - 1;
      Between(es[..n], first, last) + (if first <= es[n].day <= last then es[n].amount else 0.0)
  }

  /** Open at the last millisecond of the day. */
  predicate OpenAtEnd(p: Position, day: int) {
    var end := (day + 1) * DAY_MS - 1;
    p.openedAt <= end && (p.closedAt.None? || p.closedAt.value > end)
  }

  function Deployed(ps: seq<Position>, day: int): real {
    if ps == [] then 0.0
    else
      var n := |ps| - 1;
      Deployed(ps[..n], day) + (if OpenAtEnd(ps[n], day) then ps[n].dep else 0.0)
  }

  function FlowsUpTo(fs: seq<FlowEvent>, trading: bool, day: int): real {
    if fs == [] then 0.0
    else
      var n := |fs| - 1;
      FlowsUpTo(fs[..n], trading, day) + (if fs[n].isTrading == trading && fs[n].day <= day then fs[n].sol else 0.0)
  }

  // ----- the sweep is the scan

  lemma {:induction false} BetweenGrows(es: seq<Delta>, first: int, last: int)
    requires first <= last
    ensures Between(es, first, last) == Between(es, first, last - 1) + DayTotal(es, last)
  {
    if es != [] { BetweenGrows(es[..|es| - 1], first, last); }
  }

  lemma {:induction false} NothingBetween(es: seq<Delta>, first: int, last: int)
    requires last < first
    ensures Between(es, first, last) == 0.0
  {
    if es != [] { NothingBetween(es[..|es| - 1], first, last); }
  }

  lemma {:induction false} SweepIsBetween(es: seq<Delta>, first: int, n: nat)
    ensures Sweep(es, first, n) == Between(es, first, first + n - 1)
  {
    if n == 0 {
      NothingBetween(es, first, first - 1);
    } else {
      SweepIsBetween(es, first, n - 1);
      BetweenGrows(es, first, first + n - 1);
    }
  }

  lemma OpenByDay(p: Position, day: int)
    ensures OpenAtEnd(p, day) <==> DayOfMs(p.openedAt) <= day && (p.closedAt.None? || DayOfMs(p.closedAt.value) > day)
  {
  }

  /**
   * The positions whose whole life the sweep sees as it should: opened within the series and not after
   * the close, or over before the series starts.
   */
  predicate Swept(p: Position, first: int) {
    var open := DayOfMs(p.openedAt);
    match p.closedAt
    case None => first <= open
    case Some(c) => first <= open <= DayOfMs(c) || (open < first && DayOfMs(c) < first)
  }

  lemma SingleSweep(p: Position, first: int, day: int)
    ensures Between(Events([p]), first, day)
            == (if first <= DayOfMs(p.openedAt) <= day then p.dep else 0.0)
               - (if p.closedAt.Some? && first <= DayOfMs(p.closedAt.value) <= day then p.dep else 0.0)
    ensures Deployed([p], day) == if OpenAtEnd(p, day) then p.dep else 0.0
  {
    hide DayOfMs, OpenAtEnd;
    assert Events([p][..0]) == [] && Deployed([p][..0], day) == 0.0;
    var open := Delta(DayOfMs(p.openedAt), p.dep);
    assert Between([open][..0], first, day) == 0.0;
    if p.closedAt.Some? {
      var close := Delta(DayOfMs(p.closedAt.value), -p.dep);
      assert Events([p]) == [open, close];
      assert [open, close][..1] == [open];
    } else {
      assert Events([p]) == [open];
    }
  }

  /** For one position with a deposit, the sweep is right on every day of the series exactly when it is swept. */
  lemma SweepExact(p: Position, first: int)
    requires p.dep != 0.0
    ensures (forall n: nat | n > 0 :: Sweep(Events([p]), first, n) == Deployed([p], first + n - 1)) <==> Swept(p, first)
  {
    hide DayOfMs, OpenAtEnd, Events, Between, Deployed, Sweep;
    forall n: nat | n > 0
      ensures Sweep(Events([p]), first, n)
              == (if first <= DayOfMs(p.openedAt) <= first + n - 1 then p.dep else 0.0)
                 - (if p.closedAt.Some? && first <= DayOfMs(p.closedAt.value) <= first + n - 1 then p.dep else 0.0)
      ensures Deployed([p], first + n - 1)
              == if DayOfMs(p.openedAt) <= first + n - 1
                    && (p.closedAt.None? || DayOfMs(p.closedAt.value) > first + n - 1)
                 then p.dep else 0.0
    {
      SweepIsBetween(Events([p]), first, n);
      SingleSweep(p, first, first + n - 1);
      OpenByDay(p, first + n - 1);
    }
    if !Swept(p, first) {
      var open := DayOfMs(p.openedAt);
      // the day on which the two forms differ
      var day := if p.closedAt.None? then first
                 else if first <= DayOfMs(p.closedAt.value) then DayOfMs(p.closedAt.value) else open;
      var n: nat := day - first + 1;
      assert Sweep(Events([p]), first, n) != Deployed([p], first + n - 1);
    }
  }

  /**
   * What the sweep makes of a position opened before the series starts: nothing as long as it is open,
   * and minus its deposit from the day on which it closes.
   */
  lemma OpenedBefore(p: Position, first: int, n: nat)
    requires n > 0 && DayOfMs(p.openedAt) < first
    ensures var day := first + n - 1;
            var over := p.closedAt.Some? && DayOfMs(p.closedAt.value) <= day;
            && Sweep(Events([p]), first, n) == (if over && first <= DayOfMs(p.closedAt.value) then -p.dep else 0.0)
            && Deployed([p], day) == (if over then 0.0 else p.dep)
  {
    hide DayOfMs, OpenAtEnd, Events, Between, Deployed, Sweep;
    SweepIsBetween(Events([p]), first, n);
    SingleSweep(p, first, first + n - 1);
    OpenByDay(p, first + n - 1);
  }

  /** A position that the curve never shows: opened the day before the first flow day, and still open. */
  lemma SweepMisses(dep: real, first: nat)
    requires dep != 0.0 && first > 0
    ensures var p := Position(dep, (first - 1) * DAY_MS, None);
            && !Swept(p, first)
            && (forall n: nat | n > 0 :: Sweep(Events([p]), first, n) == 0.0)
            && (forall day | day >= first :: Deployed([p], day) == dep)
  {
    var p := Position(dep, (first - 1) * DAY_MS, None);
    assert DayOfMs(p.openedAt) == first - 1;
    hide DayOfMs, Events, Deployed, Sweep;
    forall n: nat | n > 0 ensures Sweep(Events([p]), first, n) == 0.0 {
      OpenedBefore(p, first, n);
    }
    forall day | day >= first ensures Deployed([p], day) == dep {
      OpenedBefore(p, first, day - first + 1);
    }
  }

  lemma {:induction false} BetweenAppends(es: seq<Delta>, ds: seq<Delta>, first: int, last: int)
    ensures Between(es + ds, first, last) == Between(es, first, last) + Between(ds, first, last)
  {
    if ds == [] {
      assert es + ds == es;
    } else {
      BetweenAppends(es, ds[..|ds| - 1], first, last);
      assert (es + ds)[..|es + ds| - 1] == es + ds[..|ds| - 1];
    }
  }

  /** The O(n) sweep refines the per-day scan over any list of swept positions. */
  lemma {:induction false} SweepRefinesScan(ps: seq<Position>, first: int, n: nat)
    requires n > 0 && forall i | 0 <= i < |ps| :: Swept(ps[i], first)
    ensures Sweep(Events(ps), first, n) == Deployed(ps, first + n - 1)
  {
    hide DayOfMs, OpenAtEnd;
    var day := first + n - 1;
    SweepIsBetween(Events(ps), first, n);
    if ps != [] {
      var k := |ps| - 1;
      SweepRefinesScan(ps[..k], first, n);
      SweepIsBetween(Events(ps[..k]), first, n);
      SingleSweep(ps[k], first, day);
      OpenByDay(ps[k], day);
      assert Events([ps[k]][..0]) == [];
      assert Events(ps) == Events(ps[..k]) + Events([ps[k]]);
      BetweenAppends(Events(ps[..k]), Events([ps[k]]), first, day);
    }
  }

  lemma {:induction false} FlowSweep(fs: seq<FlowEvent>, trading: bool, first: int, day: int)
    requires forall i | 0 <= i < |fs| :: fs[i].day >= first
    ensures Between(FlowDeltas(fs, trading), first, day) == FlowsUpTo(fs, trading, day)
  {
    if fs != [] {
      var n := |fs| - 1;
      FlowSweep(fs[..n], trading, first, day);
      var es, e := FlowDeltas(fs[..n], trading), Delta(fs[n].day, fs[n].sol);
      assert (es + [e])[..|es|] == es && es + [] == es;
    }
  }

  /**
   * What a point of the curve is: the wallet's net worth is all its flows so far plus the deposits of
   * the positions open at the end of that day, and its real PnL is that net of external flows.
   */
  lemma PointIsValue(fs: seq<FlowEvent>, ps: seq<Position>, first: int, n: nat)
    requires n > 0
    requires forall i | 0 <= i < |fs| :: fs[i].day >= first
    requires forall i | 0 <= i < |ps| :: Swept(ps[i], first)
    ensures var p := PointAt(fs, ps, first, n);
            && p.networth == FlowsUpTo(fs, true, p.date) + FlowsUpTo(fs, false, p.date) + Deployed(ps, p.date)
            && p.apports == FlowsUpTo(fs, false, p.date)
            && p.realPnl == p.networth - p.apports
  {
    hide Sweep, Between, Events, FlowDeltas, Deployed, FlowsUpTo;
    SweepIsBetween(FlowDeltas(fs, true), first, n);
    SweepIsBetween(FlowDeltas(fs, false), first, n);
    FlowSweep(fs, true, first, first + n - 1);
    FlowSweep(fs, false, first, first + n - 1);
    SweepRefinesScan(ps, first, n);
  }
}
