/** The daily PnL curve, built from raw flows or from the rollup rows, gap-filled from first to last day. */
module CashflowCurve {
  import opened Options
  import opened MapTotals
  import opened WalletFlows

  datatype CurveDay = CurveDay(
    date: int,
    tradingSol: real,
    externalSol: real,
    cumulativeSol: real,
    cumulativeTotalSol: real)

  datatype Curve = Curve(days: seq<CurveDay>, totalTradingSol: real, totalExternalSol: real)

  /** A day's rollup row as the curve reads it; days are UTC epoch days. */
  datatype DailyRow = DailyRow(date: int, trading: real, external: real)

  type Amount = map<int, real>

  function At(m: Amount, day: int): real { if day in m then m[day] else 0.0 }

  // ----- bucketing

  function Bucket(flows: seq<Flow>, trading: bool): Amount {
    if flows == [] then map[]
    else
      var k := |flows| - 1;
      var m := Bucket(flows[..k], trading);
      var day := DayOf(flows[k].timestamp);
      if flows[k].isTrading == trading then m[day := At(m, day) + flows[k].solFlow] else m
  }

  function Column(daily: seq<DailyRow>, trading: bool): Amount {
    if daily == [] then map[]
    else
      var k := |daily| - 1;
      Column(daily[..k], trading)[daily[k].date := if trading then daily[k].trading else daily[k].external]
  }

  // ----- gap filling

  /** The running sum of the first `n` days from `from` on. */
  function RunningSum(m: Amount, from: int, n: nat): real {
    if n == 0 then 0.0 else RunningSum(m, from, n - 1) + At(m, from + n - 1)
  }

  function Days(t: Amount, e: Amount, from: int, n: nat): (r: seq<CurveDay>)
    ensures |r| == n
  {
    seq(n, i requires 0 <= i < n =>
      CurveDay(from + i, At(t, from + i), At(e, from + i), RunningSum(t, from, i + 1),
               RunningSum(t, from, i + 1) + RunningSum(e, from, i + 1)))
  }

  predicate Spans(days: set<int>, min: int, max: int) {
    min in days && max in days && forall d | d in days :: min <= d <= max
  }

  lemma SomeDay(days: set<int>)
    ensures days == {} || exists d :: d in days
  {
    if forall d :: d !in days { assert days == {}; }
  }

  predicate Bounding(days: set<int>, bounds: Option<(int, int)>) {
    if bounds.None? then days == {} else Spans(days, bounds.value.0, bounds.value.1)
  }

  /** The bounds once day `d` has been seen too. */
  function Widen(bounds: Option<(int, int)>, d: int): Option<(int, int)> {
    match bounds
    case None => Some((d, d))
    case Some((min, max)) => Some((if d < min then d else min, if d > max then d else max))
  }

  lemma WidenBounds(days: set<int>, bounds: Option<(int, int)>, d: int)
    requires Bounding(days, bounds)
    ensures Bounding(days + {d}, Widen(bounds, d))
  {
  }

  /** The least and the greatest day of a set of days, if there is one. */
  method Bounds(days: set<int>) returns (bounds: Option<(int, int)>)
    ensures Bounding(days, bounds)
  {
    bounds := None;
    var rest, seen := days, {};
    while rest != {}
      invariant seen + rest == days && Bounding(seen, bounds)
      decreases |rest|
    {
      SomeDay(rest);
      var d :| d in rest;
      WidenBounds(seen, bounds, d);
      hide Bounding;
      bounds := Widen(bounds, d);
      rest, seen := rest - {d}, seen + {d};
    }
    assert seen == days;
  }

  ghost predicate IsCurve(c: Curve, t: Amount, e: Amount) {
    if t.Keys + e.Keys == {} then c == Curve([], 0.0, 0.0)
    else
      exists min, max ::
        && Spans(t.Keys + e.Keys, min, max)
        && min <= max
        && var n := max - min + 1;
            c == Curve(Days(t, e, min, n), RunningSum(t, min, n), RunningSum(e, min, n))
  }

  method FillCurve(trading: Amount, external: Amount) returns (c: Curve)
    ensures IsCurve(c, trading, external)
  {
    var keys := trading.Keys + external.Keys;
    var bounds := Bounds(keys);
    if bounds.None? { return Curve([], 0.0, 0.0); }
    var (minDay, maxDay) := bounds.value;
    var days: seq<CurveDay> := [];
    var cumulative, cumulativeTotal, totalTradingSol, totalExternalSol := 0.0, 0.0, 0.0, 0.0;
    var d := minDay;
    while d <= maxDay
      invariant minDay <= d <= maxDay + 1
      invariant days == Days(trading, external, minDay, d - minDay)
      invariant totalTradingSol == cumulative == RunningSum(trading, minDay, d - minDay)
      invariant totalExternalSol == RunningSum(external, minDay, d - minDay)
      invariant cumulativeTotal == cumulative + totalExternalSol
    {
      var tradingSol, externalSol := At(trading, d), At(external, d);
      cumulative := cumulative + tradingSol;
      cumulativeTotal := cumulativeTotal + (tradingSol + externalSol);
      totalTradingSol := totalTradingSol + tradingSol;
      totalExternalSol := totalExternalSol + externalSol;
      days := days + [CurveDay(d, tradingSol, externalSol, cumulative, cumulativeTotal)];
      d := d + 1;
    }
    c := Curve(days, totalTradingSol, totalExternalSol);
  }

  method BuildCashflowCurve(flows: seq<Flow>) returns (c: Curve)
    ensures IsCurve(c, Bucket(flows, true), Bucket(flows, false))
  {
    var trading: Amount, external: Amount := map[], map[];
    for i := 0 to |flows|
      invariant trading == Bucket(flows[..i], true) && external == Bucket(flows[..i], false)
    {
      assert flows[..i + 1][..i] == flows[..i];
      var f := flows[i];
      var day := DayOf(f.timestamp);
      if f.isTrading {
        trading := trading[day := At(trading, day) + f.solFlow];
      } else {
        external := external[day := At(external, day) + f.solFlow];
      }
    }
    assert flows[..|flows|] == flows;
    c := FillCurve(trading, external);
  }

  method BuildCashflowCurveFromDaily(daily: seq<DailyRow>) returns (c: Curve)
    ensures IsCurve(c, Column(daily, true), Column(daily, false))
  {
    var trading: Amount, external: Amount := map[], map[];
    for i := 0 to |daily|
      invariant trading == Column(daily[..i], true) && external == Column(daily[..i], false)
    {
      assert daily[..i + 1][..i] == daily[..i];
      trading := trading[daily[i].date := daily[i].trading];
      external := external[daily[i].date := daily[i].external];
    }
    assert daily[..|daily|] == daily;
    c := FillCurve(trading, external);
  }

  // ----- a curve is determined by what its maps say day by day

  lemma {:induction false} RunningSumCongruent(m: Amount, m': Amount, from: int, n: nat)
    requires forall d :: At(m, d) == At(m', d)
    ensures RunningSum(m, from, n) == RunningSum(m', from, n)
  {
    if n > 0 { RunningSumCongruent(m, m', from, n - 1); }
  }

  function Filled(t: Amount, e: Amount, min: int, max: int): Curve
    requires min <= max
  {
    Curve(Days(t, e, min, max - min + 1), RunningSum(t, min, max - min + 1), RunningSum(e, min, max - min + 1))
  }

  ghost predicate SameAmount(m: Amount, m': Amount) {
    forall d :: At(m, d) == At(m', d)
  }

  lemma FilledCongruent(t: Amount, e: Amount, t': Amount, e': Amount, min: int, max: int)
    requires min <= max && SameAmount(t, t') && SameAmount(e, e')
    ensures Filled(t, e, min, max) == Filled(t', e', min, max)
  {
    hide RunningSum;
    forall n: nat ensures RunningSum(t, min, n) == RunningSum(t', min, n) { RunningSumCongruent(t, t', min, n); }
    forall n: nat ensures RunningSum(e, min, n) == RunningSum(e', min, n) { RunningSumCongruent(e, e', min, n); }
    assert Days(t, e, min, max - min + 1) == Days(t', e', min, max - min + 1);
  }

  /** The bounds of a non-empty curve. */
  lemma CurveBounds(c: Curve, t: Amount, e: Amount) returns (min: int, max: int)
    requires IsCurve(c, t, e) && t.Keys + e.Keys != {}
    ensures Spans(t.Keys + e.Keys, min, max) && min <= max && c == Filled(t, e, min, max)
  {
    hide Days, RunningSum;
    min, max :| Spans(t.Keys + e.Keys, min, max) && min <= max
      && var n := max - min + 1;
          c == Curve(Days(t, e, min, n), RunningSum(t, min, n), RunningSum(e, min, n));
  }

  /** Two curves over maps with the same days and the same amounts are equal. */
  lemma CurveIsDetermined(c: Curve, t: Amount, e: Amount, c': Curve, t': Amount, e': Amount)
    requires IsCurve(c, t, e) && IsCurve(c', t', e')
    requires t.Keys + e.Keys == t'.Keys + e'.Keys && SameAmount(t, t') && SameAmount(e, e')
    ensures c == c'
  {
    if t.Keys + e.Keys != {} {
      var min, max := CurveBounds(c, t, e);
      var min', max' := CurveBounds(c', t', e');
      hide Filled, IsCurve, SameAmount;
      assert min == min' && max == max';
      FilledCongruent(t, e, t', e', min, max);
    }
  }

  // ----- raw and rollup agree

  /** The flows of one wallet from day `since` on, each stored row listed once, in any order. */
  ghost predicate ListsRaw(flows: seq<Flow>, raw: RawTable, w: Wallet, since: int) {
    && (forall i, j | 0 <= i < j < |flows| :: flows[i].signature != flows[j].signature)
    && (forall i | 0 <= i < |flows| ::
          && (w, flows[i].signature) in raw
          && raw[(w, flows[i].signature)] == RowOf(flows[i])
          && DayOf(flows[i].timestamp) >= since)
    && (forall k | k in raw && k.0 == w && DayOf(raw[k].ts) >= since ::
          exists i :: 0 <= i < |flows| && flows[i].signature == k.1)
  }

  /** The rollup rows of one wallet from day `since` on, each day listed once. */
  ghost predicate ListsDaily(rows: seq<DailyRow>, daily: DailyTable, w: Wallet, since: int) {
    && (forall i, j | 0 <= i < j < |rows| :: rows[i].date != rows[j].date)
    && (forall i | 0 <= i < |rows| ::
          (w, rows[i].date) in daily && daily[(w, rows[i].date)] == DayFlow(rows[i].trading, rows[i].external)
          && rows[i].date >= since)
    && (forall k | k in daily && k.0 == w && k.1 >= since :: exists i :: 0 <= i < |rows| && rows[i].date == k.1)
  }

  /** The amounts of the listed flows of one day and kind, by key. */
  ghost function Listed(flows: seq<Flow>, w: Wallet, day: int, trading: bool): map<(Wallet, Sig), real> {
    if flows == [] then map[]
    else
      var k := |flows| - 1;
      var m := Listed(flows[..k], w, day, trading);
      var f := flows[k];
      if f.isTrading == trading && DayOf(f.timestamp) == day then m[(w, f.signature) := f.solFlow] else m
  }

  ghost predicate ComesFrom(flows: seq<Flow>, sig: Sig, day: int, trading: bool, sol: real) {
    exists i ::
      && 0 <= i < |flows|
      && flows[i] == Flow(sig, flows[i].timestamp, sol, trading)
      && DayOf(flows[i].timestamp) == day
  }

  lemma {:induction false} ListedKeys(flows: seq<Flow>, w: Wallet, day: int, trading: bool)
    requires forall i, j | 0 <= i < j < |flows| :: flows[i].signature != flows[j].signature
    ensures forall k | k in Listed(flows, w, day, trading) ::
              k.0 == w && ComesFrom(flows, k.1, day, trading, Listed(flows, w, day, trading)[k])
    ensures forall i | 0 <= i < |flows| && flows[i].isTrading == trading && DayOf(flows[i].timestamp) == day ::
              (w, flows[i].signature) in Listed(flows, w, day, trading)
  {
    hide DayOf;
    if flows != [] {
      var n := |flows| - 1;
      ListedKeys(flows[..n], w, day, trading);
      forall k | k in Listed(flows[..n], w, day, trading)
        ensures k.1 != flows[n].signature
      {
        var i :| 0 <= i < n && flows[..n][i].signature == k.1;
        assert flows[i].signature == k.1;
      }
    }
  }

  lemma {:induction false} BucketIsTotal(flows: seq<Flow>, w: Wallet, day: int, trading: bool)
    requires forall i, j | 0 <= i < j < |flows| :: flows[i].signature != flows[j].signature
    ensures At(Bucket(flows, trading), day) == Total(Listed(flows, w, day, trading))
  {
    hide DayOf;
    if flows != [] {
      var n := |flows| - 1;
      BucketIsTotal(flows[..n], w, day, trading);
      ListedKeys(flows[..n], w, day, trading);
      var m := Listed(flows[..n], w, day, trading);
      TotalUpdate(m, (w, flows[n].signature), flows[n].solFlow);
    }
  }

  lemma {:induction false} BucketKeys(flows: seq<Flow>, trading: bool)
    ensures forall d :: d in Bucket(flows, trading) <==>
              exists i :: 0 <= i < |flows| && flows[i].isTrading == trading && DayOf(flows[i].timestamp) == d
  {
    hide DayOf;
    if flows != [] {
      var n := |flows| - 1;
      BucketKeys(flows[..n], trading);
      forall d ensures d in Bucket(flows, trading) <==>
        exists i :: 0 <= i < |flows| && flows[i].isTrading == trading && DayOf(flows[i].timestamp) == d
      {
        if d in Bucket(flows[..n], trading) {
          var i :| 0 <= i < n && flows[..n][i].isTrading == trading && DayOf(flows[..n][i].timestamp) == d;
          assert flows[i] == flows[..n][i];
        }
        if i :| 0 <= i < |flows| && flows[i].isTrading == trading && DayOf(flows[i].timestamp) == d && i < n {
          assert flows[..n][i] == flows[i];
        }
      }
    }
  }

  lemma {:induction false} ColumnAt(rows: seq<DailyRow>, trading: bool)
    requires forall i, j | 0 <= i < j < |rows| :: rows[i].date != rows[j].date
    ensures forall i | 0 <= i < |rows| ::
              rows[i].date in Column(rows, trading)
              && Column(rows, trading)[rows[i].date] == (if trading then rows[i].trading else rows[i].external)
    ensures forall d | d in Column(rows, trading) :: exists i :: 0 <= i < |rows| && rows[i].date == d
  {
    if rows != [] {
      var n := |rows| - 1;
      ColumnAt(rows[..n], trading);
      forall i | 0 <= i < |rows|
        ensures rows[i].date in Column(rows, trading)
        ensures Column(rows, trading)[rows[i].date] == (if trading then rows[i].trading else rows[i].external)
      {
        if i < n { assert rows[..n][i] == rows[i]; }
      }
      forall d | d in Column(rows, trading) ensures exists i :: 0 <= i < |rows| && rows[i].date == d {
        if d != rows[n].date {
          var i :| 0 <= i < n && rows[..n][i].date == d;
          assert rows[i].date == d;
        }
      }
    }
  }

  /** From the start day on, the listed amounts are the stored ones; before it there are none. */
  lemma ListedIsStored(flows: seq<Flow>, raw: RawTable, w: Wallet, since: int, day: int, trading: bool)
    requires ListsRaw(flows, raw, w, since)
    ensures Listed(flows, w, day, trading) == if day >= since then Amounts(raw, w, day, trading) else map[]
  {
    hide DayOf, Listed;
    ListedKeys(flows, w, day, trading);
    var l, m := Listed(flows, w, day, trading), Amounts(raw, w, day, trading);
    forall k | k in l ensures day >= since && k in m && m[k] == l[k] {
      assert ComesFrom(flows, k.1, day, trading, l[k]);
    }
    if day >= since {
      forall k | k in m ensures k in l {
        var i :| 0 <= i < |flows| && flows[i].signature == k.1;
        assert raw[(w, flows[i].signature)] == RowOf(flows[i]);
      }
      assert l == m;
    } else {
      assert l == map[];
    }
  }

  lemma RawAt(flows: seq<Flow>, raw: RawTable, w: Wallet, since: int, day: int, trading: bool)
    requires ListsRaw(flows, raw, w, since)
    ensures At(Bucket(flows, trading), day) == if day >= since then Total(Amounts(raw, w, day, trading)) else 0.0
  {
    hide DayOf, Bucket, Listed, Amounts;
    BucketIsTotal(flows, w, day, trading);
    ListedIsStored(flows, raw, w, since, day, trading);
  }

  /** The days and the amounts that the raw flows and the rollup rows give to the curve are the same. */
  lemma SameDay(db: Db, w: Wallet, since: int, flows: seq<Flow>, rows: seq<DailyRow>, day: int)
    requires Agrees(db) && ListsRaw(flows, db.raw, w, since) && ListsDaily(rows, db.daily, w, since)
    ensures At(Bucket(flows, true), day) == At(Column(rows, true), day)
    ensures At(Bucket(flows, false), day) == At(Column(rows, false), day)
    ensures day in Bucket(flows, true).Keys + Bucket(flows, false).Keys
            <==> day in Column(rows, true).Keys + Column(rows, false).Keys
  {
    hide DayOf, Bucket, Column, Amounts, Total;
    RawAt(flows, db.raw, w, since, day, true);
    RawAt(flows, db.raw, w, since, day, false);
    BucketKeys(flows, true);
    BucketKeys(flows, false);
    ColumnAt(rows, true);
    ColumnAt(rows, false);
    assert (w, day) in db.daily <==> HasDay(db.raw, w, day);
    assert DailyOf(db.daily, w, day) == Aggregate(db.raw, w, day);
    DaysAgree(db, w, since, flows, rows, day);
  }

  lemma DaysAgree(db: Db, w: Wallet, since: int, flows: seq<Flow>, rows: seq<DailyRow>, day: int)
    requires Agrees(db) && ListsRaw(flows, db.raw, w, since) && ListsDaily(rows, db.daily, w, since)
    ensures (exists i :: 0 <= i < |flows| && DayOf(flows[i].timestamp) == day)
            <==> day >= since && HasDay(db.raw, w, day)
    ensures (exists i :: 0 <= i < |rows| && rows[i].date == day) <==> day >= since && (w, day) in db.daily
  {
    hide DayOf, Aggregate;
    if i :| 0 <= i < |flows| && DayOf(flows[i].timestamp) == day {
      var k := (w, flows[i].signature);
      assert k in db.raw && DayOf(db.raw[k].ts) == day;
    }
    if day >= since && HasDay(db.raw, w, day) {
      var k :| k in db.raw && k.0 == w && DayOf(db.raw[k].ts) == day;
      var i :| 0 <= i < |flows| && flows[i].signature == k.1;
      assert k == (w, flows[i].signature);
    }
  }

  /**
   * The fast form agrees with the simple one: on a rollup kept by upserts, the curve built from the
   * rollup rows equals the curve built from the raw flows, for every wallet and start day.
   */
  lemma CurvesAgree(db: Db, w: Wallet, since: int, flows: seq<Flow>, rows: seq<DailyRow>, c: Curve, c': Curve)
    requires Agrees(db) && ListsRaw(flows, db.raw, w, since) && ListsDaily(rows, db.daily, w, since)
    requires IsCurve(c, Bucket(flows, true), Bucket(flows, false))
    requires IsCurve(c', Column(rows, true), Column(rows, false))
    ensures c == c'
  {
    hide Agrees, ListsRaw, ListsDaily, IsCurve, Bucket, Column;
    forall day
      ensures At(Bucket(flows, true), day) == At(Column(rows, true), day)
      ensures At(Bucket(flows, false), day) == At(Column(rows, false), day)
    {
      SameDay(db, w, since, flows, rows, day);
    }
    var raw := Bucket(flows, true).Keys + Bucket(flows, false).Keys;
    var rolled := Column(rows, true).Keys + Column(rows, false).Keys;
    forall day ensures day in raw <==> day in rolled {
      SameDay(db, w, since, flows, rows, day);
    }
    assert raw == rolled;
    CurveIsDetermined(c, Bucket(flows, true), Bucket(flows, false), c', Column(rows, true), Column(rows, false));
  }

  // ----- no lamport is lost between the flows and the curve

  lemma {:induction false} SpanIsTotal(m: Amount, from: int, n: nat)
    requires forall d | d in m :: from <= d < from + n
    ensures RunningSum(m, from, n) == Total(m)
  {
    if n > 0 {
      var d := from + n - 1;
      SpanIsTotal(m - {d}, from, n - 1);
      RunningSumBelow(m, m - {d}, from, n - 1);
      if d in m { TotalPick(m, d); } else { assert m - {d} == m; }
    } else {
      SomeDay(m.Keys);
    }
  }

  lemma {:induction false} RunningSumBelow(m: Amount, m': Amount, from: int, n: nat)
    requires forall d | from <= d < from + n :: At(m, d) == At(m', d)
    ensures RunningSum(m, from, n) == RunningSum(m', from, n)
  {
    if n > 0 { RunningSumBelow(m, m', from, n - 1); }
  }

  function FlowSum(flows: seq<Flow>, trading: bool): real {
    if flows == [] then 0.0
    else
      var k := |flows| - 1;
      FlowSum(flows[..k], trading) + (if flows[k].isTrading == trading then flows[k].solFlow else 0.0)
  }

  lemma {:induction false} BucketTotal(flows: seq<Flow>, trading: bool)
    ensures Total(Bucket(flows, trading)) == FlowSum(flows, trading)
  {
    hide DayOf;
    if flows != [] {
      var k := |flows| - 1;
      BucketTotal(flows[..k], trading);
      var m, day := Bucket(flows[..k], trading), DayOf(flows[k].timestamp);
      TotalUpdate(m, day, At(m, day) + flows[k].solFlow);
    }
  }

  /** Every lamport is auditable: the totals of the curve, and its last point, are the sums of the flows. */
  lemma CurveConserves(flows: seq<Flow>, c: Curve)
    requires IsCurve(c, Bucket(flows, true), Bucket(flows, false))
    ensures c.totalTradingSol == FlowSum(flows, true) && c.totalExternalSol == FlowSum(flows, false)
    ensures c.days != [] ==>
              var last := c.days[|c.days| - 1];
              last.cumulativeSol == FlowSum(flows, true)
              && last.cumulativeTotalSol == FlowSum(flows, true) + FlowSum(flows, false)
    ensures forall i | 0 < i < |c.days| ::
              c.days[i].date == c.days[i - 1].date + 1
              && c.days[i].cumulativeSol == c.days[i - 1].cumulativeSol + c.days[i].tradingSol
  {
    var t, e := Bucket(flows, true), Bucket(flows, false);
    hide Bucket;
    BucketTotal(flows, true);
    BucketTotal(flows, false);
    if t.Keys + e.Keys == {} {
      assert t == map[] && e == map[];
    } else {
      var min, max := CurveBounds(c, t, e);
      var n := max - min + 1;
      assert forall d | d in t.Keys + e.Keys :: min <= d < min + n;
      SpanIsTotal(t, min, n);
      SpanIsTotal(e, min, n);
    }
  }

  // ----- what every point of the curve says about the flows

  /** The flows of one kind on one day, and up to the end of a day. */
  function SumOn(flows: seq<Flow>, trading: bool, day: int): real {
    if flows == [] then 0.0
    else
      var k := |flows| - 1;
      SumOn(flows[..k], trading, day)
      + (if flows[k].isTrading == trading && DayOf(flows[k].timestamp) == day then flows[k].solFlow else 0.0)
  }

  function SumUpTo(flows: seq<Flow>, trading: bool, day: int): real {
    if flows == [] then 0.0
    else
      var k := |flows| - 1;
      SumUpTo(flows[..k], trading, day)
      + (if flows[k].isTrading == trading && DayOf(flows[k].timestamp) <= day then flows[k].solFlow else 0.0)
  }

  lemma {:induction false} BucketAt(flows: seq<Flow>, trading: bool, day: int)
    ensures At(Bucket(flows, trading), day) == SumOn(flows, trading, day)
  {
    hide DayOf;
    if flows != [] { BucketAt(flows[..|flows| - 1], trading, day); }
  }

  lemma {:induction false} UpToGrows(flows: seq<Flow>, trading: bool, day: int)
    ensures SumUpTo(flows, trading, day) == SumUpTo(flows, trading, day - 1) + SumOn(flows, trading, day)
  {
    hide DayOf;
    if flows != [] { UpToGrows(flows[..|flows| - 1], trading, day); }
  }

  lemma {:induction false} NothingBefore(flows: seq<Flow>, trading: bool, day: int)
    requires forall i | 0 <= i < |flows| :: DayOf(flows[i].timestamp) > day
    ensures SumUpTo(flows, trading, day) == 0.0
  {
    hide DayOf;
    if flows != [] { NothingBefore(flows[..|flows| - 1], trading, day); }
  }

  lemma {:induction false} RunningIsUpTo(flows: seq<Flow>, trading: bool, from: int, n: nat)
    requires forall i | 0 <= i < |flows| :: DayOf(flows[i].timestamp) >= from
    ensures RunningSum(Bucket(flows, trading), from, n) == SumUpTo(flows, trading, from + n - 1)
  {
    hide DayOf, Bucket, SumUpTo, SumOn;
    if n == 0 {
      NothingBefore(flows, trading, from - 1);
    } else {
      RunningIsUpTo(flows, trading, from, n - 1);
      BucketAt(flows, trading, from + n - 1);
      UpToGrows(flows, trading, from + n - 1);
    }
  }

  /** One point of the curve, on the flows themselves. */
  ghost predicate PointIsFlows(d: CurveDay, flows: seq<Flow>) {
    && d.tradingSol == SumOn(flows, true, d.date) && d.externalSol == SumOn(flows, false, d.date)
    && d.cumulativeSol == SumUpTo(flows, true, d.date)
    && d.cumulativeTotalSol == SumUpTo(flows, true, d.date) + SumUpTo(flows, false, d.date)
  }

  /**
   * The curve runs from the day of the earliest flow to the day of the latest, day by day; each point has
   * the flows of its day by kind, and the sums of all flows up to the end of that day.
   */
  lemma CurveIsFlows(flows: seq<Flow>, c: Curve)
    requires IsCurve(c, Bucket(flows, true), Bucket(flows, false))
    ensures c.days == [] <==> flows == []
    ensures c.days != [] ==>
              var first, last := c.days[0].date, c.days[|c.days| - 1].date;
              && (forall i | 0 <= i < |flows| :: first <= DayOf(flows[i].timestamp) <= last)
              && (exists i :: 0 <= i < |flows| && DayOf(flows[i].timestamp) == first)
              && (exists i :: 0 <= i < |flows| && DayOf(flows[i].timestamp) == last)
    ensures forall i | 0 <= i < |c.days| :: c.days[i].date == c.days[0].date + i && PointIsFlows(c.days[i], flows)
  {
    hide Bucket, DayOf, PointIsFlows, IsCurve, RunningSum;
    var t, e := Bucket(flows, true), Bucket(flows, false);
    DaysOfFlows(flows);
    if t.Keys + e.Keys != {} {
      var min, max := CurveBounds(c, t, e);
      forall i | 0 <= i < |c.days| ensures PointIsFlows(c.days[i], flows) { FilledIsFlows(flows, min, max, i); }
      forall i | 0 <= i < |flows| ensures min <= DayOf(flows[i].timestamp) <= max {
        assert DayOf(flows[i].timestamp) in t.Keys + e.Keys;
      }
    } else {
      NoCurve(c, t, e);
    }
  }

  lemma NoCurve(c: Curve, t: Amount, e: Amount)
    requires IsCurve(c, t, e) && t.Keys + e.Keys == {}
    ensures c.days == []
  {
  }

  /** The days with an amount are the days of the flows. */
  lemma DaysOfFlows(flows: seq<Flow>)
    ensures var days := Bucket(flows, true).Keys + Bucket(flows, false).Keys;
            && (days == {} <==> flows == [])
            && (forall i | 0 <= i < |flows| :: DayOf(flows[i].timestamp) in days)
            && (forall d | d in days :: exists i :: 0 <= i < |flows| && DayOf(flows[i].timestamp) == d)
  {
    hide Bucket, DayOf;
    BucketKeys(flows, true);
    BucketKeys(flows, false);
    var days := Bucket(flows, true).Keys + Bucket(flows, false).Keys;
    forall i | 0 <= i < |flows| ensures DayOf(flows[i].timestamp) in days {
      assert DayOf(flows[i].timestamp) in Bucket(flows, flows[i].isTrading);
    }
    SomeDay(days);
    if flows != [] { assert DayOf(flows[0].timestamp) in days; }
  }

  lemma FilledIsFlows(flows: seq<Flow>, min: int, max: int, i: nat)
    requires Spans(Bucket(flows, true).Keys + Bucket(flows, false).Keys, min, max) && min <= max && i < max - min + 1
    ensures PointIsFlows(Filled(Bucket(flows, true), Bucket(flows, false), min, max).days[i], flows)
  {
    DaysOfFlows(flows);
    hide Bucket, DayOf, SumOn, SumUpTo, RunningSum;
    BucketAt(flows, true, min + i);
    BucketAt(flows, false, min + i);
    RunningIsUpTo(flows, true, min, i + 1);
    RunningIsUpTo(flows, false, min, i + 1);
  }
}
