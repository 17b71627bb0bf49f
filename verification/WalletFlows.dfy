/**
 * The raw flow table and its daily rollup. A flow is stored once per (wallet, signature), and each
 * committed chunk adds its genuinely new rows to the rollup row of their UTC day.
 */
module WalletFlows {
  import opened MapTotals

  type Wallet = string
  type Sig = string

  const DAY_SEC := 86400
  const CHUNK := 1000

  datatype Flow = Flow(signature: Sig, timestamp: int, solFlow: real, isTrading: bool)

  datatype Row = Row(ts: int, solFlow: real, isTrading: bool)

  datatype DayFlow = DayFlow(trading: real, external: real)

  type RawTable = map<(Wallet, Sig), Row>
  type DailyTable = map<(Wallet, int), DayFlow>

  datatype Db = Db(raw: RawTable, daily: DailyTable)

  const NO_FLOW := DayFlow(0.0, 0.0)

  /** `Math.floor(ts / 86_400)`: Dafny's division floors for a positive divisor. */
  function DayOf(ts: int): int { ts / DAY_SEC }

  /** The day of a timestamp is the one whose 86,400 seconds it lies in, before 1970 as well. */
  lemma DayHolds(ts: int)
    ensures 86400 * DayOf(ts) <= ts < 86400 * (DayOf(ts) + 1)
  {
  }

  function RowOf(f: Flow): Row { Row(f.timestamp, f.solFlow, f.isTrading) }

  function Plus(d: DayFlow, r: Row): DayFlow {
    if r.isTrading then d.(trading := d.trading + r.solFlow) else d.(external := d.external + r.solFlow)
  }

  function Sum(x: DayFlow, y: DayFlow): DayFlow { DayFlow(x.trading + y.trading, x.external + y.external) }

  function DailyOf(daily: DailyTable, w: Wallet, day: int): DayFlow {
    if (w, day) in daily then daily[(w, day)] else NO_FLOW
  }

  // ----- one flow at a time: the meaning of an upsert

  function AddFlow(db: Db, w: Wallet, f: Flow): Db {
    if (w, f.signature) in db.raw then db
    else
      Db(db.raw[(w, f.signature) := RowOf(f)],
         db.daily[(w, DayOf(f.timestamp)) := Plus(DailyOf(db.daily, w, DayOf(f.timestamp)), RowOf(f))])
  }

  function AddAll(db: Db, w: Wallet, flows: seq<Flow>): Db {
    if flows == [] then db else AddFlow(AddAll(db, w, flows[..|flows| - 1]), w, flows[|flows| - 1])
  }

  lemma {:induction false} AddAllAppends(db: Db, w: Wallet, xs: seq<Flow>, ys: seq<Flow>)
    ensures AddAll(db, w, xs + ys) == AddAll(AddAll(db, w, xs), w, ys)
  {
    hide AddFlow;
    if ys == [] {
      assert xs + ys == xs;
    } else {
      AddAllAppends(db, w, xs, ys[..|ys| - 1]);
      assert (xs + ys)[..|xs + ys| - 1] == xs + ys[..|ys| - 1];
    }
  }

  /**
   * What a batch leaves in the raw table: rows that are there stay, and a new key gets the fields of the
   * first flow of the batch that has it.
   */
  lemma {:induction false} FirstFlowIsStored(db: Db, w: Wallet, flows: seq<Flow>, v: Wallet, sig: Sig)
    ensures var raw := AddAll(db, w, flows).raw;
            if (v, sig) in db.raw then (v, sig) in raw && raw[(v, sig)] == db.raw[(v, sig)]
            else if v == w && exists i :: 0 <= i < |flows| && flows[i].signature == sig
            then (v, sig) in raw && IsFirst(flows, sig, raw[(v, sig)])
            else (v, sig) !in raw
  {
    if flows != [] {
      var k := |flows| - 1;
      FirstFlowIsStored(db, w, flows[..k], v, sig);
      if (v, sig) !in db.raw && v == w { FirstGrows(flows, sig, AddAll(db, w, flows[..k]).raw); }
    }
  }

  ghost predicate IsFirst(flows: seq<Flow>, sig: Sig, row: Row) {
    exists i :: 0 <= i < |flows| && flows[i].signature == sig
                && row == Row(flows[i].timestamp, flows[i].solFlow, flows[i].isTrading)
                && forall j | 0 <= j < i :: flows[j].signature != sig
  }

  lemma FirstGrows(flows: seq<Flow>, sig: Sig, raw: RawTable)
    requires flows != []
    ensures var k := |flows| - 1;
            && (forall row | IsFirst(flows[..k], sig, row) :: IsFirst(flows, sig, row))
            && ((exists i :: 0 <= i < k && flows[..k][i].signature == sig) ==>
                  exists i :: 0 <= i < |flows| && flows[i].signature == sig)
            && (!(exists i :: 0 <= i < k && flows[..k][i].signature == sig) ==>
                  (flows[k].signature == sig ==> IsFirst(flows, sig, RowOf(flows[k])))
                  && (flows[k].signature != sig ==> !exists i :: 0 <= i < |flows| && flows[i].signature == sig))
  {
    var k := |flows| - 1;
    assert forall i | 0 <= i < k :: flows[..k][i] == flows[i];
    forall row | IsFirst(flows[..k], sig, row) ensures IsFirst(flows, sig, row) {
      var i :| 0 <= i < k && flows[..k][i].signature == sig
               && row == Row(flows[..k][i].timestamp, flows[..k][i].solFlow, flows[..k][i].isTrading)
               && forall j | 0 <= j < i :: flows[..k][j].signature != sig;
      assert flows[i].signature == sig;
    }
  }

  // ----- a chunk as the transaction runs it: insert, group the new rows by day, add to the rollup

  /** The rows that `RETURNING` yields: those whose key was not taken, not even earlier in the chunk. */
  function Inserted(raw: RawTable, w: Wallet, flows: seq<Flow>): seq<Row> {
    if flows == [] then []
    else
      var k := |flows| - 1;
      Inserted(raw, w, flows[..k])
      + (if (w, flows[k].signature) in RawAfter(raw, w, flows[..k]) then [] else [RowOf(flows[k])])
  }

  function RawAfter(raw: RawTable, w: Wallet, flows: seq<Flow>): RawTable {
    if flows == [] then raw
    else
      var k := |flows| - 1;
      var before := RawAfter(raw, w, flows[..k]);
      if (w, flows[k].signature) in before then before else before[(w, flows[k].signature) := RowOf(flows[k])]
  }

  type ByDay = map<int, DayFlow>

  function DayIn(byDay: ByDay, day: int): DayFlow {
    if day in byDay then byDay[day] else NO_FLOW
  }

  function Group(rows: seq<Row>): ByDay {
    if rows == [] then map[]
    else
      var k := |rows| - 1;
      var day := DayOf(rows[k].ts);
      Group(rows[..k])[day := Plus(DayIn(Group(rows[..k]), day), rows[k])]
  }

  /** `ON CONFLICT DO UPDATE SET trading = trading + excluded.trading`, for one wallet's days. */
  function AddDays(daily: DailyTable, w: Wallet, byDay: ByDay): DailyTable {
    map k | k in daily.Keys + (set d | d in byDay :: (w, d)) ::
      if k.0 == w && k.1 in byDay then Sum(DailyOf(daily, w, k.1), byDay[k.1]) else daily[k]
  }

  lemma PlusOfSum(x: DayFlow, y: DayFlow, r: Row)
    ensures Sum(x, Plus(y, r)) == Plus(Sum(x, y), r) && Sum(x, NO_FLOW) == x && Sum(NO_FLOW, y) == y
  {
  }

  lemma AddDaysAt(daily: DailyTable, w: Wallet, byDay: ByDay, day: int)
    ensures DailyOf(AddDays(daily, w, byDay), w, day) == Sum(DailyOf(daily, w, day), DayIn(byDay, day))
  {
    PlusOfSum(DailyOf(daily, w, day), DayIn(byDay, day), Row(0, 0.0, true));
    hide Sum, Plus;
  }

  lemma AddDaysOne(daily: DailyTable, w: Wallet, byDay: ByDay, day: int, r: Row)
    ensures AddDays(daily, w, byDay[day := Plus(DayIn(byDay, day), r)])
            == AddDays(daily, w, byDay)[(w, day) := Plus(DailyOf(AddDays(daily, w, byDay), w, day), r)]
  {
    hide Sum, Plus;
    var l := AddDays(daily, w, byDay[day := Plus(DayIn(byDay, day), r)]);
    var m := AddDays(daily, w, byDay);
    AddDaysAt(daily, w, byDay, day);
    PlusOfSum(DailyOf(daily, w, day), DayIn(byDay, day), r);
    assert l.Keys == m.Keys + {(w, day)};
  }

  /** A chunk does to both tables what adding its flows one by one does. */
  lemma {:induction false} ChunkIsAddAll(db: Db, w: Wallet, flows: seq<Flow>)
    ensures AddAll(db, w, flows)
            == Db(RawAfter(db.raw, w, flows), AddDays(db.daily, w, Group(Inserted(db.raw, w, flows))))
  {
    hide AddDays, Plus;
    if flows == [] {
      AddNoDays(db.daily, w);
    } else {
      var k := |flows| - 1;
      ChunkIsAddAll(db, w, flows[..k]);
      var rows := Inserted(db.raw, w, flows[..k]);
      var r := RowOf(flows[k]);
      assert (rows + [r])[..|rows|] == rows && rows + [] == rows;
      AddDaysOne(db.daily, w, Group(rows), DayOf(r.ts), r);
    }
  }

  lemma AddNoDays(daily: DailyTable, w: Wallet)
    ensures AddDays(daily, w, map[]) == daily
  {
  }

  // ----- the repository

  class WalletFlowRepository {
    var raw: RawTable
    var daily: DailyTable

    ghost function Tables(): Db
      reads this
    {
      Db(raw, daily)
    }

    constructor ()
      ensures Tables() == Db(map[], map[])
    {
      raw, daily := map[], map[];
    }

    method GroupByDay(rows: seq<Row>) returns (byDay: ByDay)
      ensures byDay == Group(rows)
    {
      hide Plus;
      byDay := map[];
      for i := 0 to |rows|
        invariant byDay == Group(rows[..i])
      {
        assert rows[..i + 1][..i] == rows[..i];
        var day := DayOf(rows[i].ts);
        byDay := byDay[day := Plus(DayIn(byDay, day), rows[i])];
      }
      assert rows[..|rows|] == rows;
    }

    method InsertRows(wallet: Wallet, chunk: seq<Flow>) returns (inserted: seq<Row>)
      modifies this`raw
      ensures raw == RawAfter(old(raw), wallet, chunk) && inserted == Inserted(old(raw), wallet, chunk)
    {
      inserted := [];
      for i := 0 to |chunk|
        invariant raw == RawAfter(old(raw), wallet, chunk[..i])
        invariant inserted == Inserted(old(raw), wallet, chunk[..i])
      {
        assert chunk[..i + 1][..i] == chunk[..i];
        if (wallet, chunk[i].signature) !in raw {
          raw := raw[(wallet, chunk[i].signature) := RowOf(chunk[i])];
          inserted := inserted + [RowOf(chunk[i])];
        }
      }
      assert chunk[..|chunk|] == chunk;
    }

    /** One transaction: both tables change, or neither. */
    method CommitChunk(wallet: Wallet, chunk: seq<Flow>)
      modifies this
      ensures Tables() == AddAll(old(Tables()), wallet, chunk)
    {
      ChunkIsAddAll(Tables(), wallet, chunk);
      hide AddAll, RawAfter, Inserted, AddDays;
      var inserted := InsertRows(wallet, chunk);
      if |inserted| == 0 {
        AddNoDays(daily, wallet);
        return;
      }
      var byDay := GroupByDay(inserted);
      daily := AddDays(daily, wallet, byDay);
    }

    /** Store a batch chunk by chunk; only the first `commits` transactions go through. */
    method UpsertFlows(wallet: Wallet, flows: seq<Flow>, commits: nat)
      modifies this
      ensures var n := if commits * 1000 < |flows| then commits * 1000 else |flows|;
              Tables() == AddAll(old(Tables()), wallet, flows[..n])
    {
      var i := 0;
      var done := 0;
      while i < |flows| && done < commits
        invariant 0 <= i <= |flows| && done <= commits
        invariant i == if done * CHUNK < |flows| then done * CHUNK else |flows|
        invariant Tables() == AddAll(old(Tables()), wallet, flows[..i])
      {
        var next := if i + CHUNK < |flows| then i + CHUNK else |flows|;
        AddAllAppends(old(Tables()), wallet, flows[..i], flows[i..next]);
        assert flows[..i] + flows[i..next] == flows[..next];
        CommitChunk(wallet, flows[i..next]);
        i, done := next, done + 1;
      }
    }
  }

  // ----- the rollup is the aggregate of the raw rows

  /** The amounts of the wallet's rows of one day and one kind, by key. */
  ghost function Amounts(raw: RawTable, w: Wallet, day: int, trading: bool): map<(Wallet, Sig), real> {
    map k | k in raw && k.0 == w && DayOf(raw[k].ts) == day && raw[k].isTrading == trading :: raw[k].solFlow
  }

  ghost predicate HasDay(raw: RawTable, w: Wallet, day: int) {
    exists k :: k in raw && k.0 == w && DayOf(raw[k].ts) == day
  }

  ghost function Aggregate(raw: RawTable, w: Wallet, day: int): DayFlow {
    DayFlow(Total(Amounts(raw, w, day, true)), Total(Amounts(raw, w, day, false)))
  }

  /** Every rollup row is the aggregate of its day, and there is one exactly for the days with flows. */
  ghost predicate Agrees(db: Db) {
    forall w, day ::
      && ((w, day) in db.daily <==> HasDay(db.raw, w, day))
      && DailyOf(db.daily, w, day) == Aggregate(db.raw, w, day)
  }

  lemma AmountsGrow(raw: RawTable, w: Wallet, f: Flow, v: Wallet, day: int, trading: bool)
    requires (w, f.signature) !in raw
    ensures var raw' := raw[(w, f.signature) := RowOf(f)];
            Amounts(raw', v, day, trading)
            == if v == w && day == DayOf(f.timestamp) && trading == f.isTrading
               then Amounts(raw, v, day, trading)[(w, f.signature) := f.solFlow]
               else Amounts(raw, v, day, trading)
  {
  }

  lemma AggregateGrows(raw: RawTable, w: Wallet, f: Flow, v: Wallet, day: int)
    requires (w, f.signature) !in raw
    ensures Aggregate(raw[(w, f.signature) := RowOf(f)], v, day)
            == if v == w && day == DayOf(f.timestamp) then Plus(Aggregate(raw, v, day), RowOf(f))
               else Aggregate(raw, v, day)
  {
    hide Amounts;
    AmountsGrow(raw, w, f, v, day, true);
    AmountsGrow(raw, w, f, v, day, false);
    var m := Amounts(raw, v, day, f.isTrading);
    KeyAbsent(raw, w, f, v, day);
    TotalUpdate(m, (w, f.signature), f.solFlow);
  }

  lemma KeyAbsent(raw: RawTable, w: Wallet, f: Flow, v: Wallet, day: int)
    requires (w, f.signature) !in raw
    ensures (w, f.signature) !in Amounts(raw, v, day, f.isTrading)
  {
  }

  lemma AddFlowAgrees(db: Db, w: Wallet, f: Flow)
    requires Agrees(db)
    ensures Agrees(AddFlow(db, w, f))
  {
    hide Aggregate, Plus;
    var k := (w, f.signature);
    if k !in db.raw {
      var db' := AddFlow(db, w, f);
      forall v, day
        ensures (v, day) in db'.daily <==> HasDay(db'.raw, v, day)
        ensures DailyOf(db'.daily, v, day) == Aggregate(db'.raw, v, day)
      {
        AggregateGrows(db.raw, w, f, v, day);
        assert (v, day) in db.daily <==> HasDay(db.raw, v, day);
        assert DailyOf(db.daily, v, day) == Aggregate(db.raw, v, day);
        if HasDay(db.raw, v, day) {
          var j :| j in db.raw && j.0 == v && DayOf(db.raw[j].ts) == day;
          assert j in db'.raw && db'.raw[j] == db.raw[j];
        }
        if v == w && day == DayOf(f.timestamp) { assert k in db'.raw && db'.raw[k] == RowOf(f); }
      }
    }
  }

  /** Committed chunks of any batches, overlapping or repeated, for any wallets. */
  function Batches(db: Db, bs: seq<(Wallet, seq<Flow>)>): Db {
    if bs == [] then db else AddAll(Batches(db, bs[..|bs| - 1]), bs[|bs| - 1].0, bs[|bs| - 1].1)
  }

  lemma {:induction false} AddAllAgrees(db: Db, w: Wallet, flows: seq<Flow>)
    requires Agrees(db)
    ensures Agrees(AddAll(db, w, flows))
  {
    hide Agrees, AddFlow;
    if flows != [] {
      AddAllAgrees(db, w, flows[..|flows| - 1]);
      AddFlowAgrees(AddAll(db, w, flows[..|flows| - 1]), w, flows[|flows| - 1]);
    }
  }

  /** After any sequence of committed batches the rollup equals the aggregate of the raw rows. */
  lemma {:induction false} RollupAgrees(bs: seq<(Wallet, seq<Flow>)>)
    ensures Agrees(Batches(Db(map[], map[]), bs))
  {
    hide AddAll, Agrees;
    if bs == [] {
      EmptyAgrees();
    } else {
      var k := |bs| - 1;
      RollupAgrees(bs[..k]);
      AddAllAgrees(Batches(Db(map[], map[]), bs[..k]), bs[k].0, bs[k].1);
    }
  }

  lemma EmptyAgrees()
    ensures Agrees(Db(map[], map[]))
  {
    forall w, day ensures Aggregate(map[], w, day) == NO_FLOW {
      assert Amounts(map[], w, day, true) == map[] && Amounts(map[], w, day, false) == map[];
    }
  }

  /** Storing a batch again, in whole or in part, changes nothing. */
  lemma {:induction false} RepeatIsNoOp(db: Db, w: Wallet, flows: seq<Flow>)
    requires forall i | 0 <= i < |flows| :: (w, flows[i].signature) in db.raw
    ensures AddAll(db, w, flows) == db
  {
    if flows != [] { RepeatIsNoOp(db, w, flows[..|flows| - 1]); }
  }

  // ----- rebuilding the rollup from the raw rows

  /** Postgres's integer division truncates towards zero. */
  function TruncDay(ts: int): int {
    if ts >= 0 then ts / DAY_SEC else -((-ts) / DAY_SEC)
  }

  /** Before 1970 it is the day after, unless the timestamp is a midnight. */
  lemma TruncHolds(ts: int)
    ensures var d := TruncDay(ts);
            if ts >= 0 then 86400 * d <= ts < 86400 * (d + 1) else 86400 * (d - 1) < ts <= 86400 * d
  {
  }

  ghost function TruncAmounts(raw: RawTable, w: Wallet, day: int, trading: bool): map<(Wallet, Sig), real> {
    map k | k in raw && k.0 == w && TruncDay(raw[k].ts) == day && raw[k].isTrading == trading :: raw[k].solFlow
  }

  /** Overwrite the rollup row of every group of the raw rows; rows of other days stay. */
  ghost function Rebuild(db: Db): Db {
    var groups := set k | k in db.raw :: (k.0, TruncDay(db.raw[k].ts));
    Db(db.raw, map k | k in db.daily.Keys + groups ::
         if k in groups then
           DayFlow(Total(TruncAmounts(db.raw, k.0, k.1, true)), Total(TruncAmounts(db.raw, k.0, k.1, false)))
         else db.daily[k])
  }

  predicate WholeDay(ts: int) { ts >= 0 || ts % DAY_SEC == 0 }

  lemma TruncIsFloor(ts: int)
    ensures TruncDay(ts) == DayOf(ts) <==> WholeDay(ts)
  {
  }

  lemma SameAmounts(raw: RawTable, w: Wallet, day: int, trading: bool)
    requires forall k | k in raw :: WholeDay(raw[k].ts)
    ensures TruncAmounts(raw, w, day, trading) == Amounts(raw, w, day, trading)
  {
    forall k | k in raw ensures TruncDay(raw[k].ts) == DayOf(raw[k].ts) {
      TruncIsFloor(raw[k].ts);
    }
  }

  /** On timestamps from 1970 on, a rebuild of a rollup kept by upserts changes nothing. */
  lemma RebuildIsNoOp(db: Db)
    requires Agrees(db) && forall k | k in db.raw :: WholeDay(db.raw[k].ts)
    ensures Rebuild(db) == db
  {
    hide Amounts, TruncAmounts, DayOf, TruncDay, WholeDay;
    forall k | k in db.raw ensures TruncDay(db.raw[k].ts) == DayOf(db.raw[k].ts) {
      TruncIsFloor(db.raw[k].ts);
    }
    var b := Rebuild(db).daily;
    forall k ensures k in b <==> k in db.daily {
      assert (k.0, k.1) in db.daily <==> HasDay(db.raw, k.0, k.1);
    }
    forall k | k in b ensures b[k] == db.daily[k] {
      SameAmounts(db.raw, k.0, k.1, true);
      SameAmounts(db.raw, k.0, k.1, false);
      assert DailyOf(db.daily, k.0, k.1) == Aggregate(db.raw, k.0, k.1);
    }
  }

  /** The same flows with possibly other amounts. */
  ghost predicate SameFlows(raw: RawTable, raw': RawTable) {
    raw.Keys == raw'.Keys && forall k | k in raw :: raw'[k].ts == raw[k].ts && raw'[k].isTrading == raw[k].isTrading
  }

  lemma {:induction false} TotalOfZeros<K>(m: map<K, real>)
    requires forall k | k in m :: m[k] == 0.0
    ensures Total(m) == 0.0
  {
    if m != map[] {
      var k :| k in m;
      TotalPick(m, k);
      TotalOfZeros(m - {k});
    }
  }

  /** The rollup that upserts would have left for some raw rows. */
  ghost function AgreeingDaily(raw: RawTable): (daily: DailyTable)
    ensures Agrees(Db(raw, daily))
  {
    var daily := map k | k in set j | j in raw :: (j.0, DayOf(raw[j].ts)) :: Aggregate(raw, k.0, k.1);
    assert forall w, day | !HasDay(raw, w, day) :: Aggregate(raw, w, day) == NO_FLOW by {
      forall w, day | !HasDay(raw, w, day) ensures Aggregate(raw, w, day) == NO_FLOW {
        assert Amounts(raw, w, day, true) == map[] && Amounts(raw, w, day, false) == map[];
      }
    }
    daily
  }

  /** The flows with amount 1 for one of them and 0 for all others. */
  function OnlyOne(raw: RawTable, k: (Wallet, Sig)): RawTable {
    map j | j in raw :: raw[j].(solFlow := if j == k then 1.0 else 0.0)
  }

  lemma OnlyOneSums(raw: RawTable, k: (Wallet, Sig))
    requires k in raw && !WholeDay(raw[k].ts)
    ensures var day, trading := TruncDay(raw[k].ts), raw[k].isTrading;
            && Total(TruncAmounts(OnlyOne(raw, k), k.0, day, trading)) == 1.0
            && Total(Amounts(OnlyOne(raw, k), k.0, day, trading)) == 0.0
  {
    TruncIsFloor(raw[k].ts);
    hide DayOf, TruncDay, WholeDay, Total;
    var m := TruncAmounts(OnlyOne(raw, k), k.0, TruncDay(raw[k].ts), raw[k].isTrading);
    TotalPick(m, k);
    TotalOfZeros(m - {k});
    TotalOfZeros(Amounts(OnlyOne(raw, k), k.0, TruncDay(raw[k].ts), raw[k].isTrading));
  }

  /** One flow before 1970 off midnight breaks the agreement for some amounts. */
  lemma RebuildBreaks(raw: RawTable, k: (Wallet, Sig)) returns (db: Db)
    requires k in raw && !WholeDay(raw[k].ts)
    ensures SameFlows(raw, db.raw) && Agrees(db) && Rebuild(db) != db
  {
    hide Agrees, Rebuild, Total, Amounts, TruncAmounts, WholeDay, TruncDay;
    var raw' := OnlyOne(raw, k);
    db := Db(raw', AgreeingDaily(raw'));
    OnlyOneSums(raw, k);
    RebuiltRow(db, k, TruncDay(raw[k].ts));
    AgreedRow(db, k.0, TruncDay(raw[k].ts));
  }

  lemma RebuiltRow(db: Db, k: (Wallet, Sig), day: int)
    requires k in db.raw && day == TruncDay(db.raw[k].ts)
    ensures DailyOf(Rebuild(db).daily, k.0, day)
            == DayFlow(Total(TruncAmounts(db.raw, k.0, day, true)), Total(TruncAmounts(db.raw, k.0, day, false)))
  {
    hide Total, TruncAmounts, TruncDay;
    assert (k.0, day) in Rebuild(db).daily;
  }

  lemma AgreedRow(db: Db, w: Wallet, day: int)
    requires Agrees(db)
    ensures DailyOf(db.daily, w, day) == Aggregate(db.raw, w, day)
  {
  }

  /** A rebuild is a no-op whatever the amounts if and only if no timestamp lies before 1970 off midnight. */
  lemma RebuildExactly(raw: RawTable)
    ensures (forall db: Db | SameFlows(raw, db.raw) && Agrees(db) :: Rebuild(db) == db)
            <==> forall k | k in raw :: WholeDay(raw[k].ts)
  {
    hide Agrees, Rebuild, WholeDay;
    if forall k | k in raw :: WholeDay(raw[k].ts) {
      forall db: Db | SameFlows(raw, db.raw) && Agrees(db) ensures Rebuild(db) == db {
        RebuildIsNoOp(db);
      }
    } else {
      var k :| k in raw && !WholeDay(raw[k].ts);
      var db := RebuildBreaks(raw, k);
    }
  }
}
