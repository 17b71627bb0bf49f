/**
 * How the engine builds its timelines: legs, buys and sells are grouped by mint, a position's legs all
 * under the mint of its first leg, and each group is sorted by time with inflows first.
 */
module FifoTimelines {
  import opened Options
  import opened StableSort
  import opened Fifo
  import opened FifoConservation
  import opened FifoAttribution
  import opened FifoMints

  type Mint = string

  const DEFAULT_DECIMALS := 9
  const LAMPORTS_PER_SOL := 1000000000.0

  /** What the engine reads of a SOL-paired pool: its other mint, which side is SOL, and its bin step. */
  datatype Pool = Pool(mint: Mint, solIsY: bool, binStep: nat)

  datatype Kind = DepositLeg | WithdrawLeg | ClaimLeg

  /** A stored leg with raw amounts, together with its pool. */
  datatype Leg = Leg(
    position: Address,
    pool: Pool,
    kind: Kind,
    activeBinId: int,
    amountX: nat,
    amountY: nat,
    blockTime: Option<int>)

  /** A persisted buy or sell. */
  datatype Flow = Flow(ts: int, mint: Mint, tokenAmount: real, sol: real)

  datatype History = History(legs: seq<Leg>, buys: seq<Flow>, sells: seq<Flow>, decimals: map<Mint, nat>)

  /** An event with its block time. */
  datatype Stamped = Stamped(ts: int, e: Event)

  function KindOrder(e: Event): nat {
    match e
    case Buy(_, _) => 0
    case Claim(_, _, _) => 1
    case Withdraw(_, _, _) => 2
    case Deposit(_, _, _) => 3
    case Sell(_, _) => 4
  }

  /** Time first, kind second. */
  function TimeKindKey(s: Stamped): int { 5 * s.ts + KindOrder(s.e) }

  // ----- one leg or flow becomes one event

  function Pow10(n: nat): (r: real)
    ensures r >= 1.0
  {
    if n == 0 then 1.0 else 10.0 * Pow10(n - 1)
  }

  function Human(raw: nat, decimals: nat): (r: real)
    ensures r >= 0.0
  {
    raw as real / Pow10(decimals)
  }

  function DecimalsOf(decimals: map<Mint, nat>, mint: Mint): nat {
    if mint in decimals then decimals[mint] else DEFAULT_DECIMALS
  }

  function LegSolAmount(l: Leg, m: Pool): real {
    (if m.solIsY then l.amountY else l.amountX) as real / LAMPORTS_PER_SOL
  }

  function LegQty(l: Leg, m: Pool, decimals: map<Mint, nat>): (r: real)
    ensures r >= 0.0
  {
    Human(if m.solIsY then l.amountX else l.amountY, DecimalsOf(decimals, m.mint))
  }

  function LegEvent(l: Leg, m: Pool, decimals: map<Mint, nat>): (s: Stamped)
    ensures IsLeg(s.e) && s.e.pos == l.position && ValidEvent(s.e)
  {
    var qty, sol := LegQty(l, m, decimals), LegSolAmount(l, m);
    Stamped(l.blockTime.GetOr(0),
            match l.kind
            case DepositLeg => Deposit(l.position, qty, sol)
            case WithdrawLeg => Withdraw(l.position, qty, sol)
            case ClaimLeg => Claim(l.position, qty, sol))
  }

  predicate Counts(f: Flow) { f.tokenAmount > 0.0 && f.sol > 0.0 }

  function FlowEvent(f: Flow, isBuy: bool): Stamped {
    Stamped(f.ts, if isBuy then Buy(f.tokenAmount, f.sol) else Sell(f.tokenAmount, f.sol))
  }

  // ----- grouping by mint

  /** Each position's pool: that of its first leg. */
  function Metas(legs: seq<Leg>): map<Address, Pool> {
    if legs == [] then map[]
    else
      var n := |legs| - 1;
      var before := Metas(legs[..n]);
      if legs[n].position in before then before else before[legs[n].position := legs[n].pool]
  }

  predicate IsOn(l: Leg, metas: map<Address, Pool>, mint: Mint) {
    l.position in metas && metas[l.position].mint == mint
  }

  /** The events of one mint's legs, in the order of the legs. */
  function LegsOn(legs: seq<Leg>, metas: map<Address, Pool>, decimals: map<Mint, nat>, mint: Mint): seq<Stamped> {
    if legs == [] then []
    else
      var n := |legs| - 1;
      var l := legs[n];
      LegsOn(legs[..n], metas, decimals, mint)
      + (if IsOn(l, metas, mint) then [LegEvent(l, metas[l.position], decimals)] else [])
  }

  function FlowsOn(flows: seq<Flow>, mint: Mint, isBuy: bool): seq<Stamped> {
    if flows == [] then []
    else
      var n := |flows| - 1;
      FlowsOn(flows[..n], mint, isBuy)
      + (if Counts(flows[n]) && flows[n].mint == mint then [FlowEvent(flows[n], isBuy)] else [])
  }

  /** The mints with a leg, in the order of their first legs. */
  function Mints(legs: seq<Leg>, metas: map<Address, Pool>): seq<Mint> {
    if legs == [] then []
    else
      var n := |legs| - 1;
      var before := Mints(legs[..n], metas);
      var p := legs[n].position;
      if p in metas && metas[p].mint !in before then before + [metas[p].mint] else before
  }

  function Unsorted(h: History, mint: Mint): seq<Stamped> {
    LegsOn(h.legs, Metas(h.legs), h.decimals, mint) + FlowsOn(h.buys, mint, true) + FlowsOn(h.sells, mint, false)
  }

  function Line(h: History, mint: Mint): seq<Stamped> {
    Sort(Unsorted(h, mint), TimeKindKey)
  }

  function Strip(line: seq<Stamped>): (evs: seq<Event>)
    ensures |evs| == |line|
  {
    seq(|line|, i requires 0 <= i < |line| => line[i].e)
  }

  function MintsOf(h: History): seq<Mint> { Mints(h.legs, Metas(h.legs)) }

  /** The timelines that the walk runs over, mint by mint. */
  function Timelines(h: History): (ts: seq<seq<Event>>)
    ensures |ts| == |MintsOf(h)|
  {
    seq(|MintsOf(h)|, k requires 0 <= k < |MintsOf(h)| => Strip(Line(h, MintsOf(h)[k])))
  }

  // ----- the construction as it runs, on a map from mint to event list

  type Groups = map<Mint, seq<Stamped>>

  function GroupOf(groups: Groups, mint: Mint): seq<Stamped> {
    if mint in groups then groups[mint] else []
  }

  function Push(groups: Groups, mint: Mint, s: Stamped): Groups {
    groups[mint := GroupOf(groups, mint) + [s]]
  }

  ghost predicate LegsGrouped(groups: Groups, order: seq<Mint>, legs: seq<Leg>, metas: map<Address, Pool>,
                              decimals: map<Mint, nat>) {
    && order == Mints(legs, metas)
    && (forall m :: m in groups <==> m in order)
    && forall m :: GroupOf(groups, m) == LegsOn(legs, metas, decimals, m)
  }

  lemma NothingGrouped(legs: seq<Leg>, metas: map<Address, Pool>, decimals: map<Mint, nat>)
    requires legs == []
    ensures LegsGrouped(map[], [], legs, metas, decimals)
  {
  }

  lemma GroupLegsStep(groups: Groups, order: seq<Mint>, legs: seq<Leg>, i: nat, metas: map<Address, Pool>,
                      decimals: map<Mint, nat>)
    requires i < |legs| && legs[i].position in metas && LegsGrouped(groups, order, legs[..i], metas, decimals)
    ensures var m := metas[legs[i].position];
            LegsGrouped(Push(groups, m.mint, LegEvent(legs[i], m, decimals)),
                        if m.mint in groups then order else order + [m.mint], legs[..i + 1], metas, decimals)
  {
    hide LegEvent, LegsOn;
    assert legs[..i + 1][..i] == legs[..i];
    var m := metas[legs[i].position];
    var s := LegEvent(legs[i], m, decimals);
    forall k ensures GroupOf(Push(groups, m.mint, s), k) == LegsOn(legs[..i + 1], metas, decimals, k) {
      LegsOnStep(legs, i, metas, decimals, k);
      assert GroupOf(groups, k) == LegsOn(legs[..i], metas, decimals, k);
    }
  }

  lemma LegsOnStep(legs: seq<Leg>, i: nat, metas: map<Address, Pool>, decimals: map<Mint, nat>, mint: Mint)
    requires i < |legs| && legs[i].position in metas
    ensures var m := metas[legs[i].position];
            LegsOn(legs[..i + 1], metas, decimals, mint)
            == LegsOn(legs[..i], metas, decimals, mint)
               + (if m.mint == mint then [LegEvent(legs[i], m, decimals)] else [])
  {
    assert legs[..i + 1][..i] == legs[..i];
  }

  method GroupLegs(legs: seq<Leg>, decimals: map<Mint, nat>) returns (groups: Groups, order: seq<Mint>)
    ensures LegsGrouped(groups, order, legs, Metas(legs), decimals)
  {
    hide LegEvent, LegsGrouped;
    var metas: map<Address, Pool> := map[];
    for i := 0 to |legs|
      invariant metas == Metas(legs[..i]) && forall j | 0 <= j < i :: legs[j].position in metas
    {
      assert legs[..i + 1][..i] == legs[..i];
      if legs[i].position !in metas {
        metas := metas[legs[i].position := legs[i].pool];
      }
    }
    assert legs[..|legs|] == legs;
    groups, order := map[], [];
    NothingGrouped(legs[..0], metas, decimals);
    for i := 0 to |legs|
      invariant LegsGrouped(groups, order, legs[..i], metas, decimals)
    {
      GroupLegsStep(groups, order, legs, i, metas, decimals);
      var m := metas[legs[i].position];
      if m.mint !in groups {
        order := order + [m.mint];
      }
      groups := Push(groups, m.mint, LegEvent(legs[i], m, decimals));
    }
  }

  ghost predicate FlowsGrouped(start: Groups, groups: Groups, flows: seq<Flow>, isBuy: bool) {
    groups.Keys == start.Keys && forall m | m in groups :: groups[m] == start[m] + FlowsOn(flows, m, isBuy)
  }

  lemma GroupFlowsStep(start: Groups, groups: Groups, flows: seq<Flow>, i: nat, isBuy: bool)
    requires i < |flows| && FlowsGrouped(start, groups, flows[..i], isBuy)
    ensures var f := flows[i];
            var next := if Counts(f) && f.mint in groups then Push(groups, f.mint, FlowEvent(f, isBuy)) else groups;
            FlowsGrouped(start, next, flows[..i + 1], isBuy)
  {
    hide FlowEvent, FlowsOn, Counts;
    var f := flows[i];
    var next := if Counts(f) && f.mint in groups then Push(groups, f.mint, FlowEvent(f, isBuy)) else groups;
    forall m | m in next ensures next[m] == start[m] + FlowsOn(flows[..i + 1], m, isBuy) {
      FlowsOnStep(flows, i, m, isBuy);
      assert groups[m] == start[m] + FlowsOn(flows[..i], m, isBuy);
    }
  }

  lemma FlowsOnStep(flows: seq<Flow>, i: nat, mint: Mint, isBuy: bool)
    requires i < |flows|
    ensures var f := flows[i];
            FlowsOn(flows[..i + 1], mint, isBuy)
            == FlowsOn(flows[..i], mint, isBuy) + (if Counts(f) && f.mint == mint then [FlowEvent(f, isBuy)] else [])
  {
    assert flows[..i + 1][..i] == flows[..i];
  }

  /** Buys and sells join the mints that have a leg; all other trading is left out. */
  method GroupFlows(start: Groups, flows: seq<Flow>, isBuy: bool) returns (groups: Groups)
    ensures FlowsGrouped(start, groups, flows, isBuy)
  {
    groups := start;
    for i := 0 to |flows|
      invariant FlowsGrouped(start, groups, flows[..i], isBuy)
    {
      GroupFlowsStep(start, groups, flows, i, isBuy);
      var f := flows[i];
      if Counts(f) && f.mint in groups {
        groups := Push(groups, f.mint, FlowEvent(f, isBuy));
      }
    }
    assert flows[..|flows|] == flows;
  }

  lemma GroupsAreUnsorted(h: History, legs: Groups, bought: Groups, sold: Groups, order: seq<Mint>)
    requires LegsGrouped(legs, order, h.legs, Metas(h.legs), h.decimals)
    requires FlowsGrouped(legs, bought, h.buys, true) && FlowsGrouped(bought, sold, h.sells, false)
    ensures order == MintsOf(h)
    ensures forall m | m in order :: m in sold && sold[m] == Unsorted(h, m)
  {
    hide LegsOn, FlowsOn, Metas, Mints;
    forall m | m in order ensures m in sold && sold[m] == Unsorted(h, m) {
      assert m in legs && m in bought && m in sold;
      assert legs[m] == GroupOf(legs, m);
    }
  }

  /** The grouping and sorting, as the engine does it before it walks. */
  method BuildTimelines(h: History) returns (order: seq<Mint>, timelines: seq<seq<Event>>)
    ensures order == MintsOf(h) && timelines == Timelines(h)
  {
    hide LegsGrouped, FlowsGrouped, Unsorted, MintsOf, TimeKindKey;
    var legs, bought, sold;
    legs, order := GroupLegs(h.legs, h.decimals);
    bought := GroupFlows(legs, h.buys, true);
    sold := GroupFlows(bought, h.sells, false);
    GroupsAreUnsorted(h, legs, bought, sold, order);
    timelines := [];
    for k := 0 to |order|
      invariant timelines == Timelines(h)[..k]
    {
      timelines := timelines + [Strip(Sort(sold[order[k]], TimeKindKey))];
    }
  }

  // ----- what one stored row becomes, on its raw fields

  lemma {:induction false} PowersOfTen(n: nat)
    ensures Pow10(0) == 1.0 && Pow10(n + 1) == 10.0 * Pow10(n)
    ensures Pow10(9) == 1000000000.0
  {
  }

  /**
   * A leg's event has its kind, position and time, its lamports from the SOL side of the pool, and its
   * tokens from the other side in units of 10 to the decimals of the mint.
   */
  lemma LegBecomes(l: Leg, m: Pool, decimals: map<Mint, nat>)
    ensures var s := LegEvent(l, m, decimals);
            && s.ts == (if l.blockTime.Some? then l.blockTime.value else 0)
            && (s.e.Deposit? <==> l.kind.DepositLeg?) && (s.e.Withdraw? <==> l.kind.WithdrawLeg?)
            && (s.e.Claim? <==> l.kind.ClaimLeg?) && IsLeg(s.e) && s.e.pos == l.position
            && s.e.sol * 1000000000.0 == (if m.solIsY then l.amountY else l.amountX) as real
            && IsTokenSide(s.e.qty, l, m, decimals)
  {
    hide LegQty, IsTokenSide;
    QtyIsTokenSide(l, m, decimals);
  }

  /** `qty` is the other side of the leg, in units of 10 to the decimals of the mint, 9 if they are unknown. */
  ghost predicate IsTokenSide(qty: real, l: Leg, m: Pool, decimals: map<Mint, nat>) {
    qty * Pow10(if m.mint in decimals then decimals[m.mint] else 9)
    == (if m.solIsY then l.amountX else l.amountY) as real
  }

  lemma QtyIsTokenSide(l: Leg, m: Pool, decimals: map<Mint, nat>)
    ensures IsTokenSide(LegQty(l, m, decimals), l, m, decimals)
  {
    hide Human, Pow10;
    HumanTimesPower(if m.solIsY then l.amountX else l.amountY, DecimalsOf(decimals, m.mint));
  }

  /** A flow's event has its time and amounts; flows without tokens or without SOL do not count. */
  lemma FlowBecomes(f: Flow, isBuy: bool)
    ensures FlowEvent(f, isBuy)
            == Stamped(f.ts, if isBuy then Buy(f.tokenAmount, f.sol) else Sell(f.tokenAmount, f.sol))
    ensures Counts(f) <==> f.tokenAmount > 0.0 && f.sol > 0.0
  {
  }

  lemma HumanTimesPower(raw: nat, decimals: nat)
    ensures Human(raw, decimals) * Pow10(decimals) == raw as real
  {
  }

  /** A position's pool is that of its first leg. */
  lemma {:induction false} MetaIsFirst(legs: seq<Leg>, p: Address)
    ensures p in Metas(legs) <==> exists i :: 0 <= i < |legs| && legs[i].position == p
    ensures p in Metas(legs) ==>
              exists i :: 0 <= i < |legs| && legs[i].position == p && Metas(legs)[p] == legs[i].pool
                          && forall j | 0 <= j < i :: legs[j].position != p
  {
    if legs != [] {
      var n := |legs| - 1;
      MetaIsFirst(legs[..n], p);
      if p in Metas(legs[..n]) {
        var i :| 0 <= i < n && legs[..n][i].position == p && Metas(legs[..n])[p] == legs[..n][i].pool
                 && forall j | 0 <= j < i :: legs[..n][j].position != p;
        assert legs[i] == legs[..n][i];
        assert forall j | 0 <= j < i :: legs[j] == legs[..n][j];
      } else {
        assert forall j | 0 <= j < n :: legs[..n][j] == legs[j];
      }
    }
  }

  /** The mints come in the order of their first legs: all legs before a mint's first are of earlier mints. */
  lemma {:induction false} MintsInOrder(legs: seq<Leg>, metas: map<Address, Pool>, k: nat)
    requires (forall l | l in legs :: l.position in metas) && k < |Mints(legs, metas)|
    ensures exists i :: 0 <= i < |legs| && metas[legs[i].position].mint == Mints(legs, metas)[k]
                        && forall j | 0 <= j < i :: metas[legs[j].position].mint in Mints(legs, metas)[..k]
  {
    var n := |legs| - 1;
    var before := Mints(legs[..n], metas);
    assert forall l | l in legs[..n] :: l in legs;
    if k < |before| {
      MintsInOrder(legs[..n], metas, k);
      var i :| 0 <= i < n && metas[legs[..n][i].position].mint == before[k]
               && forall j | 0 <= j < i :: metas[legs[..n][j].position].mint in before[..k];
      assert legs[i] == legs[..n][i] && Mints(legs, metas)[..k] == before[..k];
      assert forall j | 0 <= j < i :: legs[j] == legs[..n][j];
    } else {
      MintsCover(legs[..n], metas);
      assert Mints(legs, metas)[..k] == before;
      assert forall j | 0 <= j < n :: legs[j] in legs[..n];
    }
  }

  lemma {:induction false} MintsCover(legs: seq<Leg>, metas: map<Address, Pool>)
    requires forall l | l in legs :: l.position in metas
    ensures forall l | l in legs :: metas[l.position].mint in Mints(legs, metas)
  {
    if legs != [] {
      var n := |legs| - 1;
      assert forall l | l in legs[..n] :: l in legs;
      MintsCover(legs[..n], metas);
      assert legs == legs[..n] + [legs[n]];
    }
  }

  /** Rows of one second and kind keep their stored order: legs as loaded, then buys, then sells. */
  lemma StoredOrder(h: History, mint: Mint, k: int)
    ensures WithKey(Line(h, mint), TimeKindKey, k)
            == WithKey(LegsOn(h.legs, Metas(h.legs), h.decimals, mint) + FlowsOn(h.buys, mint, true)
                       + FlowsOn(h.sells, mint, false), TimeKindKey, k)
  {
    SortIsStable(Unsorted(h, mint), TimeKindKey, k);
  }

  // ----- what the timelines are

  /** Where an event of a mint's timeline comes from. */
  ghost predicate Belongs(h: History, mint: Mint, s: Stamped) {
    && ValidEvent(s.e)
    && (IsLeg(s.e) ==> s.e.pos in Metas(h.legs) && Metas(h.legs)[s.e.pos].mint == mint)
    && (s.e.Buy? ==> exists f :: f in h.buys && Counts(f) && f.mint == mint && s == FlowEvent(f, true))
  }

  lemma {:induction false} LegsBelong(h: History, n: nat, mint: Mint)
    requires n <= |h.legs|
    ensures forall s | s in LegsOn(h.legs[..n], Metas(h.legs), h.decimals, mint) :: Belongs(h, mint, s)
  {
    hide LegEvent, Metas;
    if n > 0 {
      assert h.legs[..n][..n - 1] == h.legs[..n - 1];
      LegsBelong(h, n - 1, mint);
    }
  }

  lemma {:induction false} FlowsBelong(h: History, flows: seq<Flow>, mint: Mint, isBuy: bool)
    requires isBuy ==> forall f | f in flows :: f in h.buys
    ensures forall s | s in FlowsOn(flows, mint, isBuy) :: Belongs(h, mint, s)
  {
    hide Metas;
    if flows != [] {
      var n := |flows| - 1;
      FlowsBelong(h, flows[..n], mint, isBuy);
      assert flows[n] in flows;
    }
  }

  lemma LineBelongs(h: History, mint: Mint)
    ensures forall s | s in Line(h, mint) :: Belongs(h, mint, s)
  {
    hide Metas, LegsOn, FlowsOn, Belongs;
    assert h.legs[..|h.legs|] == h.legs;
    LegsBelong(h, |h.legs|, mint);
    FlowsBelong(h, h.buys, mint, true);
    FlowsBelong(h, h.sells, mint, false);
    var xs := Unsorted(h, mint);
    SortSorts(xs, TimeKindKey);
    forall s | s in Line(h, mint) ensures Belongs(h, mint, s) {
      assert s in multiset(Line(h, mint)) && s in multiset(xs);
    }
  }

  /** Of two events of one second, `a` may come first: buys, claims, withdraws, deposits, sells. */
  predicate MayPrecede(a: Event, b: Event) {
    && (b.Buy? ==> a.Buy?)
    && (b.Claim? ==> a.Buy? || a.Claim?)
    && (b.Withdraw? ==> !a.Deposit? && !a.Sell?)
    && (b.Deposit? ==> !a.Sell?)
  }

  /** Inflows come before outflows: the timeline of a mint is ordered by time, and by kind within a second. */
  lemma TimelineOrder(h: History, mint: Mint, i: nat, j: nat)
    requires i < j < |Line(h, mint)|
    ensures var a, b := Line(h, mint)[i], Line(h, mint)[j];
            a.ts < b.ts || (a.ts == b.ts && MayPrecede(a.e, b.e))
  {
    hide Unsorted, Sort;
    SortSorts(Unsorted(h, mint), TimeKindKey);
    assert TimeKindKey(Line(h, mint)[i]) <= TimeKindKey(Line(h, mint)[j]);
  }

  lemma {:induction false} PositionsBelong(evs: seq<Event>, ps: set<Address>)
    requires forall e | e in evs && IsLeg(e) :: e.pos in ps
    ensures PositionsOf(evs) <= ps
  {
    if evs != [] { PositionsBelong(evs[..|evs| - 1], ps); }
  }

  ghost function PositionsOn(h: History, mint: Mint): set<Address> {
    set p | p in Metas(h.legs) && Metas(h.legs)[p].mint == mint
  }

  lemma {:induction false} MintsDiffer(legs: seq<Leg>, metas: map<Address, Pool>)
    ensures forall i, j | 0 <= i < j < |Mints(legs, metas)| :: Mints(legs, metas)[i] != Mints(legs, metas)[j]
  {
    if legs != [] { MintsDiffer(legs[..|legs| - 1], metas); }
  }

  lemma TimelineOf(h: History, k: nat)
    requires k < |Timelines(h)|
    ensures ValidTimeline(Timelines(h)[k])
    ensures PositionsOf(Timelines(h)[k]) <= PositionsOn(h, MintsOf(h)[k])
  {
    hide Line, Metas, MintsOf;
    var mint := MintsOf(h)[k];
    LineBelongs(h, mint);
    var evs := Timelines(h)[k];
    forall i | 0 <= i < |evs|
      ensures ValidEvent(evs[i]) && (IsLeg(evs[i]) ==> evs[i].pos in PositionsOn(h, mint))
    {
      assert Belongs(h, mint, Line(h, mint)[i]);
    }
    PositionsBelong(evs, PositionsOn(h, mint));
  }

  /** Whatever the history, every timeline is valid and no position has legs on two mints. */
  lemma TimelinesAreSeparate(h: History)
    ensures ValidTimelines(Timelines(h)) && Disjoint(Timelines(h))
  {
    hide Metas, Timelines, PositionsOf;
    MintsDiffer(h.legs, Metas(h.legs));
    var ts := Timelines(h);
    forall i | 0 <= i < |ts| ensures ValidTimeline(ts[i]) { TimelineOf(h, i); }
    forall i, j | 0 <= i < j < |ts| ensures PositionsOf(ts[i]) !! PositionsOf(ts[j]) {
      TimelineOf(h, i);
      TimelineOf(h, j);
      assert MintsOf(h)[i] != MintsOf(h)[j];
    }
  }

  // ----- the results of the walk, in terms of the history

  /** A lot is free, or costs no more than some counted buy of the mint. */
  ghost predicate PaidFor(h: History, mint: Mint, lot: Lot) {
    && lot.qty > 0.0
    && lot.costPerUnit >= 0.0
    && (lot.costPerUnit == 0.0
        || exists f :: f in h.buys && Counts(f) && f.mint == mint && lot.costPerUnit <= UnitPrice(f.sol, f.tokenAmount))
  }

  lemma LotsCostWhatWasPaid(h: History, eps: real, k: nat)
    requires eps >= 0.0 && k < |Timelines(h)|
    ensures ValidTimelines(Timelines(h))
    ensures forall lot | lot in WalkMints(Timelines(h), eps).1[k] :: PaidFor(h, MintsOf(h)[k], lot)
  {
    hide WalkMints, Line, PositionsOf, UnitPrice, AccWithin, AccOf, Metas, MintsOf;
    var evs, mint := Timelines(h)[k], MintsOf(h)[k];
    TimelinesAreSeparate(h);
    CostBasisBound(Timelines(h), eps, k);
    TopPriceIsHighest(evs);
    forall lot | lot in WalkMints(Timelines(h), eps).1[k] ensures PaidFor(h, mint, lot) {
      if lot.costPerUnit != 0.0 {
        var e :| e in evs && e.Buy? && UnitPrice(e.sol, e.qty) == TopPrice(evs);
        var i :| 0 <= i < |evs| && evs[i] == e;
        LineBelongs(h, mint);
        assert Belongs(h, mint, Line(h, mint)[i]);
      }
    }
  }

  /** The lamports a leg moves: out for a deposit, in for a withdraw or a claim, on the SOL side of the pool. */
  function Lamports(l: Leg, m: Pool): int {
    var amount := if m.solIsY then l.amountY else l.amountX;
    match l.kind
    case DepositLeg => -amount
    case WithdrawLeg => amount
    case ClaimLeg => amount
  }

  /** The cash flow of a position over the stored legs, in lamports. */
  function CashFlow(legs: seq<Leg>, metas: map<Address, Pool>, p: Address): int {
    if legs == [] then 0
    else
      var n := |legs| - 1;
      CashFlow(legs[..n], metas, p) + (if legs[n].position == p && p in metas then Lamports(legs[n], metas[p]) else 0)
  }

  // ----- sums over a timeline are sums over the stored rows

  /** The sum of a quantity of the events. */
  function SumOf(evs: seq<Event>, f: Event -> real): real {
    if evs == [] then 0.0 else SumOf(evs[..|evs| - 1], f) + f(evs[|evs| - 1])
  }

  /** The same sum over the stored legs of some mints. */
  function LegsIn(h: History, n: nat, ms: set<Mint>, f: Event -> real): real
    requires n <= |h.legs|
  {
    if n == 0 then 0.0
    else
      var l, metas := h.legs[n - 1], Metas(h.legs);
      LegsIn(h, n - 1, ms, f)
      + (if l.position in metas && metas[l.position].mint in ms
         then f(LegEvent(l, metas[l.position], h.decimals).e) else 0.0)
  }

  /** And over the counted flows of some mints. */
  function FlowsIn(flows: seq<Flow>, ms: set<Mint>, isBuy: bool, f: Event -> real): real {
    if flows == [] then 0.0
    else
      var n := |flows| - 1;
      FlowsIn(flows[..n], ms, isBuy, f)
      + (if flows[n].tokenAmount > 0.0 && flows[n].sol > 0.0 && flows[n].mint in ms
         then f(if isBuy then Buy(flows[n].tokenAmount, flows[n].sol) else Sell(flows[n].tokenAmount, flows[n].sol))
         else 0.0)
  }

  function StoredIn(h: History, ms: set<Mint>, f: Event -> real): real {
    LegsIn(h, |h.legs|, ms, f) + FlowsIn(h.buys, ms, true, f) + FlowsIn(h.sells, ms, false, f)
  }

  lemma SumAppend(xs: seq<Stamped>, s: Stamped, f: Event -> real)
    ensures SumOf(Strip(xs + [s]), f) == SumOf(Strip(xs), f) + f(s.e)
  {
    assert Strip(xs + [s])[..|xs|] == Strip(xs);
  }

  lemma SumOfNone(f: Event -> real)
    ensures SumOf(Strip([]), f) == 0.0
  {
  }

  lemma {:induction false} SumAdds(xs: seq<Stamped>, ys: seq<Stamped>, f: Event -> real)
    ensures SumOf(Strip(xs + ys), f) == SumOf(Strip(xs), f) + SumOf(Strip(ys), f)
  {
    hide Strip, SumOf;
    if ys == [] {
      SumOfNone(f);
      assert xs + ys == xs;
    } else {
      var n := |ys| - 1;
      SumAdds(xs, ys[..n], f);
      SumAppend(xs + ys[..n], ys[n], f);
      SumAppend(ys[..n], ys[n], f);
      assert xs + ys == xs + ys[..n] + [ys[n]] && ys == ys[..n] + [ys[n]];
    }
  }

  lemma {:induction false} InsertKeepsSum(xs: seq<Stamped>, s: Stamped, f: Event -> real)
    ensures SumOf(Strip(Insert(xs, s, TimeKindKey)), f) == SumOf(Strip(xs), f) + f(s.e)
  {
    hide Strip, SumOf, TimeKindKey;
    SumAppend(xs, s, f);
    var n := |xs| - 1;
    if xs != [] && TimeKindKey(xs[n]) > TimeKindKey(s) {
      InsertKeepsSum(xs[..n], s, f);
      SumAppend(Insert(xs[..n], s, TimeKindKey), xs[n], f);
      SumAppend(xs[..n], xs[n], f);
      assert xs == xs[..n] + [xs[n]];
    }
  }

  lemma {:induction false} SortKeepsSum(xs: seq<Stamped>, f: Event -> real)
    ensures SumOf(Strip(Sort(xs, TimeKindKey)), f) == SumOf(Strip(xs), f)
  {
    hide Strip, Insert, SumOf, TimeKindKey;
    if xs != [] {
      var n := |xs| - 1;
      SortKeepsSum(xs[..n], f);
      InsertKeepsSum(Sort(xs[..n], TimeKindKey), xs[n], f);
      SumAppend(xs[..n], xs[n], f);
      assert xs == xs[..n] + [xs[n]];
    }
  }

  lemma {:induction false} SumOfLegs(h: History, n: nat, mint: Mint, f: Event -> real)
    requires n <= |h.legs|
    ensures SumOf(Strip(LegsOn(h.legs[..n], Metas(h.legs), h.decimals, mint)), f) == LegsIn(h, n, {mint}, f)
  {
    hide Strip, SumOf, LegEvent, Metas;
    SumOfNone(f);
    if n > 0 {
      var l, metas := h.legs[n - 1], Metas(h.legs);
      SumOfLegs(h, n - 1, mint, f);
      assert h.legs[..n][..n - 1] == h.legs[..n - 1];
      var before := LegsOn(h.legs[..n - 1], metas, h.decimals, mint);
      if IsOn(l, metas, mint) {
        SumAppend(before, LegEvent(l, metas[l.position], h.decimals), f);
      } else {
        assert LegsOn(h.legs[..n], metas, h.decimals, mint) == before;
      }
    }
  }

  lemma {:induction false} SumOfFlows(flows: seq<Flow>, mint: Mint, isBuy: bool, f: Event -> real)
    ensures SumOf(Strip(FlowsOn(flows, mint, isBuy)), f) == FlowsIn(flows, {mint}, isBuy, f)
  {
    hide Strip, SumOf;
    SumOfNone(f);
    if flows != [] {
      var n := |flows| - 1;
      SumOfFlows(flows[..n], mint, isBuy, f);
      if Counts(flows[n]) && flows[n].mint == mint {
        SumAppend(FlowsOn(flows[..n], mint, isBuy), FlowEvent(flows[n], isBuy), f);
      } else {
        assert FlowsOn(flows, mint, isBuy) == FlowsOn(flows[..n], mint, isBuy);
      }
    }
  }

  /** Whatever is summed, grouping and sorting neither lose nor invent any of it. */
  lemma SumOfLine(h: History, mint: Mint, f: Event -> real)
    ensures SumOf(Strip(Line(h, mint)), f) == StoredIn(h, {mint}, f)
  {
    hide Strip, SumOf, Metas, LegsOn, FlowsOn, LegsIn, FlowsIn, Sort;
    var legs, buys := LegsOn(h.legs, Metas(h.legs), h.decimals, mint), FlowsOn(h.buys, mint, true);
    var sells := FlowsOn(h.sells, mint, false);
    SortKeepsSum(Unsorted(h, mint), f);
    SumAdds(legs + buys, sells, f);
    SumAdds(legs, buys, f);
    assert h.legs[..|h.legs|] == h.legs;
    SumOfLegs(h, |h.legs|, mint, f);
    SumOfFlows(h.buys, mint, true, f);
    SumOfFlows(h.sells, mint, false, f);
  }

  function LegSolOf(p: Address): Event -> real { (e: Event) => LegSol(e, p) }

  lemma {:induction false} LegSumIsSum(evs: seq<Event>, p: Address)
    ensures LegSum(evs, p) == SumOf(evs, LegSolOf(p))
  {
    hide LegSol;
    if evs != [] { LegSumIsSum(evs[..|evs| - 1], p); }
  }

  lemma {:induction false} CashFlowOfLegs(h: History, n: nat, p: Address)
    requires p in Metas(h.legs) && n <= |h.legs|
    ensures LegsIn(h, n, {Metas(h.legs)[p].mint}, LegSolOf(p)) * 1000000000.0
            == CashFlow(h.legs[..n], Metas(h.legs), p) as real
  {
    hide Metas, LegQty;
    if n > 0 {
      assert h.legs[..n][..n - 1] == h.legs[..n - 1];
      CashFlowOfLegs(h, n - 1, p);
    }
  }

  lemma {:induction false} NoCashFlowOfFlows(flows: seq<Flow>, ms: set<Mint>, isBuy: bool, p: Address)
    ensures FlowsIn(flows, ms, isBuy, LegSolOf(p)) == 0.0
  {
    if flows != [] { NoCashFlowOfFlows(flows[..|flows| - 1], ms, isBuy, p); }
  }

  lemma LegSumOfLine(h: History, p: Address)
    requires p in Metas(h.legs)
    ensures LegSum(Strip(Line(h, Metas(h.legs)[p].mint)), p) * 1000000000.0
            == CashFlow(h.legs, Metas(h.legs), p) as real
  {
    hide Strip, LegSum, CashFlow, Metas, Line, LegsIn, FlowsIn;
    var mint := Metas(h.legs)[p].mint;
    LegSumIsSum(Strip(Line(h, mint)), p);
    SumOfLine(h, mint, LegSolOf(p));
    assert h.legs[..|h.legs|] == h.legs;
    CashFlowOfLegs(h, |h.legs|, p);
    NoCashFlowOfFlows(h.buys, {mint}, true, p);
    NoCashFlowOfFlows(h.sells, {mint}, false, p);
  }

  /** Every position has an event on the timeline of its mint, and its mint has a timeline. */
  lemma {:induction false} PositionHasLine(legs: seq<Leg>, metas: map<Address, Pool>, decimals: map<Mint, nat>,
                                           p: Address)
    requires p in Metas(legs) && p in metas
    ensures metas[p].mint in Mints(legs, metas)
    ensures exists s :: s in LegsOn(legs, metas, decimals, metas[p].mint) && IsLeg(s.e) && s.e.pos == p
  {
    hide LegEvent;
    var n := |legs| - 1;
    if legs[n].position == p {
      assert LegEvent(legs[n], metas[p], decimals) in LegsOn(legs, metas, decimals, metas[p].mint);
    } else {
      PositionHasLine(legs[..n], metas, decimals, p);
      var s :| s in LegsOn(legs[..n], metas, decimals, metas[p].mint) && IsLeg(s.e) && s.e.pos == p;
      assert s in LegsOn(legs, metas, decimals, metas[p].mint);
    }
  }

  lemma {:induction false} LegIsAmongPositions(evs: seq<Event>, i: nat)
    requires i < |evs| && IsLeg(evs[i])
    ensures evs[i].pos in PositionsOf(evs)
  {
    if i < |evs| - 1 { LegIsAmongPositions(evs[..|evs| - 1], i); }
  }

  lemma SortedHolds(xs: seq<Stamped>, s: Stamped)
    requires s in xs
    ensures s in Sort(xs, TimeKindKey)
  {
    hide Sort;
    SortSorts(xs, TimeKindKey);
    assert s in multiset(xs) && s in multiset(Sort(xs, TimeKindKey));
  }

  lemma PositionIsOnLine(h: History, p: Address)
    requires p in Metas(h.legs)
    ensures p in PositionsOf(Strip(Line(h, Metas(h.legs)[p].mint)))
  {
    hide LegsOn, FlowsOn, Metas, PositionsOf, TimeKindKey;
    var mint := Metas(h.legs)[p].mint;
    PositionHasLine(h.legs, Metas(h.legs), h.decimals, p);
    var s :| s in LegsOn(h.legs, Metas(h.legs), h.decimals, mint) && IsLeg(s.e) && s.e.pos == p;
    SortedHolds(Unsorted(h, mint), s);
    hide Line, Unsorted, Strip;
    var i :| 0 <= i < |Line(h, mint)| && Line(h, mint)[i] == s;
    LegIsAmongPositions(Strip(Line(h, mint)), i);
  }

  /** Over the whole wallet, a position's SOL leg is the lamports of its own stored legs, on the SOL side. */
  lemma SolLegIsStoredCashFlow(h: History, eps: real, p: Address)
    requires eps >= 0.0 && p in Metas(h.legs) && p != ""
    ensures ValidTimelines(Timelines(h))
    ensures AccOf(WalkMints(Timelines(h), eps).0, p).solLeg * 1000000000.0
            == CashFlow(h.legs, Metas(h.legs), p) as real
  {
    hide LegsOn, FlowsOn, Metas, Mints, PositionsOf, Line, Strip, WalkMints, AccOf, CashFlow;
    PositionHasLine(h.legs, Metas(h.legs), h.decimals, p);
    var k :| 0 <= k < |MintsOf(h)| && MintsOf(h)[k] == Metas(h.legs)[p].mint;
    PositionIsOnLine(h, p);
    LegSumOfLine(h, p);
    TimelinesAreSeparate(h);
    SolLegIsCashFlow(Timelines(h), eps, k, p);
  }
}
