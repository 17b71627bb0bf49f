/**
 * The greedy matching sells as many residual tokens of a mint as any matching could. The proof exhibits
 * a cut: a set of exhausted lots that bounds every assignment and that the greedy run fills.
 */
module ResidualOptimal {
  import opened StableSort
  import opened Residual
  import opened ResidualLedger

  // ----- assignments

  /** Entry [p][l]: tokens of lot l given to position p. */
  type Assignment = seq<seq<real>>

  function RowSum(row: seq<real>): real {
    if row == [] then 0.0 else RowSum(row[..|row| - 1]) + row[|row| - 1]
  }

  function Column(g: Assignment, l: nat): real
    requires forall p | 0 <= p < |g| :: l < |g[p]|
  {
    if g == [] then 0.0
    else
      var n := |g| - 1;
      Column(g[..n], l) + g[n][l]
  }

  function TotalOf(g: Assignment): real {
    if g == [] then 0.0 else TotalOf(g[..|g| - 1]) + RowSum(g[|g| - 1])
  }

  ghost predicate Shaped(g: Assignment, lots: seq<SellLot>, asks: seq<Ask>) {
    |g| == |asks| && forall p | 0 <= p < |g| :: |g[p]| == |lots|
  }

  /** The assignments that respect windows, residual sizes and sell sizes. */
  ghost predicate Feasible(g: Assignment, lots: seq<SellLot>, asks: seq<Ask>) {
    && Shaped(g, lots, asks)
    && (forall p, l | 0 <= p < |asks| && 0 <= l < |lots| ::
          g[p][l] >= 0.0 && (g[p][l] > 0.0 ==> Eligible(asks[p], lots[l])))
    && (forall p | 0 <= p < |asks| :: RowSum(g[p]) <= asks[p].need)
    && (forall l | 0 <= l < |lots| :: Column(g, l) <= lots[l].remTok)
  }

  // ----- a set of lots and its complement

  /** The sum of the entries inside (or outside) a set of indices. */
  ghost function Part(xs: seq<real>, s: set<nat>, inside: bool): real {
    if xs == [] then 0.0
    else
      var n := |xs| - 1;
      Part(xs[..n], s, inside) + (if (n in s) == inside then xs[n] else 0.0)
  }

  lemma {:induction false} PartsSplit(xs: seq<real>, s: set<nat>)
    ensures RowSum(xs) == Part(xs, s, true) + Part(xs, s, false)
  {
    if xs != [] { PartsSplit(xs[..|xs| - 1], s); }
  }

  lemma {:induction false} PartMono(xs: seq<real>, ys: seq<real>, s: set<nat>, inside: bool)
    requires |xs| == |ys| && forall i | 0 <= i < |xs| && (i in s) == inside :: xs[i] <= ys[i]
    ensures Part(xs, s, inside) <= Part(ys, s, inside)
  {
    if xs != [] { PartMono(xs[..|xs| - 1], ys[..|xs| - 1], s, inside); }
  }

  lemma {:induction false} PartSame(xs: seq<real>, ys: seq<real>, s: set<nat>, inside: bool)
    requires |xs| == |ys| && forall i | 0 <= i < |xs| && (i in s) == inside :: xs[i] == ys[i]
    ensures Part(xs, s, inside) == Part(ys, s, inside)
  {
    if xs != [] { PartSame(xs[..|xs| - 1], ys[..|xs| - 1], s, inside); }
  }

  /** `n` thresholds. */
  function Crumbs(n: nat, eps: real): real {
    if n == 0 then 0.0 else Crumbs(n - 1, eps) + eps
  }

  lemma {:induction false} CrumbsIsProduct(n: nat, eps: real)
    ensures Crumbs(n, eps) == n as real * eps
  {
    if n > 0 {
      CrumbsIsProduct(n - 1, eps);
      assert n as real * eps == (n - 1) as real * eps + eps;
    }
  }

  lemma {:induction false} PartOfCrumbs(xs: seq<real>, s: set<nat>, eps: real)
    requires eps >= 0.0 && forall i | 0 <= i < |xs| && i in s :: xs[i] <= eps
    ensures Part(xs, s, true) <= Crumbs(|xs|, eps)
  {
    if xs != [] { PartOfCrumbs(xs[..|xs| - 1], s, eps); }
  }

  function Add(xs: seq<real>, ys: seq<real>): (r: seq<real>)
    requires |xs| == |ys|
    ensures |r| == |xs|
  {
    seq(|xs|, i requires 0 <= i < |xs| => xs[i] + ys[i])
  }

  lemma {:induction false} PartAdds(xs: seq<real>, ys: seq<real>, s: set<nat>)
    requires |xs| == |ys|
    ensures Part(Add(xs, ys), s, true) == Part(xs, s, true) + Part(ys, s, true)
  {
    if xs != [] {
      var n := |xs| - 1;
      PartAdds(xs[..n], ys[..n], s);
      assert Add(xs, ys)[..n] == Add(xs[..n], ys[..n]);
    }
  }

  // ----- every assignment is bounded by any cut

  /** All lots a position may draw on lie in `s`. */
  ghost predicate Confined(ask: Ask, lots: seq<SellLot>, s: set<nat>) {
    forall l: nat | l < |lots| && Eligible(ask, lots[l]) :: l in s
  }

  /** The needs of the positions that can reach outside `s`. */
  ghost function DemandOutside(asks: seq<Ask>, lots: seq<SellLot>, s: set<nat>): real {
    if asks == [] then 0.0
    else
      var n := |asks| - 1;
      DemandOutside(asks[..n], lots, s) + (if Confined(asks[n], lots, s) then 0.0 else asks[n].need)
  }

  ghost function Columns(g: Assignment, width: nat): (r: seq<real>)
    requires forall p | 0 <= p < |g| :: |g[p]| == width
    ensures |r| == width
  {
    seq(width, l requires 0 <= l < width => Column(g, l))
  }

  ghost predicate RowsWithin(g: Assignment, lots: seq<SellLot>, asks: seq<Ask>) {
    && Shaped(g, lots, asks)
    && forall p | 0 <= p < |asks| ::
         && RowSum(g[p]) <= asks[p].need
         && forall l | 0 <= l < |lots| :: g[p][l] >= 0.0 && (g[p][l] > 0.0 ==> Eligible(asks[p], lots[l]))
  }

  lemma {:induction false} PartOfZeros(xs: seq<real>, s: set<nat>, inside: bool)
    requires forall i | 0 <= i < |xs| && (i in s) == inside :: xs[i] == 0.0
    ensures Part(xs, s, inside) == 0.0
  {
    if xs != [] { PartOfZeros(xs[..|xs| - 1], s, inside); }
  }

  lemma {:induction false} PartNonNegative(xs: seq<real>, s: set<nat>, inside: bool)
    requires forall i | 0 <= i < |xs| :: xs[i] >= 0.0
    ensures Part(xs, s, inside) >= 0.0
  {
    if xs != [] { PartNonNegative(xs[..|xs| - 1], s, inside); }
  }

  lemma RowBound(row: seq<real>, lots: seq<SellLot>, ask: Ask, s: set<nat>)
    requires |row| == |lots| && RowSum(row) <= ask.need
    requires forall l | 0 <= l < |lots| :: row[l] >= 0.0 && (row[l] > 0.0 ==> Eligible(ask, lots[l]))
    ensures RowSum(row) <= Part(row, s, true) + (if Confined(ask, lots, s) then 0.0 else ask.need)
  {
    PartsSplit(row, s);
    PartNonNegative(row, s, true);
    if Confined(ask, lots, s) {
      forall l | 0 <= l < |row| && (l in s) == false ensures row[l] == 0.0 {
        assert !Eligible(ask, lots[l]);
      }
      PartOfZeros(row, s, false);
    }
  }

  lemma {:induction false} RowsBound(g: Assignment, lots: seq<SellLot>, asks: seq<Ask>, s: set<nat>)
    requires RowsWithin(g, lots, asks)
    ensures TotalOf(g) <= Part(Columns(g, |lots|), s, true) + DemandOutside(asks, lots, s)
  {
    if g == [] {
      PartOfZeros(Columns(g, |lots|), s, true);
    } else {
      var n := |g| - 1;
      RowsBound(g[..n], lots, asks[..n], s);
      RowBound(g[n], lots, asks[n], s);
      assert Columns(g, |lots|) == Add(Columns(g[..n], |lots|), g[n]);
      PartAdds(Columns(g[..n], |lots|), g[n], s);
    }
  }

  function Sizes(lots: seq<SellLot>): (r: seq<real>)
    ensures |r| == |lots|
  {
    seq(|lots|, i requires 0 <= i < |lots| => lots[i].remTok)
  }

  /** No assignment sells more than the lots of a set hold plus the needs that reach beyond the set. */
  lemma CutBoundsAll(g: Assignment, lots: seq<SellLot>, asks: seq<Ask>, s: set<nat>)
    requires Feasible(g, lots, asks)
    ensures TotalOf(g) <= Part(Sizes(lots), s, true) + DemandOutside(asks, lots, s)
  {
    RowsBound(g, lots, asks, s);
    PartMono(Columns(g, |lots|), Sizes(lots), s, true);
  }

  // ----- the greedy run of one mint, step by step

  /** The asks as the positions arrive: positive needs, windows that close ever later. */
  ghost predicate Asking(asks: seq<Ask>) {
    && (forall p | 0 <= p < |asks| :: asks[p].need >= 0.0)
    && (forall p, q | 0 <= p <= q < |asks| :: asks[p].until <= asks[q].until)
  }

  ghost predicate Ledgered(lots: seq<SellLot>, eps: real) {
    NonNegative(lots) && TimeSorted(lots) && eps >= 0.0
  }

  /** The lots before position `p` is served. */
  function At(lots: seq<SellLot>, asks: seq<Ask>, p: nat, eps: real): (r: seq<SellLot>)
    requires eps >= 0.0 && p <= |asks|
    ensures |r| == |lots|
  {
    LotsAfter(lots, asks[..p], eps)
  }

  function FillAt(lots: seq<SellLot>, asks: seq<Ask>, p: nat, eps: real): (f: Fill)
    requires eps >= 0.0 && p < |asks|
    ensures f.lots == At(lots, asks, p + 1, eps) && |f.lots| == |lots|
  {
    assert asks[..p + 1][..p] == asks[..p];
    FillAsk(At(lots, asks, p, eps), asks[p], eps)
  }

  lemma {:induction false} StepsAreGreedy(lots: seq<SellLot>, asks: seq<Ask>, p: nat, eps: real)
    requires Ledgered(lots, eps) && Asking(asks) && p <= |asks|
    ensures Ledgered(At(lots, asks, p, eps), eps)
    ensures forall l | 0 <= l < |lots| :: At(lots, asks, p, eps)[l].ts == lots[l].ts
    ensures p < |asks| ==> GreedyFill(At(lots, asks, p, eps), FillAt(lots, asks, p, eps), asks[p], eps)
  {
    hide FillAsk;
    if p > 0 {
      StepsAreGreedy(lots, asks, p - 1, eps);
      var f := FillAt(lots, asks, p - 1, eps);
      assert f.lots == At(lots, asks, p, eps);
    }
    if p < |asks| { FillIsGreedy(At(lots, asks, p, eps), asks[p], eps); }
  }

  /** Lots only ever shrink. */
  lemma {:induction false} LotsShrink(lots: seq<SellLot>, asks: seq<Ask>, p: nat, q: nat, l: nat, eps: real)
    requires Ledgered(lots, eps) && Asking(asks) && p <= q <= |asks| && l < |lots|
    ensures At(lots, asks, q, eps)[l].remTok <= At(lots, asks, p, eps)[l].remTok
    decreases q
  {
    if p < q {
      LotsShrink(lots, asks, p, q - 1, l, eps);
      StepsAreGreedy(lots, asks, q - 1, eps);
    }
  }

  ghost predicate Took(lots: seq<SellLot>, asks: seq<Ask>, p: nat, l: nat, eps: real)
    requires eps >= 0.0 && p < |asks| && l < |lots|
  {
    Drawn(At(lots, asks, p, eps), At(lots, asks, p + 1, eps), l)
  }

  ghost predicate Satisfied(lots: seq<SellLot>, asks: seq<Ask>, p: nat, eps: real)
    requires eps >= 0.0 && p < |asks|
  {
    FillAt(lots, asks, p, eps).need <= eps
  }

  // ----- the cut

  /** The run of exhausted lots that ends at time `until`. */
  ghost function ExhaustedRun(lots: seq<SellLot>, until: real, eps: real): set<nat> {
    set l: nat | l < |lots| && RunsOut(lots, l, until, eps) :: l
  }

  ghost predicate RunsOut(lots: seq<SellLot>, l: nat, until: real, eps: real)
    requires l < |lots|
  {
    && lots[l].ts as real <= until
    && forall k | l <= k < |lots| && lots[k].ts as real <= until :: lots[k].remTok <= eps
  }

  /** Each position left unsatisfied adds the exhausted run that ends with its window. */
  ghost function Cut(lots: seq<SellLot>, asks: seq<Ask>, n: nat, eps: real): set<nat>
    requires eps >= 0.0 && n <= |asks|
  {
    if n == 0 then {}
    else if Satisfied(lots, asks, n - 1, eps) then Cut(lots, asks, n - 1, eps)
    else Cut(lots, asks, n - 1, eps) + ExhaustedRun(At(lots, asks, n, eps), asks[n - 1].until, eps)
  }

  /**
   * After `n` positions: the lots of `s` are exhausted, whoever is unsatisfied is confined to `s`, and
   * whoever drew on `s` is confined to `s`.
   */
  ghost predicate Tight(lots: seq<SellLot>, asks: seq<Ask>, n: nat, eps: real, s: set<nat>)
    requires eps >= 0.0 && n <= |asks|
  {
    && (forall l | l in s :: l < |lots| && At(lots, asks, n, eps)[l].remTok <= eps)
    && (forall p: nat | p < n :: Satisfied(lots, asks, p, eps) || Confined(asks[p], lots, s))
    && (forall p: nat, l: nat | p < n && l in s && l < |lots| && Took(lots, asks, p, l, eps) ::
          Confined(asks[p], lots, s))
  }

  /** Whoever drew on a lot of an exhausted run is confined to that run. */
  lemma TookFromRun(lots: seq<SellLot>, asks: seq<Ask>, p: nat, l: nat, n: nat, eps: real)
    requires Ledgered(lots, eps) && Asking(asks) && p < n <= |asks| && l < |lots|
    requires Took(lots, asks, p, l, eps)
    requires l in ExhaustedRun(At(lots, asks, n, eps), asks[n - 1].until, eps)
    ensures Confined(asks[p], lots, ExhaustedRun(At(lots, asks, n, eps), asks[n - 1].until, eps))
  {
    hide FillAsk, LotsAfter;
    var now := At(lots, asks, n, eps);
    var until := asks[n - 1].until;
    StepsAreGreedy(lots, asks, p, eps);
    StepsAreGreedy(lots, asks, n, eps);
    var after := At(lots, asks, p + 1, eps);
    StepsAreGreedy(lots, asks, p + 1, eps);
    assert asks[p].until <= until;
    assert Exhausted(after, l, asks[p].from, eps);
    forall m: nat | m < |lots| && Eligible(asks[p], lots[m])
      ensures RunsOut(now, m, until, eps)
    {
      forall k | m <= k < |lots| && now[k].ts as real <= until
        ensures now[k].remTok <= eps
      {
        if k < l {
          assert lots[m].ts <= lots[k].ts;
          assert after[k].remTok <= eps;
          LotsShrink(lots, asks, p + 1, n, k, eps);
        }
      }
    }
  }

  lemma UnsatisfiedIsConfined(lots: seq<SellLot>, asks: seq<Ask>, n: nat, eps: real)
    requires Ledgered(lots, eps) && Asking(asks) && 0 < n <= |asks| && !Satisfied(lots, asks, n - 1, eps)
    ensures Confined(asks[n - 1], lots, ExhaustedRun(At(lots, asks, n, eps), asks[n - 1].until, eps))
  {
    hide FillAsk, LotsAfter;
    var now := At(lots, asks, n, eps);
    StepsAreGreedy(lots, asks, n - 1, eps);
    StepsAreGreedy(lots, asks, n, eps);
    forall m: nat | m < |lots| && Eligible(asks[n - 1], lots[m])
      ensures RunsOut(now, m, asks[n - 1].until, eps)
    {
      forall k | m <= k < |lots| && now[k].ts as real <= asks[n - 1].until
        ensures now[k].remTok <= eps
      {
        assert lots[m].ts <= lots[k].ts;
        assert Eligible(asks[n - 1], At(lots, asks, n - 1, eps)[k]);
      }
    }
  }

  lemma {:induction false} CutIsTight(lots: seq<SellLot>, asks: seq<Ask>, n: nat, eps: real)
    requires Ledgered(lots, eps) && Asking(asks) && n <= |asks|
    ensures Tight(lots, asks, n, eps, Cut(lots, asks, n, eps))
  {
    hide FillAsk, LotsAfter, At, FillAt;
    if n > 0 {
      CutIsTight(lots, asks, n - 1, eps);
      var old_s, s := Cut(lots, asks, n - 1, eps), Cut(lots, asks, n, eps);
      var run := ExhaustedRun(At(lots, asks, n, eps), asks[n - 1].until, eps);
      StepsAreGreedy(lots, asks, n - 1, eps);
      forall l | l in old_s ensures l < |lots| && At(lots, asks, n, eps)[l].remTok <= eps {
        LotsShrink(lots, asks, n - 1, n, l, eps);
      }
      forall l: nat | l in old_s && l < |lots| ensures !Took(lots, asks, n - 1, l, eps) {
      }
      if !Satisfied(lots, asks, n - 1, eps) {
        UnsatisfiedIsConfined(lots, asks, n, eps);
        forall p: nat, l: nat | p < n && l in s && l < |lots| && Took(lots, asks, p, l, eps)
          ensures Confined(asks[p], lots, s)
        {
          if l in run { TookFromRun(lots, asks, p, l, n, eps); }
        }
      }
    }
  }

  // ----- the greedy run fills the cut

  /** What leaves the lots outside the cut covers the needs that reach outside, up to the threshold. */
  lemma {:induction false} OutsideIsServed(lots: seq<SellLot>, asks: seq<Ask>, n: nat, eps: real, s: set<nat>)
    requires Ledgered(lots, eps) && Asking(asks) && n <= |asks| && Tight(lots, asks, |asks|, eps, s)
    ensures DemandOutside(asks[..n], lots, s)
            <= Part(Sizes(lots), s, false) - Part(Sizes(At(lots, asks, n, eps)), s, false) + Crumbs(n, eps)
  {
    hide FillAsk, LotsAfter;
    if n == 0 {
      assert At(lots, asks, 0, eps) == lots by { assert asks[..0] == []; AtStart(lots, asks, eps); }
    } else {
      OutsideIsServed(lots, asks, n - 1, eps, s);
      assert asks[..n][..n - 1] == asks[..n - 1];
      StepOutside(lots, asks, n - 1, eps, s);
    }
  }

  lemma AtStart(lots: seq<SellLot>, asks: seq<Ask>, eps: real)
    requires eps >= 0.0
    ensures At(lots, asks, 0, eps) == lots
  {
  }

  lemma StepOutside(lots: seq<SellLot>, asks: seq<Ask>, p: nat, eps: real, s: set<nat>)
    requires Ledgered(lots, eps) && Asking(asks) && p < |asks| && Tight(lots, asks, |asks|, eps, s)
    ensures var before, after := Sizes(At(lots, asks, p, eps)), Sizes(At(lots, asks, p + 1, eps));
            (if Confined(asks[p], lots, s) then 0.0 else asks[p].need)
            <= Part(before, s, false) - Part(after, s, false) + eps
  {
    hide FillAsk, LotsAfter;
    var l0, l1 := At(lots, asks, p, eps), At(lots, asks, p + 1, eps);
    StepsAreGreedy(lots, asks, p, eps);
    var f := FillAt(lots, asks, p, eps);
    if Confined(asks[p], lots, s) {
      PartMono(Sizes(l1), Sizes(l0), s, false);
    } else {
      forall l | 0 <= l < |lots| && (l in s) == true ensures Sizes(l0)[l] == Sizes(l1)[l] {
        assert !Took(lots, asks, p, l, eps);
      }
      PartSame(Sizes(l0), Sizes(l1), s, true);
      PartsSplit(Sizes(l0), s);
      PartsSplit(Sizes(l1), s);
      FillAmount(l0, asks[p], eps);
      assert Satisfied(lots, asks, p, eps);
    }
  }

  lemma {:induction false} SizesSum(lots: seq<SellLot>)
    ensures RowSum(Sizes(lots)) == TokOf(lots)
  {
    if lots != [] {
      SizesSum(lots[..|lots| - 1]);
      assert Sizes(lots)[..|lots| - 1] == Sizes(lots[..|lots| - 1]);
    }
  }

  /** Tokens sold by a fill are exactly what its lots lost. */
  lemma FillAmount(lots: seq<SellLot>, ask: Ask, eps: real)
    requires eps >= 0.0
    ensures var f := FillAsk(lots, ask, eps);
            && RowSum(Sizes(lots)) - RowSum(Sizes(f.lots)) == ask.need - f.need
  {
    hide SolShare;
    FillTokens(Fill(lots, ask.need, 0.0, 0.0), 0, ask, eps);
    SizesSum(lots);
    SizesSum(FillAsk(lots, ask, eps).lots);
  }

  lemma {:induction false} FillTokens(f: Fill, i: nat, ask: Ask, eps: real)
    requires i <= |f.lots| && eps >= 0.0
    ensures var g := FillFrom(f, i, ask, eps); TokOf(f.lots) - f.need == TokOf(g.lots) - g.need
    decreases |f.lots| - i
  {
    hide SolShare;
    if i < |f.lots| && f.need > eps {
      if f.lots[i].remTok <= eps || f.lots[i].ts as real < ask.from {
        FillTokens(f, i + 1, ask, eps);
      } else if f.lots[i].ts as real <= ask.until {
        UpdateSums(f.lots, i, TakeFrom(f, i).lots[i]);
        FillTokens(TakeFrom(f, i), i + 1, ask, eps);
      }
    }
  }

  /** The greedy total reaches the bound of the cut, up to one threshold per lot and per position. */
  lemma GreedyFillsCut(lots: seq<SellLot>, asks: seq<Ask>, eps: real)
    requires Ledgered(lots, eps) && Asking(asks)
    ensures var s := Cut(lots, asks, |asks|, eps);
            Part(Sizes(lots), s, true) + DemandOutside(asks, lots, s)
            <= TokOf(lots) - TokOf(LotsAfter(lots, asks, eps)) + Crumbs(|lots|, eps) + Crumbs(|asks|, eps)
  {
    hide FillAsk, LotsAfter;
    var n := |asks|;
    var s := Cut(lots, asks, n, eps);
    var last := At(lots, asks, n, eps);
    assert asks[..n] == asks;
    CutIsTight(lots, asks, n, eps);
    OutsideIsServed(lots, asks, n, eps, s);
    PartOfCrumbs(Sizes(last), s, eps);
    PartsSplit(Sizes(lots), s);
    PartsSplit(Sizes(last), s);
    SizesSum(lots);
    SizesSum(last);
  }

  // ----- the greedy run is itself an assignment

  function GreedyRow(lots: seq<SellLot>, asks: seq<Ask>, p: nat, eps: real): (r: seq<real>)
    requires eps >= 0.0 && p < |asks|
    ensures |r| == |lots|
  {
    seq(|lots|, l requires 0 <= l < |lots| => At(lots, asks, p, eps)[l].remTok - At(lots, asks, p + 1, eps)[l].remTok)
  }

  function Greedy(lots: seq<SellLot>, asks: seq<Ask>, n: nat, eps: real): (g: Assignment)
    requires eps >= 0.0 && n <= |asks|
    ensures |g| == n && forall p | 0 <= p < n :: g[p] == GreedyRow(lots, asks, p, eps)
  {
    seq(n, p requires 0 <= p < n => GreedyRow(lots, asks, p, eps))
  }

  lemma {:induction false} GreedyColumn(lots: seq<SellLot>, asks: seq<Ask>, n: nat, eps: real, l: nat)
    requires eps >= 0.0 && n <= |asks| && l < |lots|
    ensures Column(Greedy(lots, asks, n, eps), l) == lots[l].remTok - At(lots, asks, n, eps)[l].remTok
  {
    hide LotsAfter;
    if n == 0 {
      AtStart(lots, asks, eps);
    } else {
      GreedyColumn(lots, asks, n - 1, eps, l);
      assert Greedy(lots, asks, n, eps)[..n - 1] == Greedy(lots, asks, n - 1, eps);
    }
  }

  lemma {:induction false} DiffSum(xs: seq<real>, ys: seq<real>, zs: seq<real>)
    requires |xs| == |ys| == |zs| && forall i | 0 <= i < |xs| :: zs[i] == xs[i] - ys[i]
    ensures RowSum(zs) == RowSum(xs) - RowSum(ys)
  {
    if xs != [] { DiffSum(xs[..|xs| - 1], ys[..|xs| - 1], zs[..|xs| - 1]); }
  }

  lemma {:induction false} GreedyTotal(lots: seq<SellLot>, asks: seq<Ask>, n: nat, eps: real)
    requires eps >= 0.0 && n <= |asks|
    ensures TotalOf(Greedy(lots, asks, n, eps)) == TokOf(lots) - TokOf(At(lots, asks, n, eps))
  {
    hide LotsAfter;
    if n == 0 {
      AtStart(lots, asks, eps);
    } else {
      GreedyTotal(lots, asks, n - 1, eps);
      assert Greedy(lots, asks, n, eps)[..n - 1] == Greedy(lots, asks, n - 1, eps);
      var l0, l1 := At(lots, asks, n - 1, eps), At(lots, asks, n, eps);
      DiffSum(Sizes(l0), Sizes(l1), GreedyRow(lots, asks, n - 1, eps));
      SizesSum(l0);
      SizesSum(l1);
    }
  }

  lemma GreedyIsFeasible(lots: seq<SellLot>, asks: seq<Ask>, eps: real)
    requires Ledgered(lots, eps) && Asking(asks)
    ensures Feasible(Greedy(lots, asks, |asks|, eps), lots, asks)
  {
    hide LotsAfter, FillAsk;
    var g := Greedy(lots, asks, |asks|, eps);
    forall p | 0 <= p < |asks|
      ensures RowSum(g[p]) <= asks[p].need
      ensures forall l | 0 <= l < |lots| :: g[p][l] >= 0.0 && (g[p][l] > 0.0 ==> Eligible(asks[p], lots[l]))
    {
      StepsAreGreedy(lots, asks, p, eps);
      var l0 := At(lots, asks, p, eps);
      FillAmount(l0, asks[p], eps);
      DiffSum(Sizes(l0), Sizes(FillAt(lots, asks, p, eps).lots), g[p]);
    }
    StepsAreGreedy(lots, asks, |asks|, eps);
    forall l | 0 <= l < |lots| ensures Column(g, l) <= lots[l].remTok {
      GreedyColumn(lots, asks, |asks|, eps, l);
    }
  }

  // ----- the theorem on the actual inputs

  lemma {:induction false} CloseOrderAsks(ps: seq<Closed>, mint: string, windowSec: real)
    requires forall p | p in ps :: HasResidual(p)
    requires Sorted(ps, CloseKey)
    ensures Asking(AsksOf(ps, mint, windowSec))
    ensures ps != [] ==> forall k | 0 <= k < |AsksOf(ps, mint, windowSec)| ::
              AsksOf(ps, mint, windowSec)[k].until <= CloseKey(ps[|ps| - 1]) as real / 1000.0 + windowSec
  {
    if ps != [] {
      var n := |ps| - 1;
      assert HasResidual(ps[n]);
      CloseOrderAsks(ps[..n], mint, windowSec);
    }
  }

  /**
   * Greedy optimality, for each mint and on all inputs: no assignment of sells to closed positions that
   * respects sell sizes, residual sizes and windows sells more than `reconstructRealized` reports, up
   * to one threshold per sell and per position; with `eps` = 0 its total is the exact maximum.
   */
  lemma GreedyIsOptimal(ps: seq<Closed>, sells: seq<Sell>, mint: string, windowSec: real, eps: real, g: Assignment)
    requires eps >= 0.0
    requires Feasible(g, Lots(sells, mint), AsksOf(CloseOrder(ps), mint, windowSec))
    ensures var sold := SoldOf(Reconstruct(ps, sells, windowSec, eps), mint);
            && TotalOf(g) <= sold + Crumbs(|Lots(sells, mint)| + |AsksOf(CloseOrder(ps), mint, windowSec)|, eps)
            && (eps == 0.0 ==> TotalOf(g) <= sold)
  {
    hide LotsAfter, FillAsk, Lots, CloseOrder, AsksOf, LedgerOf, MatchAll, Feasible, Reconstruct;
    hide TotalOf, TokOf, SoldOf, Crumbs, Ledgered, Asking;
    var lots, asks := Lots(sells, mint), AsksOf(CloseOrder(ps), mint, windowSec);
    OptimalSetting(ps, sells, mint, windowSec, eps);
    CutBoundsAll(g, lots, asks, Cut(lots, asks, |asks|, eps));
    GreedyFillsCut(lots, asks, eps);
    CrumbsAdd(|lots|, |asks|, eps);
    if eps == 0.0 { NoCrumbs(|lots| + |asks|); }
  }

  lemma NoCrumbs(n: nat)
    ensures Crumbs(n, 0.0) == 0.0
  {
    CrumbsIsProduct(n, 0.0);
  }

  lemma {:induction false} CrumbsAdd(m: nat, n: nat, eps: real)
    ensures Crumbs(m + n, eps) == Crumbs(m, eps) + Crumbs(n, eps)
  {
    if n > 0 { CrumbsAdd(m, n - 1, eps); }
  }

  /** The reported total is the total of the greedy assignment, which is one of the assignments. */
  lemma GreedyIsAttained(ps: seq<Closed>, sells: seq<Sell>, mint: string, windowSec: real, eps: real)
    requires eps >= 0.0
    ensures var lots, asks := Lots(sells, mint), AsksOf(CloseOrder(ps), mint, windowSec);
            var g := Greedy(lots, asks, |asks|, eps);
            && Feasible(g, lots, asks)
            && TotalOf(g) == SoldOf(Reconstruct(ps, sells, windowSec, eps), mint)
  {
    hide LotsAfter, FillAsk, Lots, CloseOrder, AsksOf, LedgerOf, MatchAll, Feasible, Reconstruct;
    hide Greedy, TotalOf, TokOf, SoldOf, Ledgered, Asking;
    var lots, asks := Lots(sells, mint), AsksOf(CloseOrder(ps), mint, windowSec);
    OptimalSetting(ps, sells, mint, windowSec, eps);
    GreedyIsFeasible(lots, asks, eps);
    GreedyTotal(lots, asks, |asks|, eps);
    assert asks[..|asks|] == asks;
  }

  lemma OptimalSetting(ps: seq<Closed>, sells: seq<Sell>, mint: string, windowSec: real, eps: real)
    requires eps >= 0.0
    ensures var lots, asks := Lots(sells, mint), AsksOf(CloseOrder(ps), mint, windowSec);
            && Ledgered(lots, eps) && Asking(asks)
            && SoldOf(Reconstruct(ps, sells, windowSec, eps), mint) == TokOf(lots) - TokOf(LotsAfter(lots, asks, eps))
  {
    hide LotsAfter, FillAsk, Lots, AsksOf, LedgerOf, MatchAll;
    LotsAreSound(sells, mint);
    SortSorts(Residuals(ps), CloseKey);
    CloseOrderAsks(CloseOrder(ps), mint, windowSec);
    LedgerHasLots(sells, mint);
    MintsAreIndependent(LedgerOf(sells), CloseOrder(ps), mint, windowSec, eps);
    SoldLeavesLedger(sells, CloseOrder(ps), mint, windowSec, eps);
  }
}
