/**
 * The optimality of the matching, on the raw inputs: an assignment has a row per closed position and a
 * column per sell as they come in, and may use any sell within the window around the close.
 */
module ResidualMatching {
  import opened Options
  import opened StableSort
  import opened Residual
  import opened ResidualLedger
  import opened ResidualOptimal

  // ----- what the inputs mean, on their raw fields

  /** A closed position with a residual of the mint to be accounted for. */
  ghost predicate HasResidualOf(p: Closed, mint: string) {
    && mint != "" && p.residualMint == Some(mint)
    && p.residualAmount.Some? && p.residualAmount.value > 0.0
    && p.residualMarkSol.Some? && p.residualMarkSol.value > 0.0
    && p.closedAt.Some? && p.closedAt.value > 0
  }

  ghost predicate IsSellOf(s: Sell, mint: string) {
    mint != "" && s.mint == mint && s.tokenAmount > 0.0 && s.solReceived > 0.0
  }

  /** From a minute before the close to the end of the window after it, in milliseconds. */
  ghost predicate InWindow(p: Closed, s: Sell, windowSec: real)
    requires p.closedAt.Some?
  {
    (p.closedAt.value - 60000) as real <= 1000.0 * s.ts as real <= p.closedAt.value as real + 1000.0 * windowSec
  }

  ghost predicate MayUse(p: Closed, s: Sell, mint: string, windowSec: real) {
    HasResidualOf(p, mint) && IsSellOf(s, mint) && InWindow(p, s, windowSec)
  }

  /** Entry [i][j]: tokens of sell j given to position i. */
  ghost predicate IsMatching(g: Assignment, ps: seq<Closed>, sells: seq<Sell>, mint: string, windowSec: real) {
    && |g| == |ps| && (forall i | 0 <= i < |g| :: |g[i]| == |sells|)
    && (forall i, j | 0 <= i < |ps| && 0 <= j < |sells| ::
          g[i][j] >= 0.0 && (g[i][j] > 0.0 ==> MayUse(ps[i], sells[j], mint, windowSec)))
    && (forall i | 0 <= i < |ps| && HasResidualOf(ps[i], mint) :: RowSum(g[i]) <= ps[i].residualAmount.value)
    && (forall j | 0 <= j < |sells| && IsSellOf(sells[j], mint) :: Column(g, j) <= sells[j].tokenAmount)
  }

  lemma AskIsWindow(p: Closed, s: Sell, mint: string, windowSec: real)
    requires HasResidualOf(p, mint)
    ensures HasResidual(p) && AskOf(p, windowSec).need == p.residualAmount.value
    ensures Eligible(AskOf(p, windowSec), SellLot(s.ts, s.tokenAmount, s.solReceived)) <==> InWindow(p, s, windowSec)
  {
  }

  // ----- picking some elements of a list, each once, in any order

  ghost predicate Picks<T(!new)>(xs: seq<T>, idx: seq<nat>, ys: seq<T>) {
    && |idx| == |ys|
    && (forall k, m | 0 <= k < m < |idx| :: idx[k] != idx[m])
    && forall k | 0 <= k < |idx| :: idx[k] < |xs| && ys[k] == xs[idx[k]]
  }

  ghost function Via(idx: seq<nat>, jdx: seq<nat>): (r: seq<nat>)
    requires forall k | 0 <= k < |jdx| :: jdx[k] < |idx|
    ensures |r| == |jdx|
  {
    seq(|jdx|, k requires 0 <= k < |jdx| => idx[jdx[k]])
  }

  lemma PicksCompose<T(!new)>(xs: seq<T>, idx: seq<nat>, ys: seq<T>, jdx: seq<nat>, zs: seq<T>)
    requires Picks(xs, idx, ys) && Picks(ys, jdx, zs)
    ensures Picks(xs, Via(idx, jdx), zs)
  {
  }

  lemma {:induction false} InsertAt<T>(ys: seq<T>, x: T, key: T -> int) returns (j: nat)
    ensures j <= |ys| && Insert(ys, x, key) == ys[..j] + [x] + ys[j..]
  {
    var n := |ys| - 1;
    if ys == [] || key(ys[n]) <= key(x) {
      j := |ys|;
    } else {
      j := InsertAt(ys[..n], x, key);
      assert ys == ys[..n] + [ys[n]];
    }
  }

  /** Sorting picks every element once. */
  lemma {:induction false} SortPicks<T(!new)>(xs: seq<T>, key: T -> int) returns (idx: seq<nat>)
    ensures Picks(xs, idx, Sort(xs, key)) && forall i | 0 <= i < |xs| :: i in idx
  {
    if xs == [] {
      idx := [];
    } else {
      var n := |xs| - 1;
      var before := SortPicks(xs[..n], key);
      var j := InsertAt(Sort(xs[..n], key), xs[n], key);
      idx := before[..j] + [n] + before[j..];
      InsertPicks(xs, before, Sort(xs[..n], key), j);
    }
  }

  lemma InsertPicks<T(!new)>(xs: seq<T>, before: seq<nat>, ys: seq<T>, j: nat)
    requires xs != [] && Picks(xs[..|xs| - 1], before, ys) && j <= |ys|
    requires forall i | 0 <= i < |xs| - 1 :: i in before
    ensures var n := |xs| - 1;
            var idx := before[..j] + [n] + before[j..];
            Picks(xs, idx, ys[..j] + [xs[n]] + ys[j..]) && forall i | 0 <= i < |xs| :: i in idx
  {
    var n := |xs| - 1;
    var idx := before[..j] + [n] + before[j..];
    forall i | 0 <= i < |xs| ensures i in idx {
      if i == n {
        assert idx[j] == n;
      } else {
        assert i in before;
        var k :| 0 <= k < |before| && before[k] == i;
        assert idx[if k < j then k else k + 1] == i;
      }
    }
  }

  /** The indices of the raised flags, in order. */
  ghost function Kept(flags: seq<bool>): seq<nat> {
    if flags == [] then []
    else
      var n := |flags| - 1;
      Kept(flags[..n]) + (if flags[n] then [n] else [])
  }

  lemma {:induction false} KeptIs(flags: seq<bool>)
    ensures forall k | 0 <= k < |Kept(flags)| :: Kept(flags)[k] < |flags| && flags[Kept(flags)[k]]
    ensures forall k, m | 0 <= k < m < |Kept(flags)| :: Kept(flags)[k] < Kept(flags)[m]
    ensures forall i | 0 <= i < |flags| && flags[i] :: i in Kept(flags)
  {
    if flags != [] {
      var n := |flags| - 1;
      KeptIs(flags[..n]);
      forall i | 0 <= i < |flags| && flags[i] ensures i in Kept(flags) {
        if i < n {
          assert flags[..n][i] && i in Kept(flags[..n]);
        } else {
          assert Kept(flags)[|Kept(flags[..n])|] == n;
        }
      }
    }
  }

  /** Sorting what was kept keeps it. */
  lemma ViaCovers(first: seq<nat>, second: seq<nat>, i: nat)
    requires (forall k | 0 <= k < |second| :: second[k] < |first|) && (forall k | 0 <= k < |first| :: k in second)
    requires i in first
    ensures i in Via(first, second)
  {
    var k :| 0 <= k < |first| && first[k] == i;
    assert k in second;
    var m :| 0 <= m < |second| && second[m] == k;
    assert Via(first, second)[m] == i;
  }

  // ----- the lots and the asks of a mint pick the sells and the positions that count

  ghost function LotOf(s: Sell): SellLot { SellLot(s.ts, s.tokenAmount, s.solReceived) }

  /** Lot k is sell idx[k], and every sell of the mint is there. */
  ghost predicate LotsPick(sells: seq<Sell>, mint: string, idx: seq<nat>, lots: seq<SellLot>) {
    && |idx| == |lots|
    && (forall k, m | 0 <= k < m < |idx| :: idx[k] != idx[m])
    && (forall k | 0 <= k < |idx| ::
          idx[k] < |sells| && IsSellOf(sells[idx[k]], mint) && lots[k] == LotOf(sells[idx[k]]))
    && (forall j | 0 <= j < |sells| && IsSellOf(sells[j], mint) :: j in idx)
  }

  ghost function SellFlags(sells: seq<Sell>, mint: string): (r: seq<bool>)
    ensures |r| == |sells|
  {
    seq(|sells|, j requires 0 <= j < |sells| => IsSellOf(sells[j], mint))
  }

  lemma {:induction false} ArrivalsAreKept(sells: seq<Sell>, mint: string)
    ensures var idx := Kept(SellFlags(sells, mint));
            && |Arrivals(sells, mint)| == |idx|
            && forall k | 0 <= k < |idx| :: idx[k] < |sells| && Arrivals(sells, mint)[k] == LotOf(sells[idx[k]])
  {
    if sells != [] {
      var n := |sells| - 1;
      ArrivalsAreKept(sells[..n], mint);
      assert SellFlags(sells, mint)[..n] == SellFlags(sells[..n], mint);
    }
  }

  lemma ArrivalsPick(sells: seq<Sell>, mint: string) returns (idx: seq<nat>)
    ensures LotsPick(sells, mint, idx, Arrivals(sells, mint))
  {
    hide Kept, Arrivals;
    idx := Kept(SellFlags(sells, mint));
    KeptIs(SellFlags(sells, mint));
    ArrivalsAreKept(sells, mint);
    assert forall j | 0 <= j < |sells| && IsSellOf(sells[j], mint) :: SellFlags(sells, mint)[j];
  }

  lemma LotsArePicked(sells: seq<Sell>, mint: string) returns (idx: seq<nat>)
    ensures LotsPick(sells, mint, idx, Lots(sells, mint))
  {
    hide Arrivals, IsSellOf;
    var arrivals := Arrivals(sells, mint);
    var first := ArrivalsPick(sells, mint);
    var second := SortPicks(arrivals, TimeKey);
    idx := Via(first, second);
    forall j | 0 <= j < |sells| && IsSellOf(sells[j], mint) ensures j in idx { ViaCovers(first, second, j); }
  }

  /** Ask k is that of position idx[k], and every position with a residual of the mint is there. */
  ghost predicate AsksPick(ps: seq<Closed>, mint: string, windowSec: real, idx: seq<nat>, asks: seq<Ask>) {
    && |idx| == |asks|
    && (forall k, m | 0 <= k < m < |idx| :: idx[k] != idx[m])
    && (forall k | 0 <= k < |idx| ::
          idx[k] < |ps| && HasResidualOf(ps[idx[k]], mint) && IsAskOf(asks[k], ps[idx[k]], windowSec))
    && (forall i | 0 <= i < |ps| && HasResidualOf(ps[i], mint) :: i in idx)
  }

  ghost predicate IsAskOf(ask: Ask, p: Closed, windowSec: real) {
    HasResidual(p) && ask == AskOf(p, windowSec)
  }

  lemma ResidualMint(p: Closed, mint: string)
    ensures HasResidualOf(p, mint) <==> HasResidual(p) && p.residualMint.value == mint
  {
  }

  ghost function MintFlags(qs: seq<Closed>, mint: string): (r: seq<bool>)
    ensures |r| == |qs|
  {
    seq(|qs|, i requires 0 <= i < |qs| => HasResidualOf(qs[i], mint))
  }

  lemma {:induction false} AsksAreKept(qs: seq<Closed>, mint: string, windowSec: real)
    requires forall q | q in qs :: HasResidual(q)
    ensures var idx, asks := Kept(MintFlags(qs, mint)), AsksOf(qs, mint, windowSec);
            && |asks| == |idx|
            && forall k | 0 <= k < |idx| :: idx[k] < |qs| && IsAskOf(asks[k], qs[idx[k]], windowSec)
  {
    hide HasResidual, HasResidualOf, AskOf;
    if qs != [] {
      var n := |qs| - 1;
      assert HasResidual(qs[n]);
      ResidualMint(qs[n], mint);
      AsksAreKept(qs[..n], mint, windowSec);
      assert MintFlags(qs, mint)[..n] == MintFlags(qs[..n], mint);
    }
  }

  lemma MintAsksPick(qs: seq<Closed>, mint: string, windowSec: real) returns (idx: seq<nat>)
    requires forall q | q in qs :: HasResidual(q)
    ensures AsksPick(qs, mint, windowSec, idx, AsksOf(qs, mint, windowSec))
  {
    hide HasResidual, HasResidualOf, AskOf, Kept, AsksOf;
    idx := Kept(MintFlags(qs, mint));
    KeptIs(MintFlags(qs, mint));
    AsksAreKept(qs, mint, windowSec);
    assert forall i | 0 <= i < |qs| && HasResidualOf(qs[i], mint) :: MintFlags(qs, mint)[i];
  }

  ghost function ResidualFlags(ps: seq<Closed>): (r: seq<bool>)
    ensures |r| == |ps|
  {
    seq(|ps|, i requires 0 <= i < |ps| => HasResidual(ps[i]))
  }

  lemma {:induction false} ResidualsAreKept(ps: seq<Closed>)
    ensures var idx := Kept(ResidualFlags(ps));
            |Residuals(ps)| == |idx| && forall k | 0 <= k < |idx| :: idx[k] < |ps| && Residuals(ps)[k] == ps[idx[k]]
  {
    hide HasResidual;
    if ps != [] {
      var n := |ps| - 1;
      ResidualsAreKept(ps[..n]);
      assert ResidualFlags(ps)[..n] == ResidualFlags(ps[..n]);
    }
  }

  lemma ResidualsPick(ps: seq<Closed>) returns (idx: seq<nat>)
    ensures Picks(ps, idx, Residuals(ps)) && forall i | 0 <= i < |ps| && HasResidual(ps[i]) :: i in idx
  {
    hide HasResidual, Kept, Residuals;
    idx := Kept(ResidualFlags(ps));
    KeptIs(ResidualFlags(ps));
    ResidualsAreKept(ps);
    assert forall i | 0 <= i < |ps| && HasResidual(ps[i]) :: ResidualFlags(ps)[i];
  }

  lemma ViaReaches(first: seq<nat>, second: seq<nat>, m: nat)
    requires forall k | 0 <= k < |second| :: second[k] < |first|
    requires m < |first| && m in second
    ensures first[m] in Via(first, second)
  {
    var l :| 0 <= l < |second| && second[l] == m;
    assert Via(first, second)[l] == first[m];
  }

  lemma CloseOrderPicks(ps: seq<Closed>) returns (idx: seq<nat>)
    ensures Picks(ps, idx, CloseOrder(ps)) && forall i | 0 <= i < |ps| && HasResidual(ps[i]) :: i in idx
  {
    hide HasResidual, Residuals;
    var first := ResidualsPick(ps);
    var second := SortPicks(Residuals(ps), CloseKey);
    PicksCompose(ps, first, Residuals(ps), second, CloseOrder(ps));
    idx := Via(first, second);
    forall i | 0 <= i < |ps| && HasResidual(ps[i]) ensures i in idx { ViaCovers(first, second, i); }
  }

  lemma AsksArePicked(ps: seq<Closed>, mint: string, windowSec: real) returns (idx: seq<nat>)
    ensures AsksPick(ps, mint, windowSec, idx, AsksOf(CloseOrder(ps), mint, windowSec))
  {
    hide HasResidual, HasResidualOf, AskOf, CloseOrder, AsksOf, IsAskOf;
    var qs := CloseOrder(ps);
    var first := CloseOrderPicks(ps);
    var second := MintAsksPick(qs, mint, windowSec);
    idx := Via(first, second);
    forall k | 0 <= k < |idx|
      ensures idx[k] < |ps| && HasResidualOf(ps[idx[k]], mint)
      ensures IsAskOf(AsksOf(qs, mint, windowSec)[k], ps[idx[k]], windowSec)
    {
      assert qs[second[k]] == ps[first[second[k]]];
    }
    forall i | 0 <= i < |ps| && HasResidualOf(ps[i], mint) ensures i in idx {
      ResidualMint(ps[i], mint);
      var m :| 0 <= m < |first| && first[m] == i;
      assert qs[m] == ps[i] && m in second;
      ViaReaches(first, second, m);
    }
  }

  // ----- sums over picked entries

  ghost function Picked(xs: seq<real>, idx: seq<nat>): (r: seq<real>)
    requires forall k | 0 <= k < |idx| :: idx[k] < |xs|
    ensures |r| == |idx|
  {
    seq(|idx|, k requires 0 <= k < |idx| => xs[idx[k]])
  }

  lemma {:induction false} SumUpdate(xs: seq<real>, i: nat, x: real)
    requires i < |xs|
    ensures RowSum(xs[i := x]) == RowSum(xs) - xs[i] + x
  {
    var n := |xs| - 1;
    if i < n {
      SumUpdate(xs[..n], i, x);
      assert xs[i := x][..n] == xs[..n][i := x];
    } else {
      assert xs[i := x][..n] == xs[..n];
    }
  }

  lemma {:induction false} SumOfZeros(xs: seq<real>)
    requires forall i | 0 <= i < |xs| :: xs[i] == 0.0
    ensures RowSum(xs) == 0.0
  {
    if xs != [] { SumOfZeros(xs[..|xs| - 1]); }
  }

  /** Entries that are not picked are zero, so the picked ones have the whole sum. */
  lemma {:induction false} PickedSum(xs: seq<real>, idx: seq<nat>)
    requires forall k | 0 <= k < |idx| :: idx[k] < |xs|
    requires forall k, m | 0 <= k < m < |idx| :: idx[k] != idx[m]
    requires forall i | 0 <= i < |xs| && i !in idx :: xs[i] == 0.0
    ensures RowSum(Picked(xs, idx)) == RowSum(xs)
    decreases |idx|
  {
    if idx == [] {
      SumOfZeros(xs);
    } else {
      var n := |idx| - 1;
      var ys := xs[idx[n] := 0.0];
      assert idx == idx[..n] + [idx[n]];
      PickedSum(ys, idx[..n]);
      assert Picked(xs, idx)[..n] == Picked(ys, idx[..n]);
      SumUpdate(xs, idx[n], 0.0);
    }
  }

  ghost function RowSums(g: Assignment): (r: seq<real>)
    ensures |r| == |g|
  {
    seq(|g|, i requires 0 <= i < |g| => RowSum(g[i]))
  }

  lemma {:induction false} TotalIsSum(g: Assignment)
    ensures TotalOf(g) == RowSum(RowSums(g))
  {
    if g != [] {
      var n := |g| - 1;
      TotalIsSum(g[..n]);
      assert RowSums(g)[..n] == RowSums(g[..n]);
    }
  }

  ghost function Entries(g: Assignment, l: nat): (r: seq<real>)
    requires forall p | 0 <= p < |g| :: l < |g[p]|
    ensures |r| == |g|
  {
    seq(|g|, p requires 0 <= p < |g| => g[p][l])
  }

  lemma {:induction false} ColumnIsSum(g: Assignment, l: nat)
    requires forall p | 0 <= p < |g| :: l < |g[p]|
    ensures Column(g, l) == RowSum(Entries(g, l))
  {
    if g != [] {
      var n := |g| - 1;
      ColumnIsSum(g[..n], l);
      assert Entries(g, l)[..n] == Entries(g[..n], l);
    }
  }

  // ----- an assignment restricted to the picked rows and columns

  ghost predicate InRange(g: Assignment, width: nat, rows: seq<nat>, cols: seq<nat>) {
    && (forall i | 0 <= i < |g| :: |g[i]| == width)
    && (forall p | 0 <= p < |rows| :: rows[p] < |g|) && (forall l | 0 <= l < |cols| :: cols[l] < width)
    && (forall p, q | 0 <= p < q < |rows| :: rows[p] != rows[q])
    && (forall l, m | 0 <= l < m < |cols| :: cols[l] != cols[m])
  }

  predicate OnGrid(rows: seq<nat>, cols: seq<nat>, i: nat, j: nat) { i in rows && j in cols }

  /** Nothing stands outside the picked rows and columns. */
  ghost predicate ZeroOutside(g: Assignment, rows: seq<nat>, cols: seq<nat>) {
    forall i: nat, j: nat | i < |g| && j < |g[i]| && !OnGrid(rows, cols, i, j) :: g[i][j] == 0.0
  }

  lemma ZeroRow(g: Assignment, width: nat, rows: seq<nat>, cols: seq<nat>, i: nat)
    requires InRange(g, width, rows, cols) && ZeroOutside(g, rows, cols) && i < |g| && i !in rows
    ensures forall j | 0 <= j < width :: g[i][j] == 0.0
  {
    forall j | 0 <= j < width ensures g[i][j] == 0.0 {
      assert !OnGrid(rows, cols, i, j);
    }
  }

  ghost function Restrict(g: Assignment, width: nat, rows: seq<nat>, cols: seq<nat>): (r: Assignment)
    requires InRange(g, width, rows, cols)
    ensures |r| == |rows| && forall p | 0 <= p < |r| :: |r[p]| == |cols|
  {
    seq(|rows|, p requires 0 <= p < |rows| => Picked(g[rows[p]], cols))
  }

  lemma RestrictRow(g: Assignment, width: nat, rows: seq<nat>, cols: seq<nat>, p: nat)
    requires InRange(g, width, rows, cols) && ZeroOutside(g, rows, cols) && p < |rows|
    ensures RowSum(Restrict(g, width, rows, cols)[p]) == RowSum(g[rows[p]])
  {
    PickedSum(g[rows[p]], cols);
  }

  lemma RestrictColumn(g: Assignment, width: nat, rows: seq<nat>, cols: seq<nat>, l: nat)
    requires InRange(g, width, rows, cols) && ZeroOutside(g, rows, cols) && l < |cols|
    ensures Column(Restrict(g, width, rows, cols), l) == Column(g, cols[l])
  {
    var r := Restrict(g, width, rows, cols);
    ColumnIsSum(r, l);
    ColumnIsSum(g, cols[l]);
    assert Entries(r, l) == Picked(Entries(g, cols[l]), rows);
    forall i | 0 <= i < |g| && i !in rows ensures Entries(g, cols[l])[i] == 0.0 {
      ZeroRow(g, width, rows, cols, i);
    }
    PickedSum(Entries(g, cols[l]), rows);
  }

  lemma RestrictTotal(g: Assignment, width: nat, rows: seq<nat>, cols: seq<nat>)
    requires InRange(g, width, rows, cols) && ZeroOutside(g, rows, cols)
    ensures TotalOf(Restrict(g, width, rows, cols)) == TotalOf(g)
  {
    var r := Restrict(g, width, rows, cols);
    TotalIsSum(r);
    TotalIsSum(g);
    forall p | 0 <= p < |rows| ensures RowSums(r)[p] == RowSums(g)[rows[p]] { RestrictRow(g, width, rows, cols, p); }
    assert RowSums(r) == Picked(RowSums(g), rows);
    forall i | 0 <= i < |g| && i !in rows ensures RowSum(g[i]) == 0.0 {
      ZeroRow(g, width, rows, cols, i);
      SumOfZeros(g[i]);
    }
    PickedSum(RowSums(g), rows);
  }

  // ----- from the raw inputs to the lots and asks, and back

  /** A matching only uses the picked positions and sells. */
  lemma MatchingIsOnGrid(g: Assignment, ps: seq<Closed>, sells: seq<Sell>, mint: string, windowSec: real,
                         rows: seq<nat>, asks: seq<Ask>, cols: seq<nat>, lots: seq<SellLot>)
    requires IsMatching(g, ps, sells, mint, windowSec)
    requires AsksPick(ps, mint, windowSec, rows, asks) && LotsPick(sells, mint, cols, lots)
    ensures InRange(g, |sells|, rows, cols) && ZeroOutside(g, rows, cols)
  {
    hide HasResidualOf, IsSellOf, InWindow, IsAskOf, RowSum, Column;
    forall i: nat, j: nat | i < |g| && j < |g[i]| && !OnGrid(rows, cols, i, j) ensures g[i][j] == 0.0 {
      var p, s := ps[i], sells[j];
      assert g[i][j] >= 0.0;
    }
  }

  /** An entry of the restricted assignment respects its window. */
  lemma EntryIsEligible(p: Closed, s: Sell, mint: string, windowSec: real, ask: Ask, lot: SellLot, x: real)
    requires x > 0.0 ==> MayUse(p, s, mint, windowSec)
    requires HasResidualOf(p, mint) && IsAskOf(ask, p, windowSec) && lot == LotOf(s)
    ensures x > 0.0 ==> Eligible(ask, lot)
    ensures ask.need == p.residualAmount.value
  {
    AskIsWindow(p, s, mint, windowSec);
  }

  lemma RowsAreFeasible(g: Assignment, ps: seq<Closed>, sells: seq<Sell>, mint: string, windowSec: real,
                        rows: seq<nat>, asks: seq<Ask>, cols: seq<nat>, lots: seq<SellLot>)
    requires IsMatching(g, ps, sells, mint, windowSec)
    requires AsksPick(ps, mint, windowSec, rows, asks) && LotsPick(sells, mint, cols, lots)
    requires InRange(g, |sells|, rows, cols) && ZeroOutside(g, rows, cols)
    ensures RowsWithin(Restrict(g, |sells|, rows, cols), lots, asks)
  {
    hide HasResidualOf, IsSellOf, InWindow, IsAskOf, MayUse, Eligible, ZeroOutside, RowSum, Column;
    var r := Restrict(g, |sells|, rows, cols);
    forall p | 0 <= p < |asks|
      ensures RowSum(r[p]) <= asks[p].need
      ensures forall l | 0 <= l < |lots| :: r[p][l] >= 0.0 && (r[p][l] > 0.0 ==> Eligible(asks[p], lots[l]))
    {
      RestrictRow(g, |sells|, rows, cols, p);
      NeedIsAmount(ps[rows[p]], mint, windowSec, asks[p]);
      forall l | 0 <= l < |lots| ensures r[p][l] >= 0.0 && (r[p][l] > 0.0 ==> Eligible(asks[p], lots[l])) {
        assert r[p][l] == g[rows[p]][cols[l]];
        EntryIsEligible(ps[rows[p]], sells[cols[l]], mint, windowSec, asks[p], lots[l], r[p][l]);
      }
    }
  }

  lemma NeedIsAmount(p: Closed, mint: string, windowSec: real, ask: Ask)
    requires HasResidualOf(p, mint) && IsAskOf(ask, p, windowSec)
    ensures p.residualAmount.Some? && ask.need == p.residualAmount.value
  {
  }

  lemma MatchingIsFeasible(g: Assignment, ps: seq<Closed>, sells: seq<Sell>, mint: string, windowSec: real,
                           rows: seq<nat>, asks: seq<Ask>, cols: seq<nat>, lots: seq<SellLot>)
    requires IsMatching(g, ps, sells, mint, windowSec)
    requires AsksPick(ps, mint, windowSec, rows, asks) && LotsPick(sells, mint, cols, lots)
    ensures InRange(g, |sells|, rows, cols) && Feasible(Restrict(g, |sells|, rows, cols), lots, asks)
    ensures TotalOf(Restrict(g, |sells|, rows, cols)) == TotalOf(g)
  {
    MatchingIsOnGrid(g, ps, sells, mint, windowSec, rows, asks, cols, lots);
    RestrictTotal(g, |sells|, rows, cols);
    RowsAreFeasible(g, ps, sells, mint, windowSec, rows, asks, cols, lots);
    hide HasResidualOf, IsSellOf, MayUse, IsAskOf, Eligible, ZeroOutside, TotalOf, RowSum, Column;
    var r := Restrict(g, |sells|, rows, cols);
    forall l | 0 <= l < |lots| ensures Column(r, l) <= lots[l].remTok {
      RestrictColumn(g, |sells|, rows, cols, l);
      assert Column(g, cols[l]) <= sells[cols[l]].tokenAmount;
    }
  }

  // ----- an assignment of lots to asks, spread over the raw inputs

  ghost function IndexIn(idx: seq<nat>, i: nat): (k: nat)
    requires i in idx
    ensures k < |idx| && idx[k] == i
  {
    var k: nat :| k < |idx| && idx[k] == i;
    k
  }

  ghost function SpreadAt(f: Assignment, rows: seq<nat>, cols: seq<nat>, i: nat, j: nat): real
    requires |f| == |rows| && forall p | 0 <= p < |f| :: |f[p]| == |cols|
  {
    if i in rows && j in cols then f[IndexIn(rows, i)][IndexIn(cols, j)] else 0.0
  }

  ghost function Spread(f: Assignment, height: nat, width: nat, rows: seq<nat>, cols: seq<nat>): (g: Assignment)
    requires |f| == |rows| && forall p | 0 <= p < |f| :: |f[p]| == |cols|
    ensures |g| == height && forall i | 0 <= i < |g| :: |g[i]| == width
  {
    seq(height, i requires 0 <= i < height => seq(width, j requires 0 <= j < width => SpreadAt(f, rows, cols, i, j)))
  }

  lemma SpreadRestricts(f: Assignment, height: nat, width: nat, rows: seq<nat>, cols: seq<nat>)
    requires |f| == |rows| && forall p | 0 <= p < |f| :: |f[p]| == |cols|
    requires InRange(Spread(f, height, width, rows, cols), width, rows, cols)
    ensures Restrict(Spread(f, height, width, rows, cols), width, rows, cols) == f
    ensures ZeroOutside(Spread(f, height, width, rows, cols), rows, cols)
  {
    var g := Spread(f, height, width, rows, cols);
    var r := Restrict(g, width, rows, cols);
    forall p | 0 <= p < |rows| ensures r[p] == f[p] {
      forall l | 0 <= l < |cols| ensures r[p][l] == f[p][l] {
        assert rows[p] in rows && cols[l] in cols;
        assert IndexIn(rows, rows[p]) == p && IndexIn(cols, cols[l]) == l;
        assert r[p][l] == g[rows[p]][cols[l]] == SpreadAt(f, rows, cols, rows[p], cols[l]);
      }
    }
  }

  lemma SpreadIsMatching(f: Assignment, ps: seq<Closed>, sells: seq<Sell>, mint: string, windowSec: real,
                         rows: seq<nat>, asks: seq<Ask>, cols: seq<nat>, lots: seq<SellLot>)
    requires Feasible(f, lots, asks)
    requires AsksPick(ps, mint, windowSec, rows, asks) && LotsPick(sells, mint, cols, lots)
    ensures IsMatching(Spread(f, |ps|, |sells|, rows, cols), ps, sells, mint, windowSec)
    ensures TotalOf(Spread(f, |ps|, |sells|, rows, cols)) == TotalOf(f)
  {
    hide HasResidualOf, IsSellOf, InWindow, IsAskOf, Eligible, RowSum, Column, TotalOf;
    var g := Spread(f, |ps|, |sells|, rows, cols);
    SpreadRestricts(f, |ps|, |sells|, rows, cols);
    RestrictTotal(g, |sells|, rows, cols);
    forall i, j | 0 <= i < |ps| && 0 <= j < |sells|
      ensures g[i][j] >= 0.0 && (g[i][j] > 0.0 ==> MayUse(ps[i], sells[j], mint, windowSec))
    {
      if i in rows && j in cols {
        var p, l := IndexIn(rows, i), IndexIn(cols, j);
        EntryMayBeUsed(ps[i], sells[j], mint, windowSec, asks[p], lots[l], f[p][l]);
      }
    }
    forall i | 0 <= i < |ps| && HasResidualOf(ps[i], mint)
      ensures ps[i].residualAmount.Some? && RowSum(g[i]) <= ps[i].residualAmount.value
    {
      var p := IndexIn(rows, i);
      RestrictRow(g, |sells|, rows, cols, p);
      NeedIsAmount(ps[i], mint, windowSec, asks[p]);
    }
    forall j | 0 <= j < |sells| && IsSellOf(sells[j], mint) ensures Column(g, j) <= sells[j].tokenAmount {
      RestrictColumn(g, |sells|, rows, cols, IndexIn(cols, j));
    }
  }

  lemma EntryMayBeUsed(p: Closed, s: Sell, mint: string, windowSec: real, ask: Ask, lot: SellLot, x: real)
    requires x > 0.0 ==> Eligible(ask, lot)
    requires HasResidualOf(p, mint) && IsAskOf(ask, p, windowSec) && IsSellOf(s, mint) && lot == LotOf(s)
    ensures x > 0.0 ==> MayUse(p, s, mint, windowSec)
  {
    AskIsWindow(p, s, mint, windowSec);
  }

  // ----- the theorem

  /** The window in seconds: three days unless given. */
  ghost function WindowOf(window: Option<real>): real {
    match window
    case None => 259200.0
    case Some(w) => w
  }

  /** Lots and asks are at most the sells and positions. */
  lemma {:induction false} KeptIsShort(flags: seq<bool>)
    ensures |Kept(flags)| <= |flags|
  {
    if flags != [] { KeptIsShort(flags[..|flags| - 1]); }
  }

  lemma SizesAreSmall(ps: seq<Closed>, sells: seq<Sell>, mint: string, windowSec: real)
    ensures |Lots(sells, mint)| <= |sells| && |AsksOf(CloseOrder(ps), mint, windowSec)| <= |ps|
  {
    ArrivalsAreKept(sells, mint);
    KeptIsShort(SellFlags(sells, mint));
    AsksAreKept(CloseOrder(ps), mint, windowSec);
    KeptIsShort(MintFlags(CloseOrder(ps), mint));
    ResidualsAreKept(ps);
    KeptIsShort(ResidualFlags(ps));
  }

  lemma {:induction false} CrumbsMono(m: nat, n: nat, eps: real)
    requires m <= n && eps >= 0.0
    ensures Crumbs(m, eps) <= Crumbs(n, eps)
  {
    if m < n { CrumbsMono(m, n - 1, eps); }
  }

  /**
   * No way of giving the sells of a mint to the closed positions, each within its own window and amount,
   * sells more than is reported, up to one threshold per sell and position; none at all for `eps` = 0.
   */
  lemma MatchingIsOptimal(ps: seq<Closed>, sells: seq<Sell>, mint: string, window: Option<real>, eps: real,
                          g: Assignment)
    requires eps >= 0.0 && IsMatching(g, ps, sells, mint, WindowOf(window))
    ensures var sold := SoldOf(Reconstruct(ps, sells, window.GetOr(DEFAULT_WINDOW_SEC), eps), mint);
            && TotalOf(g) <= sold + Crumbs(|sells| + |ps|, eps)
            && (eps == 0.0 ==> TotalOf(g) <= sold)
  {
    var windowSec := window.GetOr(DEFAULT_WINDOW_SEC);
    assert windowSec == WindowOf(window);
    SortedIsOptimal(ps, sells, mint, windowSec, eps, g);
    SizesAreSmall(ps, sells, mint, windowSec);
    hide *;
    CrumbsMono(|Lots(sells, mint)| + |AsksOf(CloseOrder(ps), mint, windowSec)|, |sells| + |ps|, eps);
  }

  lemma SortedIsOptimal(ps: seq<Closed>, sells: seq<Sell>, mint: string, windowSec: real, eps: real, g: Assignment)
    requires eps >= 0.0 && IsMatching(g, ps, sells, mint, windowSec)
    ensures var sold := SoldOf(Reconstruct(ps, sells, windowSec, eps), mint);
            && TotalOf(g) <= sold + Crumbs(|Lots(sells, mint)| + |AsksOf(CloseOrder(ps), mint, windowSec)|, eps)
            && (eps == 0.0 ==> TotalOf(g) <= sold)
  {
    hide IsMatching, Lots, CloseOrder, AsksOf, Reconstruct, SoldOf, TotalOf, Crumbs, AsksPick, LotsPick;
    hide Feasible, Restrict, InRange;
    var rows := AsksArePicked(ps, mint, windowSec);
    var cols := LotsArePicked(sells, mint);
    var asks, lots := AsksOf(CloseOrder(ps), mint, windowSec), Lots(sells, mint);
    MatchingIsFeasible(g, ps, sells, mint, windowSec, rows, asks, cols, lots);
    GreedyIsOptimal(ps, sells, mint, windowSec, eps, Restrict(g, |sells|, rows, cols));
  }

  /** And what is reported is the total of such a way. */
  lemma MatchingIsAttained(ps: seq<Closed>, sells: seq<Sell>, mint: string, window: Option<real>, eps: real)
    returns (g: Assignment)
    requires eps >= 0.0
    ensures IsMatching(g, ps, sells, mint, WindowOf(window))
    ensures TotalOf(g) == SoldOf(Reconstruct(ps, sells, window.GetOr(DEFAULT_WINDOW_SEC), eps), mint)
  {
    var windowSec := window.GetOr(DEFAULT_WINDOW_SEC);
    assert windowSec == WindowOf(window);
    hide IsMatching, Lots, CloseOrder, AsksOf, Reconstruct, SoldOf, TotalOf, AsksPick, LotsPick, Greedy, Spread;
    var rows := AsksArePicked(ps, mint, windowSec);
    var cols := LotsArePicked(sells, mint);
    var asks, lots := AsksOf(CloseOrder(ps), mint, windowSec), Lots(sells, mint);
    GreedyIsAttained(ps, sells, mint, windowSec, eps);
    var f := Greedy(lots, asks, |asks|, eps);
    SameShape(ps, sells, mint, windowSec, rows, asks, cols, lots, f);
    SpreadIsMatching(f, ps, sells, mint, windowSec, rows, asks, cols, lots);
    g := Spread(f, |ps|, |sells|, rows, cols);
  }

  lemma SameShape(ps: seq<Closed>, sells: seq<Sell>, mint: string, windowSec: real, rows: seq<nat>, asks: seq<Ask>,
                  cols: seq<nat>, lots: seq<SellLot>, f: Assignment)
    requires Feasible(f, lots, asks) && AsksPick(ps, mint, windowSec, rows, asks) && LotsPick(sells, mint, cols, lots)
    ensures |f| == |rows| && forall p | 0 <= p < |f| :: |f[p]| == |cols|
  {
  }

  // ----- which positions are reported, and in which order

  /** Report k is about position idx[k]: exactly the positions that count, the oldest close first. */
  lemma ReportsInCloseOrder(ps: seq<Closed>, sells: seq<Sell>, windowSec: real, eps: real) returns (idx: seq<nat>)
    requires eps >= 0.0
    ensures var out := Reconstruct(ps, sells, windowSec, eps);
            && |out| == |idx|
            && (forall k, m | 0 <= k < m < |idx| :: idx[k] != idx[m])
            && (forall k | 0 <= k < |idx| ::
                  idx[k] < |ps| && HasResidualOf(ps[idx[k]], out[k].mint)
                  && out[k].positionAddress == ps[idx[k]].positionAddress
                  && out[k].soldAmount + out[k].heldAmount == ps[idx[k]].residualAmount.value)
            && (forall k, m | 0 <= k < m < |idx| :: ps[idx[k]].closedAt.value <= ps[idx[m]].closedAt.value)
            && (forall i, mint | 0 <= i < |ps| && HasResidualOf(ps[i], mint) :: i in idx)
  {
    hide HasResidual, HasResidualOf, CloseOrder, MatchAll, LedgerOf;
    idx := CloseOrderPicks(ps);
    var qs := CloseOrder(ps);
    ReportsAreSound(sells, qs, windowSec, eps);
    forall k | 0 <= k < |idx|
      ensures HasResidualOf(ps[idx[k]], Reconstruct(ps, sells, windowSec, eps)[k].mint)
    {
      ResidualMint(qs[k], Reconstruct(ps, sells, windowSec, eps)[k].mint);
    }
    CloseOrderIsSorted(ps);
    forall i, mint | 0 <= i < |ps| && HasResidualOf(ps[i], mint) ensures i in idx { ResidualMint(ps[i], mint); }
  }

  lemma CloseOrderIsSorted(ps: seq<Closed>)
    ensures ByClose(CloseOrder(ps))
  {
    SortSorts(Residuals(ps), CloseKey);
    var qs := CloseOrder(ps);
    forall k: nat, m: nat | k < m < |qs| ensures ClosesBefore(qs[k], qs[m]) {
      assert qs[k] in qs && qs[m] in qs;
      SortedAt(qs, CloseKey, k, m);
    }
  }

  lemma SortedAt<T>(xs: seq<T>, key: T -> int, i: nat, j: nat)
    requires Sorted(xs, key) && i < j < |xs|
    ensures key(xs[i]) <= key(xs[j])
  {
  }

  predicate ClosesBefore(p: Closed, q: Closed) {
    p.closedAt.Some? && q.closedAt.Some? && p.closedAt.value <= q.closedAt.value
  }

  ghost predicate ByClose(qs: seq<Closed>) {
    forall k: nat, m: nat | k < m < |qs| :: ClosesBefore(qs[k], qs[m])
  }
}
