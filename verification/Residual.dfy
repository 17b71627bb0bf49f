/** Insertion into a key-ordered list: the stable `Array.prototype.sort` of the service. */
module StableSort {
  ghost predicate Sorted<T>(xs: seq<T>, key: T -> int) {
    forall i, j | 0 <= i < j < |xs| :: key(xs[i]) <= key(xs[j])
  }

  /** Insert after every element with the same or a smaller key. */
  function Insert<T>(xs: seq<T>, x: T, key: T -> int): (r: seq<T>)
    ensures |r| == |xs| + 1
  {
    var n := |xs| - 1;
    if xs == [] || key(xs[n]) <= key(x) then xs + [x]
    else Insert(xs[..n], x, key) + [xs[n]]
  }

  function Sort<T>(xs: seq<T>, key: T -> int): (r: seq<T>)
    ensures |r| == |xs|
  {
    if xs == [] then []
    else
      var n := |xs| - 1;
      Insert(Sort(xs[..n], key), xs[n], key)
  }

  lemma {:induction false} InsertSorts<T>(xs: seq<T>, x: T, key: T -> int)
    requires Sorted(xs, key)
    ensures var r := Insert(xs, x, key);
            && Sorted(r, key)
            && key(r[|xs|]) == if xs == [] || key(xs[|xs| - 1]) <= key(x) then key(x) else key(xs[|xs| - 1])
  {
    var n := |xs| - 1;
    if xs != [] && key(xs[n]) > key(x) { InsertSorts(xs[..n], x, key); }
  }

  lemma {:induction false} InsertContents<T>(xs: seq<T>, x: T, key: T -> int)
    ensures multiset(Insert(xs, x, key)) == multiset(xs) + multiset{x}
  {
    var n := |xs| - 1;
    if xs != [] && key(xs[n]) > key(x) {
      InsertContents(xs[..n], x, key);
      assert xs == xs[..n] + [xs[n]];
    }
  }

  lemma {:induction false} SortContents<T>(xs: seq<T>, key: T -> int)
    ensures multiset(Sort(xs, key)) == multiset(xs)
  {
    hide Insert;
    if xs != [] {
      var n := |xs| - 1;
      SortContents(xs[..n], key);
      InsertContents(Sort(xs[..n], key), xs[n], key);
      assert xs == xs[..n] + [xs[n]];
    }
  }

  /** Sorting orders the list by key and neither loses nor invents an element. */
  lemma {:induction false} SortSorts<T>(xs: seq<T>, key: T -> int)
    ensures Sorted(Sort(xs, key), key) && multiset(Sort(xs, key)) == multiset(xs)
  {
    hide Insert;
    SortContents(xs, key);
    if xs != [] {
      var n := |xs| - 1;
      SortSorts(xs[..n], key);
      InsertSorts(Sort(xs[..n], key), xs[n], key);
    }
  }

  function WithKey<T>(xs: seq<T>, key: T -> int, k: int): seq<T> {
    if xs == [] then []
    else
      var n := |xs| - 1;
      WithKey(xs[..n], key, k) + (if key(xs[n]) == k then [xs[n]] else [])
  }

  lemma WithKeyAppend<T>(xs: seq<T>, x: T, key: T -> int, k: int)
    ensures WithKey(xs + [x], key, k) == WithKey(xs, key, k) + (if key(x) == k then [x] else [])
  {
    assert (xs + [x])[..|xs|] == xs;
  }

  lemma {:induction false} InsertKeepsOrder<T>(xs: seq<T>, x: T, key: T -> int, k: int)
    requires Sorted(xs, key)
    ensures WithKey(Insert(xs, x, key), key, k) == WithKey(xs, key, k) + (if key(x) == k then [x] else [])
  {
    var n := |xs| - 1;
    WithKeyAppend(xs, x, key, k);
    if xs != [] && key(xs[n]) > key(x) {
      InsertKeepsOrder(xs[..n], x, key, k);
      WithKeyAppend(Insert(xs[..n], x, key), xs[n], key, k);
    }
  }

  /** Elements with equal keys keep their input order. */
  lemma {:induction false} SortIsStable<T>(xs: seq<T>, key: T -> int, k: int)
    ensures WithKey(Sort(xs, key), key, k) == WithKey(xs, key, k)
  {
    if xs != [] {
      var n := |xs| - 1;
      SortIsStable(xs[..n], key, k);
      SortSorts(xs[..n], key);
      InsertKeepsOrder(Sort(xs[..n], key), xs[n], key, k);
    }
  }
}

/**
 * `reconstructRealized`: the residual tokens of closed positions are matched to the wallet's real sells
 * of the same mint, oldest close first, each position taking the oldest sells of its window.
 * `eps` is the dust threshold of the two token tests in the inner loop.
 */
module Residual {
  import opened Options
  import opened StableSort

  const PRE_CLOSE_SLACK_SEC := 60.0
  const DEFAULT_WINDOW_SEC := 259200.0

  /** A decoded sell as it comes from the swap history. */
  datatype Sell = Sell(ts: int, mint: string, tokenAmount: real, solReceived: real)

  /** A sell with its remaining token and SOL balance. */
  datatype SellLot = SellLot(ts: int, remTok: real, remSol: real)

  /** The fields of a closed position that the matching reads; `closedAt` is in milliseconds. */
  datatype Closed = Closed(
    positionAddress: string,
    residualMint: Option<string>,
    residualAmount: Option<real>,
    residualMarkSol: Option<real>,
    closedAt: Option<int>)

  datatype RealizedResidual = RealizedResidual(
    positionAddress: string,
    soldProceeds: real,
    soldAmount: real,
    heldAmount: real,
    mint: string,
    fillFraction: real)

  function Min(x: real, y: real): real { if x <= y then x else y }

  // ----- inputs: which sells and positions take part, and in which order

  predicate Counts(s: Sell) {
    s.mint != "" && s.tokenAmount > 0.0 && s.solReceived > 0.0
  }

  /** The lots of one mint in arrival order. */
  function Arrivals(sells: seq<Sell>, mint: string): seq<SellLot> {
    if sells == [] then []
    else
      var n := |sells| - 1;
      var s := sells[n];
      Arrivals(sells[..n], mint)
      + (if Counts(s) && s.mint == mint then [SellLot(s.ts, s.tokenAmount, s.solReceived)] else [])
  }

  function TimeKey(lot: SellLot): int { lot.ts }

  /** The ledger of one mint: its sells, oldest first. */
  function Lots(sells: seq<Sell>, mint: string): seq<SellLot> {
    Sort(Arrivals(sells, mint), TimeKey)
  }

  predicate HasResidual(p: Closed) {
    && p.residualMarkSol.GetOr(0.0) > 0.0
    && p.residualAmount.GetOr(0.0) > 0.0
    && p.residualMint.GetOr("") != ""
    && p.closedAt.GetOr(0) > 0
  }

  function Residuals(ps: seq<Closed>): (r: seq<Closed>)
    ensures forall p | p in r :: HasResidual(p) && p in ps
  {
    if ps == [] then []
    else
      var n := |ps| - 1;
      Residuals(ps[..n]) + (if HasResidual(ps[n]) then [ps[n]] else [])
  }

  function CloseKey(p: Closed): int { p.closedAt.GetOr(0) }

  /** The positions with a residual, oldest close first. */
  function CloseOrder(ps: seq<Closed>): (r: seq<Closed>)
    ensures forall p | p in r :: HasResidual(p) && p in ps
  {
    var rs := Residuals(ps);
    SortSorts(rs, CloseKey);
    assert forall p | p in Sort(rs, CloseKey) :: p in multiset(Sort(rs, CloseKey)) && p in multiset(rs);
    Sort(rs, CloseKey)
  }

  // ----- one position against the ledger of its mint

  /** What a position asks for: an amount, and the window in which sells count as its exit. */
  datatype Ask = Ask(need: real, from: real, until: real)

  function AskOf(p: Closed, windowSec: real): Ask
    requires HasResidual(p)
  {
    var closeAt := p.closedAt.value as real / 1000.0;
    Ask(p.residualAmount.value, closeAt - PRE_CLOSE_SLACK_SEC, closeAt + windowSec)
  }

  datatype Fill = Fill(lots: seq<SellLot>, need: real, soldProceeds: real, soldAmount: real)

  function SolShare(lot: SellLot, take: real): real
    requires lot.remTok != 0.0
  {
    lot.remSol * take / lot.remTok
  }

  function Sold(lot: SellLot, take: real): SellLot
    requires lot.remTok != 0.0
  {
    lot.(remTok := lot.remTok - take, remSol := lot.remSol - SolShare(lot, take))
  }

  /** One pass of the inner loop, for a lot that is neither skipped nor ends the loop. */
  function TakeFrom(f: Fill, i: nat): Fill
    requires i < |f.lots| && f.lots[i].remTok != 0.0
  {
    var lot := f.lots[i];
    var take := Min(f.need, lot.remTok);
    Fill(f.lots[i := Sold(lot, take)], f.need - take, f.soldProceeds + SolShare(lot, take), f.soldAmount + take)
  }

  /** The inner loop from lot `i` on. */
  function FillFrom(f: Fill, i: nat, ask: Ask, eps: real): (r: Fill)
    requires i <= |f.lots| && eps >= 0.0
    ensures |r.lots| == |f.lots|
    decreases |f.lots| - i
  {
    if i == |f.lots| || f.need <= eps then f
    else if f.lots[i].remTok <= eps || f.lots[i].ts as real < ask.from then FillFrom(f, i + 1, ask, eps)
    else if f.lots[i].ts as real > ask.until then f
    else FillFrom(TakeFrom(f, i), i + 1, ask, eps)
  }

  function FillAsk(lots: seq<SellLot>, ask: Ask, eps: real): (r: Fill)
    requires eps >= 0.0
    ensures |r.lots| == |lots|
  {
    FillFrom(Fill(lots, ask.need, 0.0, 0.0), 0, ask, eps)
  }

  function Report(p: Closed, f: Fill): RealizedResidual
    requires HasResidual(p)
  {
    var amount := p.residualAmount.value;
    RealizedResidual(p.positionAddress, f.soldProceeds, f.soldAmount,
                     if amount - f.soldAmount >= 0.0 then amount - f.soldAmount else 0.0,
                     p.residualMint.value, f.soldAmount / amount)
  }

  // ----- all positions against the ledgers of all mints

  type Ledger = map<string, seq<SellLot>>

  function LotsIn(ledger: Ledger, mint: string): seq<SellLot> {
    if mint in ledger then ledger[mint] else []
  }

  /** A mint without an entry gets a fresh empty list, which is not put into the ledger. */
  function Store(ledger: Ledger, mint: string, lots: seq<SellLot>): Ledger {
    if mint in ledger then ledger[mint := lots] else ledger
  }

  function MatchAll(ledger: Ledger, ps: seq<Closed>, windowSec: real, eps: real): (r: (Ledger, seq<RealizedResidual>))
    requires eps >= 0.0 && forall p | p in ps :: HasResidual(p)
    ensures |r.1| == |ps|
  {
    if ps == [] then (ledger, [])
    else
      var n := |ps| - 1;
      var (before, out) := MatchAll(ledger, ps[..n], windowSec, eps);
      var p := ps[n];
      assert HasResidual(p) && p.residualMint.Some?;
      var mint := p.residualMint.value;
      var f := FillAsk(LotsIn(before, mint), AskOf(p, windowSec), eps);
      (Store(before, mint, f.lots), out + [Report(p, f)])
  }

  function LedgerOf(sells: seq<Sell>): Ledger {
    map s | s in sells && Counts(s) :: s.mint := Lots(sells, s.mint)
  }

  function Reconstruct(ps: seq<Closed>, sells: seq<Sell>, windowSec: real, eps: real): seq<RealizedResidual>
    requires eps >= 0.0
  {
    MatchAll(LedgerOf(sells), CloseOrder(ps), windowSec, eps).1
  }

  // ----- the function as it runs, with its mutable ledger

  /** Adding one sell to the arrivals collected so far. */
  lemma ArrivalsStep(sells: seq<Sell>, i: nat, m: string)
    requires i < |sells|
    ensures Arrivals(sells[..i + 1], m)
            == Arrivals(sells[..i], m)
               + (if Counts(sells[i]) && sells[i].mint == m
                  then [SellLot(sells[i].ts, sells[i].tokenAmount, sells[i].solReceived)] else [])
  {
    assert sells[..i + 1][..i] == sells[..i];
  }

  lemma {:induction false} ArrivalsExist(sells: seq<Sell>, m: string)
    ensures Arrivals(sells, m) != [] <==> exists s :: s in sells && Counts(s) && s.mint == m
  {
    if sells != [] {
      var n := |sells| - 1;
      ArrivalsExist(sells[..n], m);
      assert sells == sells[..n] + [sells[n]];
      assert sells[n] in sells;
    }
  }

  /** The map of unsorted arrivals after a prefix of the sells. */
  ghost predicate Collected(arrivals: Ledger, sells: seq<Sell>) {
    && (forall m :: LotsIn(arrivals, m) == Arrivals(sells, m))
    && (forall m | m in arrivals :: arrivals[m] != [])
  }

  function Collect(arrivals: Ledger, s: Sell): Ledger {
    if Counts(s) then arrivals[s.mint := LotsIn(arrivals, s.mint) + [SellLot(s.ts, s.tokenAmount, s.solReceived)]]
    else arrivals
  }

  lemma CollectStep(arrivals: Ledger, sells: seq<Sell>, i: nat)
    requires i < |sells| && Collected(arrivals, sells[..i])
    ensures Collected(Collect(arrivals, sells[i]), sells[..i + 1])
  {
    hide Arrivals;
    forall m ensures LotsIn(Collect(arrivals, sells[i]), m) == Arrivals(sells[..i + 1], m) {
      ArrivalsStep(sells, i, m);
      assert LotsIn(arrivals, m) == Arrivals(sells[..i], m);
    }
  }

  lemma CollectedIsLedger(arrivals: Ledger, sells: seq<Sell>)
    requires Collected(arrivals, sells)
    ensures (map m | m in arrivals :: Sort(arrivals[m], TimeKey)) == LedgerOf(sells)
  {
    hide Arrivals, Sort;
    var l := map m | m in arrivals :: Sort(arrivals[m], TimeKey);
    forall m ensures m in l <==> m in LedgerOf(sells) {
      ArrivalsExist(sells, m);
      assert m in arrivals <==> LotsIn(arrivals, m) != [];
    }
    forall m | m in l ensures l[m] == LedgerOf(sells)[m] {
      assert LotsIn(arrivals, m) == Arrivals(sells, m);
    }
  }

  method BuildLedger(sells: seq<Sell>) returns (ledger: Ledger)
    ensures ledger == LedgerOf(sells)
  {
    var arrivals: Ledger := map[];
    for i := 0 to |sells|
      invariant Collected(arrivals, sells[..i])
    {
      CollectStep(arrivals, sells, i);
      var s := sells[i];
      if Counts(s) {
        arrivals := arrivals[s.mint := LotsIn(arrivals, s.mint) + [SellLot(s.ts, s.tokenAmount, s.solReceived)]];
      }
    }
    assert sells[..|sells|] == sells;
    ledger := map m | m in arrivals :: Sort(arrivals[m], TimeKey);
    CollectedIsLedger(arrivals, sells);
  }

  method FillPosition(lots: seq<SellLot>, ask: Ask, eps: real) returns (f: Fill)
    requires eps >= 0.0
    ensures f == FillAsk(lots, ask, eps)
  {
    f := Fill(lots, ask.need, 0.0, 0.0);
    var i := 0;
    while i < |f.lots|
      invariant 0 <= i <= |f.lots| == |lots|
      invariant FillFrom(f, i, ask, eps) == FillAsk(lots, ask, eps)
    {
      var lot := f.lots[i];
      if f.need <= eps { break; }
      if lot.remTok <= eps || lot.ts as real < ask.from {
        i := i + 1;
        continue;
      }
      if lot.ts as real > ask.until { break; }
      f := TakeFrom(f, i);
      i := i + 1;
    }
  }

  /** Without a given window the default applies. */
  method ReconstructRealized(positions: seq<Closed>, sells: seq<Sell>, window: Option<real>, eps: real)
    returns (out: seq<RealizedResidual>)
    requires eps >= 0.0
    ensures out == Reconstruct(positions, sells, window.GetOr(DEFAULT_WINDOW_SEC), eps)
  {
    hide LedgerOf, CloseOrder, AskOf, FillAsk, Report, Store, LotsIn;
    var windowSec := window.GetOr(DEFAULT_WINDOW_SEC);
    var ledger := BuildLedger(sells);
    var ps := CloseOrder(positions);
    ghost var start := ledger;
    out := [];
    for i := 0 to |ps|
      invariant forall p | p in ps[..i] :: p in ps
      invariant (ledger, out) == MatchAll(start, ps[..i], windowSec, eps)
    {
      var p := ps[i];
      assert p in ps && ps[..i + 1][..i] == ps[..i];
      var mint := p.residualMint.value;
      var f := FillPosition(LotsIn(ledger, mint), AskOf(p, windowSec), eps);
      ledger := Store(ledger, mint, f.lots);
      out := out + [Report(p, f)];
    }
    assert ps[..|ps|] == ps;
  }
}
