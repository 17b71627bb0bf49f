/**
 * The marks of the held residual: a fresh bag at the bin price of the position's last leg, an aged one
 * at the lower of that and the average price of the mint's sells near the close.
 */
module HeldMarks {
  import opened Options
  import opened Fifo
  import opened FifoConservation
  import opened FifoMints
  import opened FifoTimelines
  import opened FifoHistory

  const CAP_WINDOW_SEC := 604800

  /** What the position table says of a position; `closedAt` is in milliseconds. */
  datatype Status = Status(closed: bool, closedAt: Option<int>)

  // ----- the bin price at the last leg

  function Power(base: real, n: nat): real {
    if n == 0 then 1.0 else base * Power(base, n - 1)
  }

  lemma {:induction false} PowerIsPositive(base: real, n: nat)
    requires base > 0.0
    ensures Power(base, n) > 0.0
  {
    if n > 0 {
      PowerIsPositive(base, n - 1);
      assert base * Power(base, n - 1) > 0.0;
    }
  }

  function Inverse(x: real): real
    requires x > 0.0
  {
    1.0 / x
  }

  /** The price of a bin, raw Y per raw X: a power of the bin step with the bin as exponent. */
  function BinPrice(bin: int, step: nat): (r: real)
    ensures r > 0.0
  {
    var base := 1.0 + step as real / 10000.0;
    PowerIsPositive(base, if bin >= 0 then bin else -bin);
    if bin >= 0 then Power(base, bin) else Inverse(Power(base, -bin))
  }

  /** The bin of the last leg of a position. */
  function LastBin(legs: seq<Leg>, p: Address): int
    requires exists l :: l in legs && l.position == p
  {
    var n := |legs| - 1;
    if legs[n].position == p then legs[n].activeBinId
    else
      assert forall l | l in legs && l.position == p :: l in legs[..n];
      LastBin(legs[..n], p)
  }

  /** SOL per token at the bin price, whichever side of the pool is SOL. */
  function BinMark(h: History, p: Address): (r: real)
    requires p in Metas(h.legs)
    ensures r > 0.0
  {
    MetasAreLegs(h.legs);
    var m := Metas(h.legs)[p];
    var price := BinPrice(LastBin(h.legs, p), m.binStep);
    var perRaw := if m.solIsY then price else Inverse(price);
    PositiveProduct(perRaw, Pow10(DecimalsOf(h.decimals, m.mint)));
    Worth(perRaw, Pow10(DecimalsOf(h.decimals, m.mint))) / LAMPORTS_PER_SOL
  }

  lemma PositiveProduct(x: real, y: real)
    requires x > 0.0 && y > 0.0
    ensures x * y > 0.0
  {
  }

  /** Bin prices are a geometric series with ratio one bin step, in basis points, and price 1 at bin 0. */
  lemma BinPriceLaw(bin: int, step: nat)
    ensures BinPrice(0, step) == 1.0
    ensures BinPrice(bin + 1, step) == BinPrice(bin, step) * (1.0 + step as real / 10000.0)
  {
    var base := 1.0 + step as real / 10000.0;
    assert Power(base, 0) == 1.0;
    if bin < 0 {
      var x := Power(base, -bin - 1);
      PowerIsPositive(base, -bin - 1);
      PowerIsPositive(base, -bin);
      assert Power(base, -bin) == base * x;
      InverseStep(base, x);
    }
  }

  lemma InverseStep(base: real, x: real)
    requires base > 0.0 && x > 0.0
    ensures base * x > 0.0 && Inverse(x) == Inverse(base * x) * base
  {
    PositiveProduct(base, x);
    var y := 1.0 / (base * x);
    assert y * (base * x) == 1.0;
    assert y * base * x == 1.0;
  }

  /** The bin is that of the last leg of the position. */
  lemma {:induction false} LastBinIsLast(legs: seq<Leg>, p: Address) returns (i: nat)
    requires exists l :: l in legs && l.position == p
    ensures i < |legs| && legs[i].position == p && LastBin(legs, p) == legs[i].activeBinId
    ensures forall j | i < j < |legs| :: legs[j].position != p
  {
    i := |legs| - 1;
    if legs[i].position != p {
      var before := legs[..i];
      assert forall j | 0 <= j < |before| :: before[j] == legs[j];
      assert exists l :: l in before && l.position == p;
      i := LastBinIsLast(before, p);
    }
  }

  /** The close bin as SOL per token: the price of raw units, whichever way round the pool is, in human units. */
  lemma BinMarkIsPrice(h: History, p: Address)
    requires p in Metas(h.legs)
    ensures exists l :: l in h.legs && l.position == p
    ensures var m := Metas(h.legs)[p];
            var price := BinPrice(LastBin(h.legs, p), m.binStep);
            var unit := Pow10(if m.mint in h.decimals then h.decimals[m.mint] else 9);
            BinMark(h, p) * 1000000000.0 == Worth(if m.solIsY then price else Inverse(price), unit)
  {
    MetasAreLegs(h.legs);
    hide BinPrice, Inverse, Pow10, LastBin, Metas, Worth;
  }

  lemma InverseIsInverse(x: real)
    requires x > 0.0
    ensures Inverse(x) * x == 1.0
  {
  }

  // ----- the price near the close

  /** A counted sell of the mint within the window around a close. */
  predicate IsNear(f: Flow, mint: Mint, closedAt: int) {
    Counts(f) && f.mint == mint
    && -(CAP_WINDOW_SEC as real) <= f.ts as real - closedAt as real / 1000.0 <= CAP_WINDOW_SEC as real
  }

  function NearSol(sells: seq<Flow>, mint: Mint, closedAt: int): real {
    if sells == [] then 0.0
    else
      var n := |sells| - 1;
      NearSol(sells[..n], mint, closedAt) + (if IsNear(sells[n], mint, closedAt) then sells[n].sol else 0.0)
  }

  function NearTokens(sells: seq<Flow>, mint: Mint, closedAt: int): real {
    if sells == [] then 0.0
    else
      var n := |sells| - 1;
      NearTokens(sells[..n], mint, closedAt)
      + (if IsNear(sells[n], mint, closedAt) then sells[n].tokenAmount else 0.0)
  }

  function NearPrice(sells: seq<Flow>, mint: Mint, closedAt: int): real {
    if NearTokens(sells, mint, closedAt) > 0.0
    then UnitPrice(NearSol(sells, mint, closedAt), NearTokens(sells, mint, closedAt)) else 0.0
  }

  method PriceNearClose(sells: seq<Flow>, mint: Mint, closedAt: int) returns (price: real)
    ensures price == NearPrice(sells, mint, closedAt)
  {
    var sol, tok := 0.0, 0.0;
    for i := 0 to |sells|
      invariant sol == NearSol(sells[..i], mint, closedAt) && tok == NearTokens(sells[..i], mint, closedAt)
    {
      assert sells[..i + 1][..i] == sells[..i];
      if IsNear(sells[i], mint, closedAt) {
        sol, tok := sol + sells[i].sol, tok + sells[i].tokenAmount;
      }
    }
    assert sells[..|sells|] == sells;
    price := if tok > 0.0 then UnitPrice(sol, tok) else 0.0;
  }

  /** Near the close means within seven days of it, on either side. */
  lemma NearIsWeek(f: Flow, mint: Mint, closedAt: int)
    ensures IsNear(f, mint, closedAt)
            <==> f.tokenAmount > 0.0 && f.sol > 0.0 && f.mint == mint
                 && -604800000 <= 1000 * f.ts - closedAt <= 604800000
  {
  }

  /** The price near the close is volume-weighted: times the tokens sold there it is the SOL received there. */
  lemma NearPriceIsAverage(sells: seq<Flow>, mint: Mint, closedAt: int)
    ensures Worth(NearTokens(sells, mint, closedAt), NearPrice(sells, mint, closedAt)) == NearSol(sells, mint, closedAt)
  {
    NearBounds(sells, mint, closedAt, 0.0);
    if NearTokens(sells, mint, closedAt) > 0.0 {
      WorthOfPrice(NearSol(sells, mint, closedAt), NearTokens(sells, mint, closedAt));
    }
  }

  lemma PriceAtLeast(f: Flow, price: real)
    requires Counts(f)
    ensures UnitPrice(f.sol, f.tokenAmount) >= price <==> f.sol >= Worth(f.tokenAmount, price)
    ensures UnitPrice(f.sol, f.tokenAmount) <= price <==> f.sol <= Worth(f.tokenAmount, price)
  {
    var unit := UnitPrice(f.sol, f.tokenAmount);
    WorthOfPrice(f.sol, f.tokenAmount);
    if unit > price {
      assert f.tokenAmount * unit > f.tokenAmount * price;
    } else if unit < price {
      assert f.tokenAmount * unit < f.tokenAmount * price;
    }
  }

  ghost predicate AllDearer(sells: seq<Flow>, mint: Mint, closedAt: int, price: real) {
    forall f | f in sells && IsNear(f, mint, closedAt) :: UnitPrice(f.sol, f.tokenAmount) > price
  }

  ghost predicate AllCheaper(sells: seq<Flow>, mint: Mint, closedAt: int, price: real) {
    forall f | f in sells && IsNear(f, mint, closedAt) :: UnitPrice(f.sol, f.tokenAmount) < price
  }

  /** Were all sells near the close dearer than `price`, so would their total be; the same for cheaper. */
  lemma {:induction false} NearBounds(sells: seq<Flow>, mint: Mint, closedAt: int, price: real)
    ensures var sol, tok := NearSol(sells, mint, closedAt), NearTokens(sells, mint, closedAt);
            && tok >= 0.0 && (tok > 0.0 <==> exists f :: f in sells && IsNear(f, mint, closedAt))
            && (tok > 0.0 && AllDearer(sells, mint, closedAt, price) ==> sol > Worth(tok, price))
            && (tok > 0.0 && AllCheaper(sells, mint, closedAt, price) ==> sol < Worth(tok, price))
            && (tok == 0.0 ==> sol == 0.0)
  {
    hide IsNear, Worth, UnitPrice;
    if sells != [] {
      var n := |sells| - 1;
      var f := sells[n];
      NearBounds(sells[..n], mint, closedAt, price);
      assert sells == sells[..n] + [f] && f in sells;
      if IsNear(f, mint, closedAt) {
        assert Counts(f) by { NearCounts(f, mint, closedAt); }
        PriceAtLeast(f, price);
        var before := NearTokens(sells[..n], mint, closedAt);
        WorthAdds(before, f.tokenAmount, price);
        WorthOfNothing(price);
        if before == 0.0 { assert NearSol(sells[..n], mint, closedAt) == Worth(before, price) == 0.0; }
      }
    }
  }

  lemma PriceIsPositive(f: Flow)
    requires Counts(f)
    ensures UnitPrice(f.sol, f.tokenAmount) > 0.0
  {
  }

  lemma NearCounts(f: Flow, mint: Mint, closedAt: int)
    requires IsNear(f, mint, closedAt)
    ensures Counts(f)
  {
  }

  ghost predicate SomeAtMost(sells: seq<Flow>, mint: Mint, closedAt: int, price: real) {
    exists f :: f in sells && IsNear(f, mint, closedAt) && UnitPrice(f.sol, f.tokenAmount) <= price
  }

  ghost predicate SomeAtLeast(sells: seq<Flow>, mint: Mint, closedAt: int, price: real) {
    exists f :: f in sells && IsNear(f, mint, closedAt) && UnitPrice(f.sol, f.tokenAmount) >= price
  }

  /** The price near the close lies between two prices that were really got near the close. */
  lemma NearPriceIsBetween(sells: seq<Flow>, mint: Mint, closedAt: int)
    ensures var price := NearPrice(sells, mint, closedAt);
            if exists f :: f in sells && IsNear(f, mint, closedAt)
            then SomeAtMost(sells, mint, closedAt, price) && SomeAtLeast(sells, mint, closedAt, price)
            else price == 0.0
  {
    hide IsNear, Worth, UnitPrice, NearSol, NearTokens;
    var price := NearPrice(sells, mint, closedAt);
    NearBounds(sells, mint, closedAt, price);
    if NearTokens(sells, mint, closedAt) > 0.0 {
      WorthOfPrice(NearSol(sells, mint, closedAt), NearTokens(sells, mint, closedAt));
      NotAllDearer(sells, mint, closedAt, price);
      NotAllCheaper(sells, mint, closedAt, price);
    }
  }

  lemma NotAllDearer(sells: seq<Flow>, mint: Mint, closedAt: int, price: real)
    requires !AllDearer(sells, mint, closedAt, price)
    ensures SomeAtMost(sells, mint, closedAt, price)
  {
    hide UnitPrice;
  }

  lemma NotAllCheaper(sells: seq<Flow>, mint: Mint, closedAt: int, price: real)
    requires !AllCheaper(sells, mint, closedAt, price)
    ensures SomeAtLeast(sells, mint, closedAt, price)
  {
    hide UnitPrice;
  }

  // ----- the mark of a position's leftover lots

  type Statuses = map<Address, Status>

  function StatusOf(statuses: Statuses, p: Address): Status {
    if p in statuses then statuses[p] else Status(false, None)
  }

  predicate Aged(st: Status, now: int) {
    st.closedAt.Some? && now - st.closedAt.value > CAP_WINDOW_SEC * 1000
  }

  function Max(x: real, y: real): real { if x >= y then x else y }

  function MarkOf(h: History, statuses: Statuses, now: int, p: Address): real
    requires p in Metas(h.legs)
  {
    var bin := Max(0.0, BinMark(h, p));
    var st := StatusOf(statuses, p);
    if Aged(st, now) then Max(0.0, Min(NearPrice(h.sells, Metas(h.legs)[p].mint, st.closedAt.value), bin))
    else bin
  }

  function Marks(h: History, statuses: Statuses, now: int): map<Address, real> {
    map p | p in Metas(h.legs) :: MarkOf(h, statuses, now, p)
  }

  /**
   * No bag is marked above its close bin. A fresh bag is marked at it; an aged one is worth something
   * only if some sell near the close got at least the mark, and below the bin only if some got at most
   * the mark, or there were no sells near the close and it is worth nothing.
   */
  lemma MarkIsSound(h: History, statuses: Statuses, now: int, p: Address)
    requires p in Metas(h.legs)
    ensures var mark, bin := MarkOf(h, statuses, now, p), BinMark(h, p);
            var st, mint := StatusOf(statuses, p), Metas(h.legs)[p].mint;
            && 0.0 <= mark <= bin
            && (Aged(st, now) <==> p in statuses && statuses[p].closedAt.Some?
                                   && now - statuses[p].closedAt.value > 604800000)
            && (!Aged(st, now) ==> mark == bin)
            && (Aged(st, now) ==>
                  var near := NearPrice(h.sells, mint, st.closedAt.value); mark == if near < bin then near else bin)
            && (Aged(st, now) && mark > 0.0 ==> SomeAtLeast(h.sells, mint, st.closedAt.value, mark))
            && (Aged(st, now) && 0.0 < mark < bin ==> SomeAtMost(h.sells, mint, st.closedAt.value, mark))
            && (Aged(st, now) && mark == 0.0 ==> !exists f :: f in h.sells && IsNear(f, mint, st.closedAt.value))
  {
    hide NearPrice, BinMark, Metas, IsNear, UnitPrice;
    var st, mint := StatusOf(statuses, p), Metas(h.legs)[p].mint;
    if Aged(st, now) {
      NearPriceIsBetween(h.sells, mint, st.closedAt.value);
      forall f | f in h.sells && IsNear(f, mint, st.closedAt.value)
        ensures Counts(f) && UnitPrice(f.sol, f.tokenAmount) > 0.0
      {
        NearCounts(f, mint, st.closedAt.value);
        PriceIsPositive(f);
      }
    }
  }
}
