/** The two decoders of a swap: which mint was sold or bought, for how much SOL, net of round trips. */
module SwapDecode {
  import opened Options

  const SOL_MINT := "So11111111111111111111111111111111111111112"
  const MIN_NET_FRACTION := 0.01
  const LAMPORTS_PER_SOL := 1000000000.0

  datatype TokenTransfer = TokenTransfer(mint: string, from: string, to: string, tokenAmount: real)

  datatype NativeTransfer = NativeTransfer(from: string, to: string, amount: real)

  datatype SwapTx = SwapTx(timestamp: int, tokens: seq<TokenTransfer>, natives: seq<NativeTransfer>)

  datatype Leg = Leg(ts: int, mint: string, tokenAmount: real, sol: real)

  /** Tokens of a mint that left the wallet, gross. */
  function Out(ts: seq<TokenTransfer>, mint: string, wallet: string): real {
    if ts == [] then 0.0
    else
      var n := |ts| - 1;
      Out(ts[..n], mint, wallet) + (if ts[n].mint == mint && ts[n].from == wallet then ts[n].tokenAmount else 0.0)
  }

  function In(ts: seq<TokenTransfer>, mint: string, wallet: string): real {
    if ts == [] then 0.0
    else
      var n := |ts| - 1;
      In(ts[..n], mint, wallet) + (if ts[n].mint == mint && ts[n].to == wallet then ts[n].tokenAmount else 0.0)
  }

  function NativeIn(ns: seq<NativeTransfer>, wallet: string): real {
    if ns == [] then 0.0
    else NativeIn(ns[..|ns| - 1], wallet) + (if ns[|ns| - 1].to == wallet then ns[|ns| - 1].amount else 0.0)
  }

  function NativeOut(ns: seq<NativeTransfer>, wallet: string): real {
    if ns == [] then 0.0
    else NativeOut(ns[..|ns| - 1], wallet) + (if ns[|ns| - 1].from == wallet then ns[|ns| - 1].amount else 0.0)
  }

  /** The mints with a real net outflow, and those with a real net inflow. */
  function Sold(tx: SwapTx, wallet: string): set<string> {
    set t | t in tx.tokens && t.mint != SOL_MINT && t.from == wallet && t.tokenAmount > 0.0
            && RealNet(Out(tx.tokens, t.mint, wallet), In(tx.tokens, t.mint, wallet)) :: t.mint
  }

  function Bought(tx: SwapTx, wallet: string): set<string> {
    set t | t in tx.tokens && t.mint != SOL_MINT && t.to == wallet && t.tokenAmount > 0.0
            && RealNet(In(tx.tokens, t.mint, wallet), Out(tx.tokens, t.mint, wallet)) :: t.mint
  }

  predicate RealNet(gross: real, back: real) {
    gross - back > 0.0 && gross - back > gross * MIN_NET_FRACTION
  }

  function NetWsol(tx: SwapTx, wallet: string): real {
    In(tx.tokens, SOL_MINT, wallet) - Out(tx.tokens, SOL_MINT, wallet)
  }

  function NetNative(tx: SwapTx, wallet: string): real {
    (NativeIn(tx.natives, wallet) - NativeOut(tx.natives, wallet)) / LAMPORTS_PER_SOL
  }

  ghost predicate Single(s: set<string>, m: string) {
    s == {m}
  }

  ghost function ParseSwapSell(tx: SwapTx, wallet: string, eps: real): Option<Leg> {
    if m :| Single(Sold(tx, wallet), m) then
      var tokenAmount := Out(tx.tokens, m, wallet) - In(tx.tokens, m, wallet);
      var sol := if NetWsol(tx, wallet) > eps then NetWsol(tx, wallet) else NetNative(tx, wallet);
      if tokenAmount <= 0.0 || sol <= 0.0 then None else Some(Leg(tx.timestamp, m, tokenAmount, sol))
    else None
  }

  ghost function ParseSwapBuy(tx: SwapTx, wallet: string, eps: real): Option<Leg> {
    if m :| Single(Bought(tx, wallet), m) then
      var tokenAmount := In(tx.tokens, m, wallet) - Out(tx.tokens, m, wallet);
      var sol := if -NetWsol(tx, wallet) > eps then -NetWsol(tx, wallet) else -NetNative(tx, wallet);
      if tokenAmount <= 0.0 || sol <= 0.0 then None else Some(Leg(tx.timestamp, m, tokenAmount, sol))
    else None
  }

  // ----- what the amounts are: one signed sum over the transfers

  /** Tokens of a mint that came in less those that went out. */
  function Net(ts: seq<TokenTransfer>, mint: string, wallet: string): real {
    if ts == [] then 0.0
    else
      var n := |ts| - 1;
      var t := ts[n];
      Net(ts[..n], mint, wallet)
      + (if t.mint != mint || t.from == t.to then 0.0
         else if t.to == wallet then t.tokenAmount
         else if t.from == wallet then -t.tokenAmount
         else 0.0)
  }

  /** Lamports that came in less those that went out. */
  function NetLamports(ns: seq<NativeTransfer>, wallet: string): real {
    if ns == [] then 0.0
    else
      var n := |ns| - 1;
      var t := ns[n];
      NetLamports(ns[..n], wallet)
      + (if t.from == t.to then 0.0
         else if t.to == wallet then t.amount
         else if t.from == wallet then -t.amount
         else 0.0)
  }

  lemma {:induction false} NetIsInLessOut(ts: seq<TokenTransfer>, mint: string, wallet: string)
    ensures Net(ts, mint, wallet) == In(ts, mint, wallet) - Out(ts, mint, wallet)
  {
    if ts != [] { NetIsInLessOut(ts[..|ts| - 1], mint, wallet); }
  }

  lemma {:induction false} LamportsAreInLessOut(ns: seq<NativeTransfer>, wallet: string)
    ensures NetLamports(ns, wallet) == NativeIn(ns, wallet) - NativeOut(ns, wallet)
  {
    if ns != [] { LamportsAreInLessOut(ns[..|ns| - 1], wallet); }
  }

  /** A mint is sold exactly when tokens of it left and, net of what came back, more than 1% of them did. */
  lemma SoldMints(tx: SwapTx, wallet: string, mint: string)
    ensures var net := Net(tx.tokens, mint, wallet);
            mint in Sold(tx, wallet)
            <==> mint != SOL_MINT
                 && (exists t :: t in tx.tokens && t.mint == mint && t.from == wallet && t.tokenAmount > 0.0)
                 && -net > 0.0 && -net > 0.01 * Out(tx.tokens, mint, wallet)
  {
    NetIsInLessOut(tx.tokens, mint, wallet);
    hide In, Out, Net;
  }

  /** And bought exactly when tokens came in and, net of what went back, more than 1% of them did. */
  lemma BoughtMints(tx: SwapTx, wallet: string, mint: string)
    ensures var net := Net(tx.tokens, mint, wallet);
            mint in Bought(tx, wallet)
            <==> mint != SOL_MINT
                 && (exists t :: t in tx.tokens && t.mint == mint && t.to == wallet && t.tokenAmount > 0.0)
                 && net > 0.0 && net > 0.01 * In(tx.tokens, mint, wallet)
  {
    NetIsInLessOut(tx.tokens, mint, wallet);
    hide In, Out, Net;
  }

  // ----- what the decoders promise

  /**
   * A decoded sell: the one mint that left the wallet, its net amount, and the wallet's net WSOL when
   * that is above the threshold, its net native SOL otherwise.
   */
  lemma SellShape(tx: SwapTx, wallet: string, eps: real)
    requires eps >= 0.0
    ensures var r := ParseSwapSell(tx, wallet, eps);
            var wsol := Net(tx.tokens, SOL_MINT, wallet);
            && (r.Some? <==> (exists m :: Single(Sold(tx, wallet), m))
                             && (Net(tx.tokens, SOL_MINT, wallet) > eps || NetLamports(tx.natives, wallet) > 0.0))
            && (r.Some? ==>
                  && Sold(tx, wallet) == {r.value.mint} && r.value.mint != SOL_MINT
                  && r.value.tokenAmount == -Net(tx.tokens, r.value.mint, wallet)
                  && r.value.sol == (if wsol > eps then wsol else NetLamports(tx.natives, wallet) / 1000000000.0)
                  && r.value.tokenAmount > 0.0 && r.value.sol > 0.0 && r.value.ts == tx.timestamp)
  {
    NetIsInLessOut(tx.tokens, SOL_MINT, wallet);
    LamportsAreInLessOut(tx.natives, wallet);
    hide In, Out, Net, NativeIn, NativeOut, NetLamports;
    if m :| Single(Sold(tx, wallet), m) {
      NetIsInLessOut(tx.tokens, m, wallet);
      assert m in Sold(tx, wallet);
      assert forall k | Single(Sold(tx, wallet), k) :: k == m;
    }
  }

  lemma BuyShape(tx: SwapTx, wallet: string, eps: real)
    requires eps >= 0.0
    ensures var r := ParseSwapBuy(tx, wallet, eps);
            var wsol := -Net(tx.tokens, SOL_MINT, wallet);
            && (r.Some? <==> (exists m :: Single(Bought(tx, wallet), m))
                             && (-Net(tx.tokens, SOL_MINT, wallet) > eps || NetLamports(tx.natives, wallet) < 0.0))
            && (r.Some? ==>
                  && Bought(tx, wallet) == {r.value.mint} && r.value.mint != SOL_MINT
                  && r.value.tokenAmount == Net(tx.tokens, r.value.mint, wallet)
                  && r.value.sol == (if wsol > eps then wsol else -NetLamports(tx.natives, wallet) / 1000000000.0)
                  && r.value.tokenAmount > 0.0 && r.value.sol > 0.0 && r.value.ts == tx.timestamp)
  {
    NetIsInLessOut(tx.tokens, SOL_MINT, wallet);
    LamportsAreInLessOut(tx.natives, wallet);
    hide In, Out, Net, NativeIn, NativeOut, NetLamports;
    if m :| Single(Bought(tx, wallet), m) {
      NetIsInLessOut(tx.tokens, m, wallet);
      assert m in Bought(tx, wallet);
      assert forall k | Single(Bought(tx, wallet), k) :: k == m;
    }
  }

  /** No mint is both sold and bought, so the two legs of a transaction never share a primary key. */
  lemma SoldIsNotBought(tx: SwapTx, wallet: string)
    ensures Sold(tx, wallet) !! Bought(tx, wallet)
  {
    forall m | m in Sold(tx, wallet) ensures m !in Bought(tx, wallet) {
      assert Out(tx.tokens, m, wallet) > In(tx.tokens, m, wallet);
    }
  }

  /**
   * When a transaction decodes to two legs: exactly one mint left, exactly one came in, and the WSOL
   * and native balances moved in opposite directions.
   */
  predicate OppositeSol(tx: SwapTx, wallet: string, eps: real) {
    || (Net(tx.tokens, SOL_MINT, wallet) > eps && NetLamports(tx.natives, wallet) < 0.0)
    || (Net(tx.tokens, SOL_MINT, wallet) < -eps && NetLamports(tx.natives, wallet) > 0.0)
  }

  lemma BothLegsExactly(tx: SwapTx, wallet: string, eps: real)
    requires eps >= 0.0
    ensures ParseSwapSell(tx, wallet, eps).Some? && ParseSwapBuy(tx, wallet, eps).Some?
            <==> (exists m :: Single(Sold(tx, wallet), m)) && (exists m :: Single(Bought(tx, wallet), m))
                 && OppositeSol(tx, wallet, eps)
  {
    SellShape(tx, wallet, eps);
    BuyShape(tx, wallet, eps);
    hide ParseSwapSell, ParseSwapBuy, Sold, Bought, Net, NetLamports;
  }

  /** A token-to-token swap that also unwraps SOL: two legs, against the one-leg reading of a clean swap. */
  lemma TwoLegsHappen() returns (tx: SwapTx)
    ensures ParseSwapSell(tx, "w", 0.000000001).Some? && ParseSwapBuy(tx, "w", 0.000000001).Some?
  {
    var a, b := TokenTransfer("A", "w", "pool", 1.0), TokenTransfer("B", "pool", "w", 1.0);
    var c := TokenTransfer(SOL_MINT, "pool", "w", 1.0);
    tx := SwapTx(0, [a, b, c], [NativeTransfer("w", "tip", 1000.0)]);
    assert |"A"| == 1 && |"B"| == 1 && "A"[0] != "B"[0] && |SOL_MINT| > 1;
    forall m ensures Out(tx.tokens, m, "w") == if m == "A" then 1.0 else 0.0 {
      assert tx.tokens[..2] == [a, b] && [a, b][..1] == [a] && [a][..0] == [];
      assert Out([a], m, "w") == if m == "A" then 1.0 else 0.0;
      assert Out([a, b], m, "w") == Out([a], m, "w");
    }
    forall m ensures In(tx.tokens, m, "w") == if m == "B" || m == SOL_MINT then 1.0 else 0.0 {
      assert tx.tokens[..2] == [a, b] && [a, b][..1] == [a] && [a][..0] == [];
      assert In([a], m, "w") == 0.0;
      assert In([a, b], m, "w") == if m == "B" then 1.0 else 0.0;
    }
    assert NativeIn(tx.natives[..0], "w") == 0.0 && NativeOut(tx.natives[..0], "w") == 0.0;
    assert a in tx.tokens && b in tx.tokens;
    assert Single(Sold(tx, "w"), "A") && Single(Bought(tx, "w"), "B");
    BothLegsExactly(tx, "w", 0.000000001);
  }

  /** The rows a transaction hands to the table, by the mint part of their key. */
  ghost function RowsOf(tx: SwapTx, wallet: string, eps: real): map<string, Leg> {
    var sell, buy := ParseSwapSell(tx, wallet, eps), ParseSwapBuy(tx, wallet, eps);
    (if sell.Some? then map[sell.value.mint := sell.value] else map[])
    + (if buy.Some? then map[buy.value.mint := buy.value] else map[])
  }

  /** Keyed by mint, both legs survive: no decoded leg overwrites the other. */
  lemma RowsKeepBothLegs(tx: SwapTx, wallet: string, eps: real)
    requires eps >= 0.0
    ensures var sell, buy := ParseSwapSell(tx, wallet, eps), ParseSwapBuy(tx, wallet, eps);
            var rows := RowsOf(tx, wallet, eps);
            && (sell.Some? ==> sell.value.mint in rows && rows[sell.value.mint] == sell.value)
            && (buy.Some? ==> buy.value.mint in rows && rows[buy.value.mint] == buy.value)
            && |rows| == (if sell.Some? then 1 else 0) + (if buy.Some? then 1 else 0)
  {
    SellShape(tx, wallet, eps);
    BuyShape(tx, wallet, eps);
    SoldIsNotBought(tx, wallet);
    hide ParseSwapSell, ParseSwapBuy, Sold, Bought;
    var sell, buy := ParseSwapSell(tx, wallet, eps), ParseSwapBuy(tx, wallet, eps);
    if sell.Some? && buy.Some? {
      assert sell.value.mint in Sold(tx, wallet) && buy.value.mint in Bought(tx, wallet);
      assert RowsOf(tx, wallet, eps).Keys == {sell.value.mint, buy.value.mint};
    }
  }
}
