# Verified model of the Binsight ledgers, ingests and streams

Binsight watches Solana wallets that provide liquidity on Meteora DLMM pools. This project models the
parts of its service whose correctness is a matter of accounting or of protocol, and proves what they
promise:

- **FIFO cost basis** (`Fifo`, `FifoEngine`, `FifoConservation`, `FifoSplit`, `FifoAttribution`, `FifoMints`,
  `FifoSteps`, `FifoTimelines`, `FifoHistory`, `HeldMarks`, `RealizedPnl`): the lot inventory behind realized
  PnL, from the stored legs, buys and sells of a wallet to the reported numbers. SOL and tokens are
  conserved, the cost basis is bounded by prices really paid, tokens that go into a position and come out
  again cost the same, every gain lands on the position its tokens came from, and cutting a sell into clips
  changes nothing. All mints share one set of books; since a position has one mint, each mint still ends as
  if walked alone. The final equation has every stored row in it exactly once, in lamports.
- **Residual matching** (`StableSort`, `Residual`, `ResidualLedger`, `ResidualOptimal`, `ResidualMatching`):
  closed positions' leftover tokens matched to real sells. The ledger conserves tokens, SOL and each sell's
  price, and the greedy matching sells as much as any matching of the inputs could (proved by exhibiting a
  cut that it fills).
- **Cursor-driven ingest** (`Ingest`, `IngestProtocol`, `IngestConvergence`, `IngestPasses`, `SwapDecode`):
  paging a growing history under failures and crashes. No gap is ever left behind, page cuts do not matter,
  each kind of pass hands over exactly its own part of the history, and a wallet converges in two clean
  passes (one, exactly when the pass does not resume below an unseen top).
- **Transaction stream** (`Stream`, `StreamNoMiss`, `StreamWindows`, `StreamCalls`): no missed transaction
  across reconnects, no transaction handled twice within the dedup window, cursors at the latest
  transaction, and the gap detector's budget, coverage and recoveries.
- **Fast forms against simple ones** (`WalletFlows`, `CashflowCurve`, `Networth`, `CacheKeys`,
  `VersionedCache`, `SingleFlight`, `RateLimit`): the daily rollup, the PnL curve, the net-worth sweep, the
  version-keyed cache, the coalesced realized pass and the token bucket.

Code that updates state step by step is a class or a method with loops (`FifoWalk`, `BuildTimelines`,
`FillPosition`, `FlowIngest`, `TransactionStream`, `WalletFlowRepository`, `FillCurve`, `Cache`,
`TokenBucket`), each proved equal to a function on values; the theorems are about those functions.
Protocols with interleavings are functions from a list of labels to a state in which a label that is not
enabled does nothing, so a theorem about every list of labels is a theorem about every schedule.

Amounts are exact reals. The dust threshold `1e-9` of the FIFO walk and of the residual matching is a
parameter `eps >= 0`: the conservation, bound and optimality theorems hold for every threshold and say how
much it can misplace (`Dust(n, eps, p)` is `n * eps * p` by `DustIsProduct`, `Crumbs(n, eps)` is `n * eps` by
`CrumbsIsProduct`); with `eps = 0` they are exact.

## Where the code differs from its own comments

- A swap is said to decode to at most one leg. It decodes to two exactly when one mint left, one mint came
  in, and the WSOL and native balances moved in opposite directions (`BothLegsExactly`, `TwoLegsHappen`);
  the table keeps both (`RowsKeepBothLegs`).
- The net-worth sweep is said to replace the per-day scan. For a position it does so exactly when the
  position opens within the series and no later than it closes, or is over before the series starts
  (`SweepExact`). The series starts at the first stored flow, so while a flow backfill is unfinished, newest
  flows first, the positions opened earlier are missing from the curve while they are open, and are
  subtracted once they close (`OpenedBefore`, `SweepMisses`).
- `rebuildDaily` is said to recompute identical values. It truncates where the upsert floors: it is a no-op
  for all amounts exactly when no timestamp lies before 1970 off midnight (`RebuildExactly`). Block times are
  never that early, so the difference cannot show on chain data.
- A first pass whose first page fails leaves an incomplete cursor without a top, so the clean pass that later
  completes the backfill still leaves the top unknown and one more pass is needed (`OnePassExactly`,
  `FailedFirstPage`). The history is whole all the same: the complete flag alone guarantees every
  transaction from before the first pass (`CompleteMeansWhole`).
- The held residual is said to be marked at the lower of current and bin price; the code marks a fresh bag at
  its close bin (`MarkIsSound`).
- A cache key is a joined string. It identifies the call as long as no resource contains `#`, or a comma after
  what reads as a resource with its version (`RenderIsInjective`); every other resource can be answered with
  another call's value (`UnplainMixes`), even a stale one (`CommaIsStale`). Wallet addresses contain neither.

## Model

| member | source | states |
|---|---|---|
| FifoEngine.FifoWalk.Draw | api/src/application/realized-pnl.ts:322-338 | the in-place consume loop takes, prices and leaves exactly what `Consume` says |
| FifoEngine.FifoWalk.Route | api/src/application/realized-pnl.ts:369-374 | the per-lot loop of a sell books exactly the routed gains |
| FifoEngine.FifoWalk.OnWithdraw | api/src/application/realized-pnl.ts:347-354 | a withdraw credits the position and pushes a lot at its average deposit cost |
| FifoEngine.FifoWalk.OnDeposit | api/src/application/realized-pnl.ts:355-363 | a deposit charges the consumed cost and only the backed tokens |
| FifoEngine.FifoWalk.OnSell | api/src/application/realized-pnl.ts:364-376 | a sell books its backed proceeds against the consumed lots |
| FifoEngine.FifoWalk.Step | api/src/application/realized-pnl.ts:340-377 | one event changes inventory and books as `Apply` says |
| FifoEngine.FifoWalk.Run | api/src/application/realized-pnl.ts:340-377 | the event loop of a mint is the fold of its events |
| FifoEngine.FifoWalk.RunMints | api/src/application/realized-pnl.ts:306-379 | every mint starts from an empty inventory, all share the books |
| FifoEngine.FifoWalk.MarkHeld | api/src/application/realized-pnl.ts:415-435 | the held pass adds each marked lot to its origin position |
| FifoConservation.ConsumeBounds | api/src/application/realized-pnl.ts:322-338 | a consumption takes no more than asked and books no more than the top price |
| FifoConservation.ConsumeSheds | api/src/application/realized-pnl.ts:322-338 | cost booked plus cost left is the cost before, up to one crumb per dropped lot |
| FifoConservation.RouteAttributed | api/src/application/realized-pnl.ts:365-374 | whatever the origins, routing books the proceeds less the consumed cost |
| FifoConservation.StepIsSound | api/src/application/realized-pnl.ts:340-377 | every event keeps the price bounds and conserves SOL up to its share of the dust |
| FifoConservation.SolConservation | api/src/application/realized-pnl.ts:318-379 | PnL of all positions plus trading PnL is the SOL moved plus the cost in inventory, up to eps tokens at the top price per event, exactly for eps = 0 |
| FifoConservation.WalletConservation | api/src/application/realized-pnl.ts:306-442 | the same over all mints with the held residual added |
| FifoConservation.WalkCostBasis | api/src/application/realized-pnl.ts:341-363 | after every event of one walk each lot costs between 0 and the highest buy price so far, and entryCost is inCost |
| FifoConservation.TopPriceIsHighest | api/src/application/realized-pnl.ts:341-342 | the bound is a price some buy really paid |
| FifoConservation.WalkBasisQty | api/src/application/realized-pnl.ts:358-362 | in one walk the quantity behind a position's average never exceeds what was deposited |
| FifoSplit.ConsumeTakesAll | api/src/application/realized-pnl.ts:322-338 | min(need, stock) tokens leave the inventory |
| FifoSplit.ClipsAreOldest | api/src/application/realized-pnl.ts:322-338 | token by token, what is consumed is the front of the inventory in order |
| FifoSplit.RestIsYoungest | api/src/application/realized-pnl.ts:322-338 | token by token, what is left is the rest of the inventory in order |
| FifoSplit.SellIsAtPrice | api/src/application/realized-pnl.ts:364-376 | every consumed token is booked at the price of the whole sell, even when stock runs short |
| FifoSplit.ConsumeSplits | api/src/application/realized-pnl.ts:322-338 | taking x then y leaves the same lots, costs the same and routes the same as x + y |
| FifoSplit.SellSplits | api/src/application/realized-pnl.ts:364-376 | two adjacent sells at one price equal the single sell, in the whole state |
| FifoSplit.DepositSplits | api/src/application/realized-pnl.ts:355-363 | two adjacent deposits equal the single deposit, whatever their SOL sides |
| FifoSplit.SplitInvariance | api/src/application/realized-pnl.ts:364-376 | any number of adjacent clips at one price equal one sell: gains per origin, trading PnL, inventory |
| FifoSplit.ClipsInTimeline | api/src/application/realized-pnl.ts:318-377 | on any books, after any events and before any others, a sell may be cut into adjacent clips at its price |
| FifoSplit.DepositsInTimeline | api/src/application/realized-pnl.ts:318-377 | the same for cutting a deposit |
| FifoAttribution.RouteByOrigin | api/src/application/realized-pnl.ts:369-374 | a sell changes a position only in its realized gain, by the gains of its own tokens; bought tokens go to trading |
| FifoAttribution.HoldByOrigin | api/src/application/realized-pnl.ts:415-435 | the held pass changes a position only by the marked value of its own lots |
| FifoAttribution.HoldMintsByOrigin | api/src/application/realized-pnl.ts:415-437 | over all mints the held pass changes a position only by the marked value of its own lots |
| FifoAttribution.WalkSolLeg | api/src/application/realized-pnl.ts:343-357 | in one walk a position's SOL leg is what it claimed and withdrew less what it deposited |
| FifoAttribution.WalkTokens | api/src/application/realized-pnl.ts:340-377 | on any books, every token that came in is in the inventory, backed in a position, or was sold, up to one threshold per event |
| FifoSteps.ConsumeIsDraw | api/src/application/realized-pnl.ts:322-338 | for every threshold: which lots are drawn, how much of each, what stays in front, and when the drawing stops |
| FifoSteps.BuyPushes | api/src/application/realized-pnl.ts:341-342 | a buy pushes one lot without origin that cost the SOL spent |
| FifoSteps.ClaimPushes | api/src/application/realized-pnl.ts:343-346 | a claim pushes its tokens for free and adds its SOL |
| FifoSteps.WithdrawPushes | api/src/application/realized-pnl.ts:347-354 | a withdraw pushes one lot whose price times the backed quantity is the backed cost, 0 without basis, and credits that lot's cost |
| FifoSteps.DepositDraws | api/src/application/realized-pnl.ts:355-363 | a deposit pays the cost of what it drew, and only what it drew enters the basis |
| FifoSteps.SellDraws | api/src/application/realized-pnl.ts:364-376 | a sell books what it drew at its own price less cost, per origin, unless it found no more than the threshold |
| FifoSteps.WithdrawsAtAverage | api/src/application/realized-pnl.ts:347-363 | between deposits, credit is to cost as withdrawn tokens are to backed tokens |
| FifoSteps.RoundTrip | api/src/application/realized-pnl.ts:347-363 | withdrawing, after the last deposit, exactly the backed tokens credits exactly what they cost |
| FifoSteps.RoundTripInWallet | api/src/application/realized-pnl.ts:306-379 | the same in a wallet of several mints |
| FifoMints.WalkFrame | api/src/application/realized-pnl.ts:306-377 | a walk reads and writes the shared books only at the positions of its timeline |
| FifoMints.MintsWalkAlone | api/src/application/realized-pnl.ts:306-379 | every mint of a wallet leaves the lots and accumulators it would leave if walked alone |
| FifoMints.CostBasisBound | api/src/application/realized-pnl.ts:341-363 | for every mint each leftover lot and each position's average costs between 0 and the mint's highest buy price, and entryCost is inCost |
| FifoMints.BasisQtyBound | api/src/application/realized-pnl.ts:358-362 | for every mint the quantity behind a position's average never exceeds what was deposited |
| FifoMints.SolLegIsCashFlow | api/src/application/realized-pnl.ts:343-357 | for every mint a position's SOL leg is what it claimed and withdrew less what it deposited |
| FifoMints.TokenConservation | api/src/application/realized-pnl.ts:340-377 | for every mint the tokens that came in are in its leftover lots, backed in its positions, or sold, up to one threshold per event, exactly for eps = 0 |
| FifoMints.ClipsInWallet | api/src/application/realized-pnl.ts:306-379 | in any mint of a wallet a sell may be cut into adjacent clips: all books and all lots stay the same |
| FifoMints.DepositsInWallet | api/src/application/realized-pnl.ts:306-379 | the same for cutting a deposit |
| FifoTimelines.GroupLegs | api/src/application/realized-pnl.ts:195-281 | legs are grouped under the mint of their position's first leg, mints in the order of first legs |
| FifoTimelines.GroupFlows | api/src/application/realized-pnl.ts:282-303 | counted buys and sells join the mints that have a leg |
| FifoTimelines.BuildTimelines | api/src/application/realized-pnl.ts:195-319 | the timelines of a history: legs, buys and sells of each mint, sorted by time and kind |
| FifoTimelines.LegBecomes | api/src/application/realized-pnl.ts:262-280 | a leg's SOL is its lamports on the SOL side of the pool, its quantity the other side in units of the mint's decimals, 9 if unknown |
| FifoTimelines.FlowBecomes | api/src/application/realized-pnl.ts:282-303 | a flow's event has its time and amounts; it counts when both amounts are positive |
| FifoTimelines.MetaIsFirst | api/src/application/realized-pnl.ts:200-217 | a position's pool is that of its first leg |
| FifoTimelines.MintsInOrder | api/src/application/realized-pnl.ts:256-281 | mints come in the order of their first legs |
| FifoTimelines.TimelineOrder | api/src/application/realized-pnl.ts:87-94 | events are ordered by time, and within a second buys, claims, withdraws, deposits, sells |
| FifoTimelines.StoredOrder | api/src/application/realized-pnl.ts:319 | events of one second and kind keep the order in which they were stored |
| FifoTimelines.TimelinesAreSeparate | api/src/application/realized-pnl.ts:203-214 | for any stored history the timelines are valid and no position has legs on two mints |
| FifoTimelines.LotsCostWhatWasPaid | api/src/application/realized-pnl.ts:195-379 | every leftover lot is free or costs no more than some stored buy of its mint |
| FifoTimelines.SumOfLine | api/src/application/realized-pnl.ts:256-319 | whatever is summed over a mint's timeline, it is the sum over the mint's stored rows: none is lost or invented |
| FifoTimelines.SolLegIsStoredCashFlow | api/src/application/realized-pnl.ts:195-379 | over the whole wallet a position's SOL leg is the lamports of its own stored legs on the SOL side, out for deposits |
| FifoHistory.TimelinesSum | api/src/application/realized-pnl.ts:256-303 | all timelines together hold each stored leg and each counted flow of a mint with legs exactly once |
| FifoHistory.HistoryConservation | api/src/application/realized-pnl.ts:247-437 | PnL of all positions plus trading PnL is the lamports of all stored legs on the SOL side, less the counted buys, plus backed sells, plus unsold cost and marks, up to eps tokens at the top price per row, exactly for eps = 0 |
| HeldMarks.PriceNearClose | api/src/application/realized-pnl.ts:393-406 | the loop computes the volume-weighted price of the mint's sells near the close |
| HeldMarks.NearPriceIsAverage | api/src/application/realized-pnl.ts:393-406 | that price times the tokens sold within seven days of the close is the SOL they brought |
| HeldMarks.NearIsWeek | api/src/application/realized-pnl.ts:398-402 | which sells are near a close |
| HeldMarks.BinPriceLaw | api/src/domain/dlmm-pnl.ts:26-29 | bin prices are a geometric series from 1 at bin 0 |
| HeldMarks.LastBinIsLast | api/src/application/realized-pnl.ts:214-217 | the close bin is that of the position's last leg |
| HeldMarks.BinMarkIsPrice | api/src/application/realized-pnl.ts:407-412 | the bin mark is the bin price, inverted when SOL is X, in human units |
| HeldMarks.NearPriceIsBetween | api/src/application/realized-pnl.ts:393-406 | that price lies between two prices really got near the close, or is 0 without such sells |
| HeldMarks.MarkIsSound | api/src/application/realized-pnl.ts:413-433 | the mark is the close bin for a fresh bag and the lower of it and the price near the close for an aged one, so an aged mark is backed by real sells |
| RealizedPnl.ComputeForWallet | api/src/application/realized-pnl.ts:163-449 | from stored rows to the PnL of each closed position; nothing when the swap history is incomplete |
| RealizedPnl.ReportIsPnl | api/src/application/realized-pnl.ts:438-442 | exactly the closed positions are reported, each with its five accounts and its own marked lots |
| RealizedPnl.AllIsReportedOrOpen | api/src/application/realized-pnl.ts:438-442 | the PnL of all accounts is what is reported for closed positions plus what open ones have collected |
| RealizedPnl.ReportConservation | api/src/application/realized-pnl.ts:247-442 | the reported PnL plus the PnL of open positions plus trading PnL satisfies the conservation equation over the stored rows |
| StableSort.SortSorts | api/src/application/residual-realized.ts:60-70 | the sort orders by key and keeps the contents |
| StableSort.SortIsStable | api/src/application/residual-realized.ts:60-70 | entries with equal keys keep their order |
| Residual.BuildLedger | api/src/application/residual-realized.ts:52-60 | the ledger holds, per mint, the counted sells oldest first |
| Residual.FillPosition | api/src/application/residual-realized.ts:79-94 | the inner loop with its skips and breaks is the recursive fill |
| Residual.ReconstructRealized | api/src/application/residual-realized.ts:42-106 | the whole function on its mutable ledger |
| ResidualLedger.FillIsGreedy | api/src/application/residual-realized.ts:82-94 | a fill draws only on eligible lots, never past an earlier eligible one, and stops only when need or lots are down to the threshold |
| ResidualLedger.FillConserves | api/src/application/residual-realized.ts:82-94 | tokens and SOL a position sells leave the ledger, prices stay, never more than asked |
| ResidualLedger.MintsAreIndependent | api/src/application/residual-realized.ts:73-94 | the lots of a mint evolve as if its own positions were the only ones |
| ResidualLedger.ReportsAreSound | api/src/application/residual-realized.ts:96-103 | sold plus held is the residual, and the fill fraction times the residual is what was sold |
| ResidualLedger.LedgerConserves | api/src/application/residual-realized.ts:52-106 | per mint: sold plus left tokens are the sold tokens, proceeds plus left SOL the SOL received, every lot keeps its price, and proceeds are the drawn tokens at those prices |
| ResidualLedger.NeverMoreThanReceived | api/src/application/residual-realized.ts:31-40 | no double counting: what a mint's positions book plus what is left is what its sells brought |
| ResidualOptimal.CutBoundsAll | api/src/application/residual-realized.ts:31-37 | any cut bounds every assignment that respects sells, residuals and windows |
| ResidualOptimal.CutIsTight | api/src/application/residual-realized.ts:73-94 | the greedy run exhausts a set of lots that confines whoever is unsatisfied or drew on it |
| ResidualMatching.AskIsWindow | api/src/application/residual-realized.ts:73-87 | a sell may be used exactly from 60 s before the close to the end of the window after it |
| ResidualMatching.MatchingIsOptimal | api/src/application/residual-realized.ts:42-106 | no way of giving the sells to the closed positions, each within its own window and amount, sells more than is reported, up to a threshold per sell and position, none for eps = 0; the window is three days unless given |
| ResidualMatching.MatchingIsAttained | api/src/application/residual-realized.ts:42-106 | and what is reported is the total of such a way |
| ResidualMatching.ReportsInCloseOrder | api/src/application/residual-realized.ts:62-104 | exactly the positions with a residual are reported, oldest close first |
| Ingest.FlowIngest.Upsert | api/src/infrastructure/persistence/swap-flow-repository.ts:23-42 | rows are inserted if absent, others stay |
| Ingest.FlowIngest.ScanPage | api/src/infrastructure/solana/helius-enhanced.ts:336-348 | the inner loop keeps the part of a page above the stop signature |
| Ingest.FlowIngest.TakeReply | api/src/infrastructure/solana/helius-enhanced.ts:408-448 | what one reply does to the loop's variables and to the table |
| Ingest.FlowIngest.PageThrough | api/src/infrastructure/solana/helius-enhanced.ts:395-456 | the paging loop is the fold of its replies and stops for one of its four reasons |
| Ingest.FlowIngest.IngestOnce | api/src/application/swap-flow-ingest.ts:24-63 | a pass stores what was handed over and writes the cursor once, by the mode rules; disabled, it does nothing |
| IngestProtocol.PageSweeps | api/src/infrastructure/solana/helius-enhanced.ts:321-359 | a page extends the stored sweep down to its last transaction or to the stop signature |
| IngestProtocol.FinishKeepsInv | api/src/application/wallet-flow-ingest.ts:41-60 | the cursor written at the end of any run, failed or not, covers what it claims |
| IngestProtocol.StepKeepsInv | api/src/application/wallet-flow-ingest.ts:23-62 | growth, start, any reply, finish and crash all keep the coverage invariant |
| IngestProtocol.NoGap | api/src/application/wallet-flow-ingest.ts:23-62 | over every schedule, a complete cursor with a top means every transaction at or below it is stored, and the table holds only rows of the history |
| IngestProtocol.CompleteNeverReverts | api/src/application/wallet-flow-ingest.ts:41-42 | a complete cursor stays complete |
| IngestProtocol.CompleteMeansWhole | api/src/application/realized-pnl.ts:114-134 | over every schedule, a complete cursor, with or without a top, means every transaction from before the first pass is stored |
| IngestConvergence.PassIsSchedule | api/src/application/swap-flow-ingest.ts:24-63 | a pass is one of the schedules that the safety results quantify over |
| IngestConvergence.LoopIsSteps | api/src/infrastructure/solana/helius-enhanced.ts:395-456 | the paging loop takes the steps of the state machine |
| IngestConvergence.IngestOnceIsPass | api/src/application/swap-flow-ingest.ts:24-63 | a pass of the code is a pass of the state machine: same table, same cursor |
| IngestConvergence.PageCutIndependence | api/src/infrastructure/solana/helius-enhanced.ts:393-456 | a clean pass hands over exactly the slice between its start and its stop, however it is cut into pages, and reports the known top exactly when it lies in range |
| IngestConvergence.FailureFreePass | api/src/infrastructure/solana/helius-enhanced.ts:403-451 | without failures and within the page limit every pass ends at genesis or at the known top |
| IngestConvergence.CleanPassExists | api/src/infrastructure/solana/helius-enhanced.ts:403-451 | from every safe cursor a clean pass is possible exactly when full pages reach the known top, or genesis and one empty page more, within the page limit |
| IngestConvergence.TwoPassesConverge | api/src/application/swap-flow-ingest.ts:24-63 | from every reachable state two clean passes reach a complete cursor at the top and exactly the decoded history |
| IngestConvergence.OnePassExactly | api/src/application/swap-flow-ingest.ts:49-60 | one clean pass converges exactly when it does not resume, or resumes a backfill whose top is the newest transaction |
| IngestConvergence.FailedFirstPage | api/src/application/swap-flow-ingest.ts:24-63 | after a failed first page of a first pass the cursor is incomplete without a top; no clean pass from there converges, and one exists exactly when the page limit covers the history |
| IngestConvergence.ConvergedStays | api/src/application/swap-flow-ingest.ts:14-15 | on a still history further passes, failures and crashes change neither table nor completeness |
| IngestPasses.TopUpPass | api/src/application/swap-flow-ingest.ts:31-60 | with a complete cursor at s a clean pass hands over exactly what is newer than s and moves only the top, to the newest transaction |
| IngestPasses.TopUpExists | api/src/application/swap-flow-ingest.ts:31-40 | one is possible exactly when the pages reach s |
| IngestPasses.ResumePass | api/src/application/swap-flow-ingest.ts:31-60 | with an incomplete cursor a clean pass hands over exactly what is older than its oldest transaction, and completes it |
| IngestPasses.ResumeExists | api/src/application/swap-flow-ingest.ts:31-40 | one is possible exactly when the pages reach genesis and one empty page more |
| IngestPasses.FirstPass | api/src/application/swap-flow-ingest.ts:31-60 | a clean first pass hands over the whole history and records its newest and oldest transaction |
| IngestPasses.FailedTopUpKeepsCursor | api/src/application/swap-flow-ingest.ts:44-58 | a top-up that did not reconnect leaves the cursor as it is |
| IngestPasses.FailedResumeKeepsTop | api/src/application/swap-flow-ingest.ts:44-58 | a resume that fails only moves the oldest transaction |
| IngestPasses.AddedCountsRows | api/src/infrastructure/solana/helius-enhanced.ts:440-456 | a pass reports as many rows as it handed over |
| IngestPasses.RowsAreEntries | api/src/infrastructure/solana/helius-enhanced.ts:440-456 | and an empty table gets as many entries |
| SwapDecode.SellShape | api/src/infrastructure/solana/helius-enhanced.ts:594-636 | when a sell decodes, and that it is the one mint with a real net outflow, its net amount, its timestamp, and net WSOL above the threshold or else net native SOL |
| SwapDecode.BuyShape | api/src/infrastructure/solana/helius-enhanced.ts:644-684 | the mirror for buys |
| SwapDecode.SoldMints | api/src/infrastructure/solana/helius-enhanced.ts:596-615 | when a mint counts as sold: tokens left, and more than 1% of them net |
| SwapDecode.BoughtMints | api/src/infrastructure/solana/helius-enhanced.ts:645-664 | the mirror for buys |
| SwapDecode.SoldIsNotBought | api/src/infrastructure/solana/helius-enhanced.ts:612-616 | no mint is both sold and bought |
| SwapDecode.BothLegsExactly | api/src/infrastructure/solana/helius-enhanced.ts:370-375 | exactly when a transaction decodes to two legs |
| SwapDecode.TwoLegsHappen | api/src/infrastructure/solana/helius-enhanced.ts:373-374 | a transaction that decodes to two legs |
| SwapDecode.RowsKeepBothLegs | api/src/infrastructure/persistence/schema.ts:293-296 | keyed by mint, no decoded leg overwrites another |
| Stream.TransactionStream.AdvanceCursor | api/src/infrastructure/solana/transaction-stream.ts:395-408 | an older slot leaves the cursor alone |
| Stream.TransactionStream.RememberSig | api/src/infrastructure/solana/transaction-stream.ts:410-417 | the set keeps insertion order and evicts its oldest entry past the capacity |
| Stream.TransactionStream.HandleNotification | api/src/infrastructure/solana/transaction-stream.ts:378-389 | tip, dedup, cursor moves and handler calls of one notification |
| Stream.TransactionStream.MinCursorSlot | api/src/infrastructure/solana/transaction-stream.ts:345-353 | the replay floor computed over the watched wallets |
| Stream.TransactionStream.CheckGapsNow | api/src/infrastructure/solana/transaction-stream.ts:427-438 | the gap scan over the watched wallets |
| StreamNoMiss.MinIsLeast | api/src/infrastructure/solana/transaction-stream.ts:345-353 | the replay floor is the least known slot of the watched wallets |
| StreamNoMiss.DeliverKeepsInv | api/src/infrastructure/solana/transaction-stream.ts:378-408 | a delivery in slot order keeps everything below the cursors dispatched |
| StreamNoMiss.NoMiss | api/src/infrastructure/solana/transaction-stream.ts:345-408 | over every schedule, each transaction of a watched wallet from its seeded slot to below its cursor was dispatched |
| StreamNoMiss.CaughtUpMissesNothing | api/src/infrastructure/solana/transaction-stream.ts:301-316 | once a connection has delivered what it owes, nothing since the seeded slot is missing |
| StreamNoMiss.CursorNeverRewinds | api/src/infrastructure/solana/transaction-stream.ts:391-397 | no order of notifications lowers a cursor |
| StreamWindows.DedupWindow | api/src/infrastructure/solana/transaction-stream.ts:378-417 | the remembered signatures are the last capacity handled ones, distinct, and repeats are more than capacity apart |
| StreamCalls.RememberedIsIgnored | api/src/infrastructure/solana/transaction-stream.ts:378-381 | a notification with a remembered signature changes nothing but the observed tip |
| StreamCalls.CallsAreActedOn | api/src/infrastructure/solana/transaction-stream.ts:378-417 | over every run the handler calls are, in order, one per touched wallet of each notification outside the dedup window, and no others |
| StreamCalls.NoCallTwice | api/src/infrastructure/solana/transaction-stream.ts:378-417 | a handler is called again for a signature only after at least capacity others were handled |
| StreamCalls.CursorIsLatest | api/src/infrastructure/solana/transaction-stream.ts:391-408 | a cursor holds the signature and slot of its wallet's latest handled notification, or its seed |
| StreamCalls.TipIsHighest | api/src/infrastructure/solana/transaction-stream.ts:378-379 | the observed tip is the highest slot of all notifications |
| StreamCalls.ScanIsRecoveries | api/src/infrastructure/solana/transaction-stream.ts:427-438 | a scan recovers exactly the wallets that are far behind and not yet recovered near the tip |
| StreamWindows.GapBudget | api/src/infrastructure/solana/transaction-stream.ts:421-438 | k recoveries of a wallet need k - 1 suspect distances of tip advance |
| StreamWindows.GapCoverage | api/src/infrastructure/solana/transaction-stream.ts:427-438 | after a scan every wallet with a slot is near the tip or was really recovered near it |
| WalletFlows.WalletFlowRepository.CommitChunk | api/src/infrastructure/persistence/wallet-flow-repository.ts:33-62 | a chunk's insert, grouping and rollup upsert equal adding its flows one by one |
| WalletFlows.WalletFlowRepository.UpsertFlows | api/src/infrastructure/persistence/wallet-flow-repository.ts:20-64 | a batch cut off after any number of chunks has added exactly its first chunks |
| WalletFlows.ChunkIsAddAll | api/src/infrastructure/persistence/wallet-flow-repository.ts:34-61 | grouping new rows by day and adding once equals adding row by row, duplicates included |
| WalletFlows.RollupAgrees | api/src/infrastructure/persistence/wallet-flow-repository.ts:16-19 | after any sequence of batches each rollup row is the aggregate of its day, and there is one exactly for days with flows |
| WalletFlows.FirstFlowIsStored | api/src/infrastructure/persistence/wallet-flow-repository.ts:33-43 | a new key gets the fields of the first flow that has it, known keys stay |
| WalletFlows.DayHolds | api/src/infrastructure/persistence/wallet-flow-repository.ts:46-50 | the UTC day of a timestamp, before 1970 as well |
| WalletFlows.RepeatIsNoOp | api/src/infrastructure/persistence/wallet-flow-repository.ts:43 | storing known flows again changes neither table |
| WalletFlows.RebuildIsNoOp | api/src/infrastructure/persistence/wallet-flow-repository.ts:99-110 | on timestamps from 1970 on a rebuild changes nothing |
| WalletFlows.RebuildExactly | api/src/infrastructure/persistence/wallet-flow-repository.ts:94-110 | a rebuild is a no-op for all amounts exactly when no timestamp is before 1970 off midnight |
| CashflowCurve.Bounds | api/src/application/wallet-cashflow.ts:62-71 | the least and greatest active day |
| CashflowCurve.FillCurve | api/src/application/wallet-cashflow.ts:58-101 | the gap-filled curve with its running sums |
| CashflowCurve.BuildCashflowCurve | api/src/application/wallet-cashflow.ts:26-39 | the curve of the raw flows |
| CashflowCurve.BuildCashflowCurveFromDaily | api/src/application/wallet-cashflow.ts:45-55 | the curve of the rollup rows |
| CashflowCurve.CurvesAgree | api/src/application/wallet-cashflow.ts:41-55 | on an agreeing rollup both curves are equal, for every wallet and start day |
| CashflowCurve.CurveConserves | api/src/application/wallet-cashflow.ts:7-8 | totals and last point are the sums of all flows, day after day without holes |
| CashflowCurve.CurveIsFlows | api/src/application/wallet-cashflow.ts:26-101 | the curve runs from the first to the last day with flows, and every point has that day's flows by kind and the sums up to its end |
| Networth.SweepIsBetween | api/src/infrastructure/persistence/networth-snapshot-repository.ts:168-177 | the window sum is the sum of all events from the first day on |
| Networth.SweepExact | api/src/infrastructure/persistence/networth-snapshot-repository.ts:122-124 | exactly for which positions the sweep equals the per-day scan |
| Networth.OpenedBefore | api/src/infrastructure/persistence/networth-snapshot-repository.ts:141-171 | a position opened before the series counts 0 while open and minus its deposit once closed |
| Networth.SweepMisses | api/src/infrastructure/persistence/networth-snapshot-repository.ts:158-171 | an open position that the curve shows on no day |
| Networth.SweepRefinesScan | api/src/infrastructure/persistence/networth-snapshot-repository.ts:149-177 | over such positions the sweep is the deposits open at the end of the day |
| Networth.PointIsValue | api/src/infrastructure/persistence/networth-snapshot-repository.ts:97-105 | net worth is all flows plus open deposits, real PnL is net worth less external flows |
| VersionedCache.Cache.WrapCall | api/src/util/cache.ts:115-131 | the synchronous part of wrap: hit, join or start |
| VersionedCache.Cache.BumpVersion | api/src/util/cache.ts:102-104 | a bump advances one version |
| CacheKeys.RenderIsInjective | api/src/util/cache.ts:106-116 | over plain resources the string key identifies the caller's key, the resources and their versions |
| VersionedCache.NeverStale | api/src/util/cache.ts:102-131 | on string keys, no call returns a computation started before the latest bump, at call time, of one of its resources |
| VersionedCache.NeverMixed | api/src/util/cache.ts:115-131 | the computation a call returns was started by a call with the same key and resources |
| VersionedCache.ResolvedIsServed | api/src/util/cache.ts:115-129 | once computed, a value answers every later call for its key and resources until a bump or expiry, and nothing is recomputed |
| VersionedCache.RunningIsJoined | api/src/util/cache.ts:119-122 | a call for a running computation joins it |
| VersionedCache.FailureIsRetried | api/src/util/cache.ts:123-129 | after a computation ended without a value the next call starts a new one |
| VersionedCache.UnplainMixes | api/src/util/cache.ts:106-131 | every resource that is not plain has a schedule in which its call answers a different one |
| VersionedCache.CommaIsStale | api/src/util/cache.ts:106-131 | with a resource like `x@1,y` a call for x and y is answered from before the latest bump of x |
| VersionedCache.OneInFlight | api/src/util/cache.ts:119-129 | at most one computation per resolved key is in flight |
| SingleFlight.StepKeepsInv | api/src/application/engine/index.ts:565-612 | every trigger and completion keeps the single pass and the owed rerun |
| SingleFlight.OnePassAtATime | api/src/application/engine/index.ts:570-574 | at most one pass is active |
| SingleFlight.NoLostTrigger | api/src/application/engine/index.ts:589-605 | when no pass is left every trigger was followed by a computation, unless a pass threw after it |
| SingleFlight.BurstCostsOnePass | api/src/application/engine/index.ts:570-573 | without new triggers at most one more computation starts |
| SingleFlight.ResultIsPersisted | api/src/application/engine/index.ts:588-604 | a computed result goes on to be persisted, whatever arrives in the meantime |
| SingleFlight.EmptyResultEnds | api/src/application/engine/index.ts:588-612 | an empty or refused result is not persisted: the pass reruns if triggered, else ends |
| RateLimit.TokenBucket.TryAcquire | api/src/util/cache.ts:63-70 | an attempt refills and takes a whole token or refuses |
| RateLimit.AttemptTakesOne | api/src/util/cache.ts:57-70 | a grant takes exactly one token and is given exactly when a whole one is there |
| RateLimit.BurstIsGranted | api/src/util/cache.ts:57-70 | as many attempts at one time are granted as there are whole tokens |
| RateLimit.NothingIsLost | api/src/util/cache.ts:57-70 | tokens left plus grants are tokens before plus tokens earned, unless the bucket runs full |
| RateLimit.EarnedIsRate | api/src/util/cache.ts:57-61 | tokens are earned at the rate per second |
| RateLimit.TokenBucket.WaitMs | api/src/util/cache.ts:79 | a refused acquire sleeps until a whole token is earned, at least 5 ms, and longer than 5 ms only if exactly one token is then there |
| RateLimit.WindowBound | api/src/util/cache.ts:57-82 | in any window at most capacity plus the refill of the window is granted |
| RateLimit.WaitIsEnough | api/src/util/cache.ts:72-81 | after the sleep an attempt is granted exactly when the bucket can hold a token, and beyond the 5 ms floor none is granted earlier |

## Left out

- ClipsInTimeline: exact arithmetic only; with a positive threshold two clips can each drop a crumb that one sell would not.
- ClipsInWallet: exact arithmetic only, for the same reason.
- DepositsInTimeline: exact arithmetic only, for the same reason.
- DepositsInWallet: exact arithmetic only, for the same reason.
- BuildTimelines: legs come in with their pools, already restricted to SOL-paired pools and ordered by block time and signature; the theorems hold for every order of the legs.
- PriceNearClose: the sells of a mint are summed in stored order instead of sorted order, which is the same sum.
- NoMiss: a fixed watched set within one filter, wallets that all have a seeded slot, slots that are confirmed in order, slot-ordered delivery per connection, full replay from the floor, handlers that return; watch, unwatch, persisting cursors and process restarts are not modelled.
- GapBudget: counts recoveries of the gap scan; the backfill after a long outage does not touch the scan's memory and is not modelled.
- IngestOnce: passes of one wallet are serialised by the service's per-wallet lock; retries of a page are one reply; signatures are non-empty and unique, and the history grows at its newest end only.
- NeverStale: holds over plain resources, which wallet addresses are; UnplainMixes and CommaIsStale show that it fails beyond them. The TTL and the eviction order of entries are arbitrary expiries.
- CurvesAgree: one wallet at a time; days are epoch days, whose order is that of ISO dates for years 0 to 9999; the sum over several wallets is not modelled.
- SweepExact: the deposit of a position is an input; the join of legs and pools is not modelled.
- RebuildIsNoOp: all rows are rebuilt in one step, as the single statement does.
- `flowFromHistory`, `onchainRealizedPnl` and `accumulatePositionFlow`: plain signed sums.
- Net-worth snapshots, multi-wallet aggregation, notification, authentication, the price clients, the web and native apps.
- Floating-point rounding: amounts are reals.
