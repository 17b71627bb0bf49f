/**
 * The realized PnL of a wallet, from its stored rows to the reported numbers: timelines, walk, held
 * residual, and the report of the closed positions.
 */
module RealizedPnl {
  import opened Options
  import opened MapTotals
  import opened Fifo
  import opened FifoEngine
  import opened FifoConservation
  import opened FifoAttribution
  import opened FifoMints
  import opened FifoTimelines
  import opened FifoHistory
  import opened HeldMarks

  /** The books after the walk and the held residual. */
  ghost function Computed(h: History, statuses: Statuses, now: int, eps: real): Books
    requires eps >= 0.0
  {
    TimelinesAreSeparate(h);
    var (b, left) := WalkMints(Timelines(h), eps);
    HoldMints(b, left, Marks(h, statuses, now), eps)
  }

  /** What is reported: the PnL of the closed positions. */
  function Report(h: History, statuses: Statuses, b: Books): map<Address, real> {
    map p | p in Metas(h.legs) && StatusOf(statuses, p).closed :: PnlOf(AccOf(b, p))
  }

  /** What is not: the PnL that open positions have collected so far. */
  function Unreported(h: History, statuses: Statuses, b: Books): map<Address, real> {
    map p | p in Metas(h.legs) && !StatusOf(statuses, p).closed :: PnlOf(AccOf(b, p))
  }

  /** `complete` says that the stored swaps are the whole history; without it nothing is handed back. */
  method ComputeForWallet(h: History, statuses: Statuses, complete: bool, now: int, eps: real)
    returns (out: Option<map<Address, real>>)
    requires eps >= 0.0
    ensures out == if h.legs != [] && !complete then None
                   else Some(Report(h, statuses, Computed(h, statuses, now, eps)))
  {
    hide Metas, Marks, StatusOf, Timelines, Hold, WalkMints;
    if h.legs == [] {
      NothingToReport(h);
      return Some(map[]);
    }
    if !complete {
      return None;
    }
    var _, timelines := BuildTimelines(h);
    TimelinesAreSeparate(h);
    var walk := new FifoWalk(eps);
    var left := walk.RunMints(timelines);
    var marks := Marks(h, statuses, now);
    ghost var b := walk.Booked();
    assert left[0..] == left;
    for k := 0 to |left|
      invariant walk.eps == eps
      invariant HoldMints(walk.Booked(), left[k..], marks, eps) == HoldMints(b, left, marks, eps)
    {
      assert left[k..][0] == left[k] && left[k..][1..] == left[k + 1..];
      walk.MarkHeld(left[k], marks);
    }
    out := Some(Report(h, statuses, Books(walk.acc, walk.tradingPnL)));
  }

  lemma NothingToReport(h: History)
    requires h.legs == []
    ensures Metas(h.legs) == map[]
  {
  }

  /**
   * What is reported: exactly the closed positions of the history, each with its SOL leg less its entry
   * cost plus its exit credit, its realized gain and the marked value of its own leftover lots.
   */
  lemma ReportIsPnl(h: History, statuses: Statuses, now: int, eps: real, p: Address)
    requires eps >= 0.0
    ensures ValidTimelines(Timelines(h))
    ensures var report := Report(h, statuses, Computed(h, statuses, now, eps));
            var (b, left) := WalkMints(Timelines(h), eps);
            var a := AccOf(b, p);
            && (p in report <==> p in Metas(h.legs) && p in statuses && statuses[p].closed)
            && (p in report ==>
                  report[p] == a.solLeg - a.entryCost + a.exitCredit + a.realizedGain + a.heldValue
                               + HeldByAll(left, p, Marks(h, statuses, now), eps))
  {
    TimelinesAreSeparate(h);
    hide Timelines, WalkMints, HoldMints, Marks, HeldByAll, Metas, AccOf;
    var (b, left) := WalkMints(Timelines(h), eps);
    HoldMintsByOrigin(b, left, Marks(h, statuses, now), eps, p);
  }

  // ----- every account belongs to a position of the history

  lemma {:induction false} PositionsInMetas(h: History, ts: seq<seq<Event>>)
    requires forall t | t in ts :: PositionsOf(t) <= Metas(h.legs).Keys
    ensures AllPositions(ts) <= Metas(h.legs).Keys
  {
    hide PositionsOf, Metas;
    if ts != [] { PositionsInMetas(h, ts[..|ts| - 1]); }
  }

  lemma {:induction false} HoldOutside(b: Books, lots: seq<Lot>, marks: map<Address, real>, eps: real, p: Address)
    requires p !in marks
    ensures AccOf(Hold(b, lots, marks, eps), p) == AccOf(b, p)
    decreases |lots|
  {
    hide Worth;
    if lots != [] { HoldOutside(HoldLot(b, lots[0], marks, eps), lots[1..], marks, eps, p); }
  }

  lemma {:induction false} HoldMintsOutside(b: Books, left: seq<seq<Lot>>, marks: map<Address, real>, eps: real,
                                            p: Address)
    requires p !in marks
    ensures AccOf(HoldMints(b, left, marks, eps), p) == AccOf(b, p)
    decreases |left|
  {
    hide AccOf, Hold;
    if left != [] {
      HoldOutside(b, left[0], marks, eps, p);
      HoldMintsOutside(Hold(b, left[0], marks, eps), left[1..], marks, eps, p);
    }
  }

  lemma NoOtherAccounts(h: History, statuses: Statuses, now: int, eps: real, p: Address)
    requires eps >= 0.0 && p !in Metas(h.legs)
    ensures AccOf(Computed(h, statuses, now, eps), p) == NEW_ACC
  {
    hide AccOf, Metas, HoldMints, WalkMints, PositionsOf, AllPositions, Timelines, MarkOf, MintsOf;
    TimelinesAreSeparate(h);
    var ts := Timelines(h);
    var (b, left) := WalkMints(ts, eps);
    forall t | t in ts ensures PositionsOf(t) <= Metas(h.legs).Keys {
      var k :| 0 <= k < |ts| && ts[k] == t;
      TimelineOf(h, k);
    }
    PositionsInMetas(h, ts);
    UntouchedPositions(ts, eps);
    assert AccOf(EMPTY_BOOKS, p) == AccOf(b, p);
    BasisStart(p);
    HoldMintsOutside(b, left, Marks(h, statuses, now), eps, p);
  }

  /** The PnL of all accounts is what is reported plus what is not. */
  lemma AllIsReportedOrOpen(h: History, statuses: Statuses, now: int, eps: real)
    requires eps >= 0.0
    ensures var b := Computed(h, statuses, now, eps);
            Total(PnlByPosition(b.acc)) == Total(Report(h, statuses, b)) + Total(Unreported(h, statuses, b))
  {
    hide Metas, Computed, PnlOf, StatusOf;
    var b := Computed(h, statuses, now, eps);
    var every := map p | p in Metas(h.legs) :: PnlOf(AccOf(b, p));
    var reported := Report(h, statuses, b);
    forall p ensures At(PnlByPosition(b.acc), p) == At(every, p) {
      NewIsZero();
      if p !in Metas(h.legs) { NoOtherAccounts(h, statuses, now, eps, p); }
    }
    SameTotals(PnlByPosition(b.acc), every);
    TotalSplit(every, reported.Keys);
    assert Restricted(every, reported.Keys) == reported;
    assert every - reported.Keys == Unreported(h, statuses, b);
  }

  lemma NewIsZero()
    ensures PnlOf(NEW_ACC) == 0.0
  {
  }

  /**
   * Conservation up to the report: the reported PnL of the closed positions, the PnL collected by open
   * ones and the trading PnL are together the SOL of all stored legs, less the counted buys, plus the
   * backed part of the sells, plus the unsold cost basis and the marks; exactly so for `eps` = 0.
   */
  lemma ReportConservation(h: History, statuses: Statuses, now: int, eps: real, top: real)
    requires eps >= 0.0 && BuysWithin(h, top)
    ensures ValidTimelines(Timelines(h))
    ensures var (_, left) := WalkMints(Timelines(h), eps);
            var b := Computed(h, statuses, now, eps);
            var backed := BackedByMints(Timelines(h), eps);
            var marked := HeldWorthAll(left, Marks(h, statuses, now), eps);
            var slack := Total(Report(h, statuses, b)) + Total(Unreported(h, statuses, b)) + b.tradingPnL
                         - (StoredLegSol(h) - FlowSol(h.buys, LpMints(h)) + backed + CostOfAll(left) + marked);
            && 0.0 <= backed <= FlowSol(h.sells, LpMints(h))
            && 0.0 <= slack <= Dust(|h.legs| + |h.buys| + |h.sells|, eps, top)
            && (eps == 0.0 ==> slack == 0.0)
  {
    hide Timelines, WalkMints, BackedByMints, StoredLegSol, FlowSol, LpMints, HoldMints, CostOfAll, HeldWorthAll;
    hide Dust, BuysWithin, Marks, Report, Unreported, Total, PnlByPosition;
    HistoryConservation(h, Marks(h, statuses, now), eps, top);
    AllIsReportedOrOpen(h, statuses, now, eps);
  }
}
