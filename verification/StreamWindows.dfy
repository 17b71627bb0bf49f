/** The dedup window and the gap detector, over arbitrary sequences of notifications and scans. */
module StreamWindows {
  import opened Stream

  datatype Event = Notify(n: Note) | Scan

  function Apply(s: State, e: Event, cfg: Config): State {
    match e
    case Notify(n) => Handle(s, n, cfg)
    case Scan => CheckGaps(s, cfg)
  }

  function Run(s: State, es: seq<Event>, cfg: Config): State {
    if es == [] then s else Apply(Run(s, es[..|es| - 1], cfg), es[|es| - 1], cfg)
  }

  ghost predicate Started(s: State) {
    s.recent == [] && s.handled == [] && s.calls == [] && s.lastGapChecked == map[] && s.tip == 0
  }

  // ----- dedup

  function LastN(xs: seq<Sig>, n: nat): seq<Sig> {
    if |xs| <= n then xs else xs[|xs| - n..]
  }

  ghost predicate Distinct(xs: seq<Sig>) {
    forall i, j | 0 <= i < j < |xs| :: xs[i] != xs[j]
  }

  /** Equal entries are more than `gap` apart. */
  ghost predicate Separated(xs: seq<Sig>, gap: nat) {
    forall i, j | 0 <= i < j < |xs| && xs[i] == xs[j] :: j - i > gap
  }

  lemma RememberIsWindow(handled: seq<Sig>, sig: Sig, capacity: nat)
    requires sig !in LastN(handled, capacity) && Separated(handled, capacity)
    ensures Remember(LastN(handled, capacity), sig, capacity) == LastN(handled + [sig], capacity)
    ensures Separated(handled + [sig], capacity)
  {
    var skipped := if |handled| <= capacity then 0 else |handled| - capacity;
    forall i | skipped <= i < |handled| ensures handled[i] != sig {
      assert handled[i] == LastN(handled, capacity)[i - skipped];
    }
  }

  lemma {:induction false} DispatchKeeps(s: State, ws: seq<Wallet>, n: Note)
    ensures var t := Dispatch(s, ws, n);
            && t.recent == s.recent && t.handled == s.handled && t.tip == s.tip && t.watched == s.watched
            && t.lastGapChecked == s.lastGapChecked
            && forall w :: FireTips(t.calls, w) == FireTips(s.calls, w)
  {
    if ws != [] {
      var k := |ws| - 1;
      DispatchKeeps(s, ws[..k], n);
      var c := Dispatch(s, ws[..k], n).calls;
      assert (c + [Call(ws[k], Ws(n.sig))])[..|c|] == c;
    }
  }

  lemma {:induction false} ScanKeeps(s: State, k: nat, cfg: Config)
    requires k <= |s.watched|
    ensures var t := ScanGaps(s, k, cfg); t.recent == s.recent && t.handled == s.handled
  {
    if k > 0 { ScanKeeps(s, k - 1, cfg); }
  }

  /**
   * The dedup window: after any run the remembered signatures are exactly the last `capacity` handled
   * ones, all distinct, and two handlings of one signature have at least `capacity` others between them.
   */
  lemma {:induction false} DedupWindow(s0: State, es: seq<Event>, cfg: Config)
    requires Started(s0)
    ensures var s := Run(s0, es, cfg);
            && s.recent == LastN(s.handled, cfg.recentSigCapacity)
            && Distinct(s.recent)
            && Separated(s.handled, cfg.recentSigCapacity)
  {
    if es != [] {
      var k := |es| - 1;
      DedupWindow(s0, es[..k], cfg);
      var s := Run(s0, es[..k], cfg);
      match es[k]
      case Notify(n) =>
        if n.sig !in s.recent && Matched(n.accounts, s.watched) != [] {
          RememberIsWindow(s.handled, n.sig, cfg.recentSigCapacity);
          var s1 := s.(tip := if n.slot > s.tip then n.slot else s.tip,
                       recent := Remember(s.recent, n.sig, cfg.recentSigCapacity), handled := s.handled + [n.sig]);
          DispatchKeeps(s1, Matched(n.accounts, s.watched), n);
          WindowDistinct(s1.handled, cfg.recentSigCapacity);
        }
      case Scan => ScanKeeps(s, |s.watched|, cfg);
    }
  }

  lemma WindowDistinct(handled: seq<Sig>, capacity: nat)
    requires Separated(handled, capacity)
    ensures Distinct(LastN(handled, capacity))
  {
  }

  // ----- the gap detector

  /** The tips at which the scan recovered wallet `w`, oldest first. */
  function FireTips(calls: seq<Call>, w: Wallet): seq<nat> {
    if calls == [] then []
    else
      var k := |calls| - 1;
      FireTips(calls[..k], w)
      + (if calls[k].wallet == w && calls[k].reason.GapBackfill? then [calls[k].reason.tip] else [])
  }

  /** Consecutive entries lie at least `gap` apart, and the last one is not above `tip`. */
  ghost predicate Spaced(tips: seq<nat>, gap: nat, tip: nat) {
    && (forall i | 0 < i < |tips| :: tips[i] - tips[i - 1] >= gap)
    && (tips != [] ==> tips[|tips| - 1] <= tip)
  }

  /** The recoveries of one wallet so far, and the slot remembered for it. */
  ghost predicate GapAt(s: State, w: Wallet, gap: nat) {
    var tips := FireTips(s.calls, w);
    && Spaced(tips, gap, s.tip)
    && (tips == [] <==> w !in s.lastGapChecked)
    && (tips != [] ==> s.lastGapChecked[w] == tips[|tips| - 1])
  }

  ghost predicate GapInv(s: State, cfg: Config) {
    forall w :: GapAt(s, w, cfg.gapSuspectSlots)
  }

  lemma FireAppends(calls: seq<Call>, c: Call, w: Wallet)
    ensures FireTips(calls + [c], w)
            == FireTips(calls, w) + (if c.wallet == w && c.reason.GapBackfill? then [c.reason.tip] else [])
  {
    assert (calls + [c])[..|calls|] == calls;
  }

  lemma ScanWalletKeeps(s: State, w: Wallet, cfg: Config)
    requires GapInv(s, cfg)
    ensures GapInv(ScanWallet(s, w, cfg), cfg)
  {
    hide FireTips;
    if Suspect(s, w, cfg) {
      forall v ensures GapAt(ScanWallet(s, w, cfg), v, cfg.gapSuspectSlots) {
        assert GapAt(s, v, cfg.gapSuspectSlots);
        FireAppends(s.calls, Call(w, GapBackfill(s.tip)), v);
      }
    }
  }

  lemma {:induction false} ScanGapsKeeps(s: State, k: nat, cfg: Config)
    requires k <= |s.watched| && GapInv(s, cfg)
    ensures GapInv(ScanGaps(s, k, cfg), cfg)
  {
    if k > 0 {
      ScanGapsKeeps(s, k - 1, cfg);
      ScanWalletKeeps(ScanGaps(s, k - 1, cfg), s.watched[k - 1], cfg);
    }
  }

  lemma HandleKeepsGap(s: State, n: Note, cfg: Config)
    requires GapInv(s, cfg)
    ensures GapInv(Handle(s, n, cfg), cfg)
  {
    hide Remember, Matched, FireTips;
    var s1 := s.(tip := if n.slot > s.tip then n.slot else s.tip);
    forall w ensures GapAt(s1, w, cfg.gapSuspectSlots) { assert GapAt(s, w, cfg.gapSuspectSlots); }
    var ws := Matched(n.accounts, s.watched);
    var s2 := s1.(recent := Remember(s1.recent, n.sig, cfg.recentSigCapacity), handled := s1.handled + [n.sig]);
    DispatchKeeps(s2, ws, n);
    forall w ensures GapAt(Handle(s, n, cfg), w, cfg.gapSuspectSlots) { assert GapAt(s1, w, cfg.gapSuspectSlots); }
  }

  lemma {:induction false} RunKeepsGap(s0: State, es: seq<Event>, cfg: Config)
    requires Started(s0)
    ensures GapInv(Run(s0, es, cfg), cfg)
  {
    hide Handle, ScanGaps;
    if es != [] {
      var k := |es| - 1;
      RunKeepsGap(s0, es[..k], cfg);
      var s := Run(s0, es[..k], cfg);
      match es[k]
      case Notify(n) => HandleKeepsGap(s, n, cfg);
      case Scan => ScanGapsKeeps(s, |s.watched|, cfg);
    }
  }

  lemma {:induction false} SpacedSpan(tips: seq<nat>, gap: nat, tip: nat)
    requires Spaced(tips, gap, tip) && tips != []
    ensures tip - tips[0] >= (|tips| - 1) * gap
  {
    var k := |tips| - 1;
    if k > 0 {
      SpacedSpan(tips[..k], gap, tips[k - 1]);
      assert tips[k] - tips[k - 1] >= gap;
      assert k * gap == (k - 1) * gap + gap;
    }
  }

  /** The recovery budget: k recoveries of a wallet need the tip to advance by (k - 1) suspect distances. */
  lemma GapBudget(s0: State, es: seq<Event>, cfg: Config, w: Wallet)
    requires Started(s0)
    ensures var s := Run(s0, es, cfg);
            var tips := FireTips(s.calls, w);
            tips != [] ==> s.tip - tips[0] >= (|tips| - 1) * cfg.gapSuspectSlots
  {
    hide Run;
    RunKeepsGap(s0, es, cfg);
    var s := Run(s0, es, cfg);
    assert GapAt(s, w, cfg.gapSuspectSlots);
    if FireTips(s.calls, w) != [] {
      SpacedSpan(FireTips(s.calls, w), cfg.gapSuspectSlots, s.tip);
    }
  }

  /** A wallet with a slot cursor keeps up with the tip, or was recovered close to it. */
  predicate Covered(s: State, w: Wallet, cfg: Config) {
    var slot := SlotOf(s.cursors, w);
    slot.Some? ==>
      || s.tip - slot.value < cfg.gapSuspectSlots
      || (w in s.lastGapChecked && (s.lastGapChecked[w] == s.tip || s.tip - s.lastGapChecked[w] < cfg.gapSuspectSlots))
  }

  lemma {:induction false} ScanCovers(s: State, k: nat, cfg: Config)
    requires k <= |s.watched|
    ensures forall i | 0 <= i < k :: Covered(ScanGaps(s, k, cfg), s.watched[i], cfg)
  {
    if k > 0 {
      ScanCovers(s, k - 1, cfg);
      var t := ScanGaps(s, k - 1, cfg);
      forall i | 0 <= i < k ensures Covered(ScanWallet(t, s.watched[k - 1], cfg), s.watched[i], cfg) {
        if i < k - 1 { assert Covered(t, s.watched[i], cfg); }
      }
    }
  }

  /** After every scan with a known tip, each watched wallet is covered, and its recovery was really called. */
  lemma GapCoverage(s0: State, es: seq<Event>, cfg: Config, w: Wallet)
    requires Started(s0)
    requires var s := Run(s0, es, cfg); s.tip > 0 && w in s.watched
    ensures var s := CheckGaps(Run(s0, es, cfg), cfg);
            && Covered(s, w, cfg)
            && (w in s.lastGapChecked ==> Call(w, GapBackfill(s.lastGapChecked[w])) in s.calls)
  {
    hide Run, FireTips, ScanGaps;
    var before := Run(s0, es, cfg);
    RunKeepsGap(s0, es, cfg);
    ScanGapsKeeps(before, |before.watched|, cfg);
    ScanCovers(before, |before.watched|, cfg);
    var s := CheckGaps(before, cfg);
    assert GapAt(s, w, cfg.gapSuspectSlots);
    if w in s.lastGapChecked {
      var tips := FireTips(s.calls, w);
      assert tips[|tips| - 1] in tips;
      FiresAreCalls(s.calls, w, tips[|tips| - 1]);
    }
  }

  lemma {:induction false} FiresAreCalls(calls: seq<Call>, w: Wallet, tip: nat)
    requires tip in FireTips(calls, w)
    ensures Call(w, GapBackfill(tip)) in calls
  {
    if calls != [] {
      var k := |calls| - 1;
      assert calls == calls[..k] + [calls[k]];
      if tip in FireTips(calls[..k], w) { FiresAreCalls(calls[..k], w, tip); }
    }
  }
}
