/**
 * The handler calls and the cursors of the stream over whole runs: which notifications are handled, what
 * each of them calls, where it leaves the cursors, and which wallets a gap scan recovers.
 */
module StreamCalls {
  import opened Options
  import opened Stream
  import opened StreamWindows

  // ----- which notifications count

  /** The watched wallets among the accounts of a notification, in its order. */
  function Touched(accounts: seq<Wallet>, watched: seq<Wallet>): seq<Wallet> {
    if accounts == [] then []
    else (if accounts[0] in watched then [accounts[0]] else []) + Touched(accounts[1..], watched)
  }

  function SigsOf(hs: seq<Note>): (r: seq<Sig>)
    ensures |r| == |hs|
  {
    seq(|hs|, i requires 0 <= i < |hs| => hs[i].sig)
  }

  /**
   * The notifications that a session must act on: those that touch a watched wallet and whose signature
   * is not among the last `capacity` it acted on.
   */
  function ActedOn(es: seq<Event>, watched: seq<Wallet>, capacity: nat): seq<Note> {
    if es == [] then []
    else
      var k := |es| - 1;
      var before := ActedOn(es[..k], watched, capacity);
      if es[k].Notify? && es[k].n.sig !in LastN(SigsOf(before), capacity)
         && exists w :: w in es[k].n.accounts && w in watched
      then before + [es[k].n] else before
  }

  /** The calls for one notification, and for a list of them. */
  function CallsFor(n: Note, watched: seq<Wallet>): (r: seq<Call>)
    ensures |r| == |Touched(n.accounts, watched)|
  {
    var ws := Touched(n.accounts, watched);
    seq(|ws|, i requires 0 <= i < |ws| => Call(ws[i], Ws(n.sig)))
  }

  function CallsOf(hs: seq<Note>, watched: seq<Wallet>): seq<Call> {
    if hs == [] then [] else CallsOf(hs[..|hs| - 1], watched) + CallsFor(hs[|hs| - 1], watched)
  }

  /** The calls that notifications caused. */
  function WsCalls(calls: seq<Call>): seq<Call> {
    if calls == [] then []
    else
      var k := |calls| - 1;
      WsCalls(calls[..k]) + (if calls[k].reason.Ws? then [calls[k]] else [])
  }

  // ----- one notification

  lemma {:induction false} TouchedAppends(xs: seq<Wallet>, ys: seq<Wallet>, watched: seq<Wallet>)
    ensures Touched(xs + ys, watched) == Touched(xs, watched) + Touched(ys, watched)
  {
    if xs == [] {
      assert xs + ys == ys;
    } else {
      assert (xs + ys)[0] == xs[0] && (xs + ys)[1..] == xs[1..] + ys;
      TouchedAppends(xs[1..], ys, watched);
      var first := if xs[0] in watched then [xs[0]] else [];
      assert first + (Touched(xs[1..], watched) + Touched(ys, watched))
             == first + Touched(xs[1..], watched) + Touched(ys, watched);
    }
  }

  lemma {:induction false} MatchedIsTouched(accounts: seq<Wallet>, watched: seq<Wallet>)
    ensures Matched(accounts, watched) == Touched(accounts, watched)
  {
    if accounts != [] {
      var n := |accounts| - 1;
      MatchedIsTouched(accounts[..n], watched);
      TouchedAppends(accounts[..n], [accounts[n]], watched);
      assert accounts == accounts[..n] + [accounts[n]];
      assert Touched([accounts[n]][1..], watched) == [];
    }
  }

  lemma WsAppends(calls: seq<Call>, c: Call)
    ensures WsCalls(calls + [c]) == WsCalls(calls) + (if c.reason.Ws? then [c] else [])
  {
    assert (calls + [c])[..|calls|] == calls;
  }

  function CallsTo(ws: seq<Wallet>, sig: Sig): (r: seq<Call>)
    ensures |r| == |ws|
  {
    seq(|ws|, i requires 0 <= i < |ws| => Call(ws[i], Ws(sig)))
  }

  lemma {:induction false} DispatchCalls(s: State, ws: seq<Wallet>, n: Note)
    ensures var t := Dispatch(s, ws, n);
            && WsCalls(t.calls) == WsCalls(s.calls) + CallsTo(ws, n.sig)
            && t.recent == s.recent && t.handled == s.handled && t.watched == s.watched
  {
    if ws != [] {
      var k := |ws| - 1;
      DispatchCalls(s, ws[..k], n);
      WsAppends(Dispatch(s, ws[..k], n).calls, Call(ws[k], Ws(n.sig)));
      assert CallsTo(ws, n.sig) == CallsTo(ws[..k], n.sig) + [Call(ws[k], Ws(n.sig))];
    }
  }

  /** A notification whose signature is remembered changes nothing but the observed tip. */
  lemma RememberedIsIgnored(s: State, n: Note, cfg: Config)
    requires n.sig in s.recent
    ensures Handle(s, n, cfg) == s.(tip := if n.slot > s.tip then n.slot else s.tip)
  {
  }

  lemma HandleCalls(s: State, n: Note, cfg: Config)
    ensures var t := Handle(s, n, cfg);
            var acts := n.sig !in s.recent && exists w :: w in n.accounts && w in s.watched;
            && t.watched == s.watched
            && t.handled == (if acts then s.handled + [n.sig] else s.handled)
            && WsCalls(t.calls) == (if acts then WsCalls(s.calls) + CallsFor(n, s.watched) else WsCalls(s.calls))
  {
    hide Remember, Dispatch;
    var ws := Matched(n.accounts, s.watched);
    MatchedIsTouched(n.accounts, s.watched);
    if w :| w in n.accounts && w in s.watched { assert w in ws; }
    if ws != [] { assert ws[0] in ws; }
    if n.sig !in s.recent && ws != [] {
      var s1 := s.(tip := if n.slot > s.tip then n.slot else s.tip,
                   recent := Remember(s.recent, n.sig, cfg.recentSigCapacity), handled := s.handled + [n.sig]);
      DispatchCalls(s1, ws, n);
      assert CallsTo(ws, n.sig) == CallsFor(n, s.watched);
    }
  }

  lemma {:induction false} ScanCalls(s: State, k: nat, cfg: Config)
    requires k <= |s.watched|
    ensures var t := ScanGaps(s, k, cfg);
            && t.watched == s.watched && t.handled == s.handled && t.recent == s.recent
            && WsCalls(t.calls) == WsCalls(s.calls)
  {
    if k > 0 {
      ScanCalls(s, k - 1, cfg);
      var t := ScanGaps(s, k - 1, cfg);
      WsAppends(t.calls, Call(s.watched[k - 1], GapBackfill(t.tip)));
    }
  }

  // ----- whole runs

  /** The observed tip is the highest slot of all notifications, handled or not. */
  lemma {:induction false} TipIsHighest(s0: State, es: seq<Event>, cfg: Config)
    requires Started(s0)
    ensures var tip := Run(s0, es, cfg).tip;
            && (forall i | 0 <= i < |es| && es[i].Notify? :: es[i].n.slot <= tip)
            && (tip == 0 || exists i :: 0 <= i < |es| && es[i].Notify? && es[i].n.slot == tip)
  {
    hide Handle, CheckGaps;
    if es != [] {
      var k := |es| - 1;
      TipIsHighest(s0, es[..k], cfg);
      var s := Run(s0, es[..k], cfg);
      assert forall i | 0 <= i < k :: es[..k][i] == es[i];
      match es[k]
      case Notify(n) => HandleTip(s, n, cfg);
      case Scan => CheckTip(s, cfg);
    }
  }

  lemma HandleTip(s: State, n: Note, cfg: Config)
    ensures Handle(s, n, cfg).tip == if n.slot > s.tip then n.slot else s.tip
  {
    hide Remember, Matched;
    DispatchKeeps(s.(tip := if n.slot > s.tip then n.slot else s.tip,
                     recent := Remember(s.recent, n.sig, cfg.recentSigCapacity), handled := s.handled + [n.sig]),
                  Matched(n.accounts, s.watched), n);
  }

  lemma CheckTip(s: State, cfg: Config)
    ensures CheckGaps(s, cfg).tip == s.tip
  {
  }

  /**
   * Exactly-once handling: over every run the notifications acted on are those that touch a watched
   * wallet with a signature outside the window, and the handler calls they cause are, in order, one per
   * touched wallet of each of them and no others.
   */
  lemma {:induction false} CallsAreActedOn(s0: State, es: seq<Event>, cfg: Config)
    requires Started(s0)
    ensures var s := Run(s0, es, cfg);
            var hs := ActedOn(es, s0.watched, cfg.recentSigCapacity);
            && s.watched == s0.watched && s.handled == SigsOf(hs)
            && s.recent == LastN(SigsOf(hs), cfg.recentSigCapacity)
            && Separated(SigsOf(hs), cfg.recentSigCapacity)
            && WsCalls(s.calls) == CallsOf(hs, s0.watched)
  {
    hide Handle, ScanGaps, LastN, Separated, Distinct, CallsFor, SigsOf, CallsOf, WsCalls;
    DedupWindow(s0, es, cfg);
    if es == [] {
      NothingCalled(s0.watched);
    } else {
      var k := |es| - 1;
      CallsAreActedOn(s0, es[..k], cfg);
      var s := Run(s0, es[..k], cfg);
      match es[k]
      case Notify(n) =>
        HandleCalls(s, n, cfg);
        OneMore(ActedOn(es[..k], s0.watched, cfg.recentSigCapacity), n, s0.watched);
      case Scan => ScanCalls(s, |s.watched|, cfg);
    }
  }

  lemma NothingCalled(watched: seq<Wallet>)
    ensures SigsOf([]) == [] && CallsOf([], watched) == [] && WsCalls([]) == []
  {
  }

  lemma OneMore(hs: seq<Note>, n: Note, watched: seq<Wallet>)
    ensures SigsOf(hs + [n]) == SigsOf(hs) + [n.sig]
    ensures CallsOf(hs + [n], watched) == CallsOf(hs, watched) + CallsFor(n, watched)
  {
    assert (hs + [n])[..|hs|] == hs;
  }

  /** The notification that call `a` comes from. */
  function OriginOf(hs: seq<Note>, watched: seq<Wallet>, a: nat): (i: nat)
    requires a < |CallsOf(hs, watched)|
    ensures i < |hs|
  {
    var k := |hs| - 1;
    if a < |CallsOf(hs[..k], watched)| then OriginOf(hs[..k], watched, a) else k
  }

  lemma {:induction false} CallHasOrigin(hs: seq<Note>, watched: seq<Wallet>, a: nat)
    requires a < |CallsOf(hs, watched)|
    ensures CallsOf(hs, watched)[a].reason == Ws(hs[OriginOf(hs, watched, a)].sig)
  {
    var k := |hs| - 1;
    if a < |CallsOf(hs[..k], watched)| { CallHasOrigin(hs[..k], watched, a); }
  }

  lemma {:induction false} OriginsInOrder(hs: seq<Note>, watched: seq<Wallet>, a: nat, b: nat)
    requires a < b < |CallsOf(hs, watched)|
    ensures OriginOf(hs, watched, a) <= OriginOf(hs, watched, b)
  {
    var k := |hs| - 1;
    if b < |CallsOf(hs[..k], watched)| { OriginsInOrder(hs[..k], watched, a, b); }
  }

  /**
   * No handler is called again for a signature it was called for, unless one notification lists the
   * wallet twice or at least `capacity` other notifications were acted on in between.
   */
  lemma NoCallTwice(s0: State, es: seq<Event>, cfg: Config, a: nat, b: nat)
    requires Started(s0)
    requires var calls := WsCalls(Run(s0, es, cfg).calls); a < b < |calls| && calls[a] == calls[b]
    ensures var hs := ActedOn(es, s0.watched, cfg.recentSigCapacity);
            && WsCalls(Run(s0, es, cfg).calls) == CallsOf(hs, s0.watched)
            && var i, j := OriginOf(hs, s0.watched, a), OriginOf(hs, s0.watched, b);
               i == j || j - i > cfg.recentSigCapacity
  {
    hide Run, ActedOn;
    CallsAreActedOn(s0, es, cfg);
    var hs := ActedOn(es, s0.watched, cfg.recentSigCapacity);
    CallHasOrigin(hs, s0.watched, a);
    CallHasOrigin(hs, s0.watched, b);
    OriginsInOrder(hs, s0.watched, a, b);
    var i, j := OriginOf(hs, s0.watched, a), OriginOf(hs, s0.watched, b);
    assert SigsOf(hs)[i] == SigsOf(hs)[j];
  }

  // ----- where the cursors end up

  function CursorOf(cursors: map<Wallet, Cursor>, w: Wallet): Option<Cursor> {
    if w in cursors then Some(cursors[w]) else None
  }

  predicate Below(slot: nat, c: Option<Cursor>) {
    c.Some? && c.value.lastSlot.Some? && slot < c.value.lastSlot.value
  }

  /** Every notification acted on that touches the wallet is older than its seed. */
  ghost predicate AllOlder(seed: Option<Cursor>, hs: seq<Note>, w: Wallet) {
    forall i | 0 <= i < |hs| && w in hs[i].accounts :: Below(hs[i].slot, seed)
  }

  /** Notification `i` touches the wallet, is not older than the seed, and none that touches it is later. */
  ghost predicate IsLast(seed: Option<Cursor>, hs: seq<Note>, w: Wallet, i: nat) {
    && i < |hs| && w in hs[i].accounts && !Below(hs[i].slot, seed)
    && (forall j | 0 <= j < i && w in hs[j].accounts :: hs[j].slot <= hs[i].slot || Below(hs[j].slot, seed))
    && (forall j | i < j < |hs| && w in hs[j].accounts :: hs[j].slot < hs[i].slot)
  }

  /**
   * The cursor of a wallet is the latest, by slot and then by arrival, of its seed and the notifications
   * acted on that touch it.
   */
  ghost predicate IsLatest(c: Option<Cursor>, seed: Option<Cursor>, hs: seq<Note>, w: Wallet) {
    || (c == seed && AllOlder(seed, hs, w))
    || exists i: nat :: IsLast(seed, hs, w, i) && c == Some(Cursor(Some(hs[i].sig), Some(hs[i].slot)))
  }

  lemma {:induction false} DispatchCursor(s: State, ws: seq<Wallet>, n: Note, w: Wallet)
    ensures CursorOf(Dispatch(s, ws, n).cursors, w)
            == if w in ws && !Below(n.slot, CursorOf(s.cursors, w)) then Some(Cursor(Some(n.sig), Some(n.slot)))
               else CursorOf(s.cursors, w)
  {
    if ws != [] {
      var k := |ws| - 1;
      DispatchCursor(s, ws[..k], n, w);
      assert ws == ws[..k] + [ws[k]];
    }
  }

  lemma HandleCursor(s: State, n: Note, cfg: Config, w: Wallet)
    ensures CursorOf(Handle(s, n, cfg).cursors, w)
            == if n.sig !in s.recent && w in n.accounts && w in s.watched && !Below(n.slot, CursorOf(s.cursors, w))
               then Some(Cursor(Some(n.sig), Some(n.slot))) else CursorOf(s.cursors, w)
  {
    hide Remember, Dispatch;
    var ws := Matched(n.accounts, s.watched);
    if n.sig !in s.recent && ws != [] {
      var s1 := s.(tip := if n.slot > s.tip then n.slot else s.tip,
                   recent := Remember(s.recent, n.sig, cfg.recentSigCapacity), handled := s.handled + [n.sig]);
      DispatchCursor(s1, ws, n, w);
    }
  }

  lemma LastStays(seed: Option<Cursor>, hs: seq<Note>, n: Note, w: Wallet, i: nat)
    requires IsLast(seed, hs, w, i) && (w in n.accounts ==> n.slot < hs[i].slot)
    ensures IsLast(seed, hs + [n], w, i) && (hs + [n])[i] == hs[i]
  {
  }

  lemma LastMoves(seed: Option<Cursor>, hs: seq<Note>, n: Note, w: Wallet)
    requires w in n.accounts && !Below(n.slot, seed)
    requires forall j | 0 <= j < |hs| && w in hs[j].accounts :: hs[j].slot <= n.slot || Below(hs[j].slot, seed)
    ensures IsLast(seed, hs + [n], w, |hs|) && (hs + [n])[|hs|] == n
  {
  }

  lemma LatestGrows(c: Option<Cursor>, seed: Option<Cursor>, hs: seq<Note>, n: Note, w: Wallet)
    requires IsLatest(c, seed, hs, w)
    ensures IsLatest(if w in n.accounts && !Below(n.slot, c) then Some(Cursor(Some(n.sig), Some(n.slot))) else c,
                     seed, hs + [n], w)
  {
    if c == seed && AllOlder(seed, hs, w) {
      if w in n.accounts && !Below(n.slot, c) { LastMoves(seed, hs, n, w); }
    } else {
      var i: nat :| IsLast(seed, hs, w, i) && c == Some(Cursor(Some(hs[i].sig), Some(hs[i].slot)));
      if w in n.accounts && !Below(n.slot, c) { LastMoves(seed, hs, n, w); } else { LastStays(seed, hs, n, w, i); }
    }
  }

  /** Over every run, the cursor of a watched wallet is its latest; other wallets keep theirs. */
  lemma {:induction false} CursorIsLatest(s0: State, es: seq<Event>, cfg: Config, w: Wallet)
    requires Started(s0)
    ensures var c, seed := CursorOf(Run(s0, es, cfg).cursors, w), CursorOf(s0.cursors, w);
            if w in s0.watched then IsLatest(c, seed, ActedOn(es, s0.watched, cfg.recentSigCapacity), w) else c == seed
  {
    hide Handle, ScanGaps, LastN, Separated, Distinct, IsLatest, Below;
    if es == [] {
      NothingIsLatest(CursorOf(s0.cursors, w), w);
    } else {
      var k := |es| - 1;
      CursorIsLatest(s0, es[..k], cfg, w);
      CallsAreActedOn(s0, es[..k], cfg);
      var s := Run(s0, es[..k], cfg);
      var before := ActedOn(es[..k], s0.watched, cfg.recentSigCapacity);
      match es[k]
      case Notify(n) =>
        HandleCursor(s, n, cfg, w);
        if w in s0.watched { LatestGrows(CursorOf(s.cursors, w), CursorOf(s0.cursors, w), before, n, w); }
      case Scan =>
    }
  }

  lemma NothingIsLatest(seed: Option<Cursor>, w: Wallet)
    ensures IsLatest(seed, seed, [], w)
  {
  }

  // ----- which wallets a scan recovers

  /** Far behind the tip, and not recovered near it yet. */
  predicate Due(s: State, w: Wallet, gap: nat) {
    && w in s.cursors && s.cursors[w].lastSlot.Some? && s.tip >= s.cursors[w].lastSlot.value + gap
    && (w in s.lastGapChecked ==> s.tip >= s.lastGapChecked[w] + gap)
  }

  /** The recoveries of a scan: one per wallet that is due, in the order of the wallets. */
  function Recoveries(s: State, k: nat, gap: nat): seq<Call>
    requires k <= |s.watched|
  {
    if k == 0 then []
    else
      Recoveries(s, k - 1, gap)
      + (if Due(s, s.watched[k - 1], gap) then [Call(s.watched[k - 1], GapBackfill(s.tip))] else [])
  }

  lemma {:induction false} ScanRecovers(s: State, k: nat, cfg: Config)
    requires k <= |s.watched| && forall i, j | 0 <= i < j < |s.watched| :: s.watched[i] != s.watched[j]
    ensures var t := ScanGaps(s, k, cfg);
            && t.calls == s.calls + Recoveries(s, k, cfg.gapSuspectSlots)
            && (forall i | k <= i < |s.watched| ::
                  s.watched[i] in t.lastGapChecked <==> s.watched[i] in s.lastGapChecked)
            && (forall i | k <= i < |s.watched| && s.watched[i] in s.lastGapChecked ::
                  t.lastGapChecked[s.watched[i]] == s.lastGapChecked[s.watched[i]])
            && (forall i | 0 <= i < k && Due(s, s.watched[i], cfg.gapSuspectSlots) ::
                  s.watched[i] in t.lastGapChecked && t.lastGapChecked[s.watched[i]] == s.tip)
  {
    if k > 0 { ScanRecovers(s, k - 1, cfg); }
  }

  /** A scan with a known tip recovers exactly the wallets that are due, and remembers the tip for them. */
  lemma ScanIsRecoveries(s: State, cfg: Config)
    requires forall i, j | 0 <= i < j < |s.watched| :: s.watched[i] != s.watched[j]
    ensures var t := CheckGaps(s, cfg);
            t.calls == (if s.tip == 0 then s.calls else s.calls + Recoveries(s, |s.watched|, cfg.gapSuspectSlots))
            && (s.tip > 0 ==> forall w | w in s.watched && Due(s, w, cfg.gapSuspectSlots) ::
                                w in t.lastGapChecked && t.lastGapChecked[w] == s.tip)
  {
    hide ScanGaps, Due, Recoveries;
    ScanRecovers(s, |s.watched|, cfg);
  }
}
