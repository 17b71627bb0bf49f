/**
 * The notification path and the gap scan of `TransactionStream`, for a fixed set of watched wallets.
 * Activity handlers are outside calls: the stream keeps the list of calls it made.
 */
module Stream {
  import opened Options

  type Sig = string
  type Wallet = string

  datatype Note = Note(sig: Sig, slot: nat, accounts: seq<Wallet>)

  datatype Cursor = Cursor(lastSignature: Option<Sig>, lastSlot: Option<nat>)

  /** Why a handler is called, with the signature or the tip slot that caused it. */
  datatype Reason = Ws(sig: Sig) | GapBackfill(tip: nat)

  datatype Call = Call(wallet: Wallet, reason: Reason)

  /** `watched` and `recent` are in insertion order, as the map and the set of the service iterate. */
  datatype State = State(
    watched: seq<Wallet>,
    cursors: map<Wallet, Cursor>,
    recent: seq<Sig>,
    lastGapChecked: map<Wallet, nat>,
    tip: nat,
    handled: seq<Sig>,
    calls: seq<Call>)

  datatype Config = Config(recentSigCapacity: nat, gapSuspectSlots: nat)

  // ----- notifications

  function SlotOf(cursors: map<Wallet, Cursor>, w: Wallet): Option<nat> {
    if w in cursors then cursors[w].lastSlot else None
  }

  function Advance(cursors: map<Wallet, Cursor>, w: Wallet, sig: Sig, slot: nat): map<Wallet, Cursor> {
    var prev := SlotOf(cursors, w);
    if prev.Some? && slot < prev.value then cursors else cursors[w := Cursor(Some(sig), Some(slot))]
  }

  /** A set insertion that evicts the oldest entry past the capacity. */
  function Remember(recent: seq<Sig>, sig: Sig, capacity: nat): seq<Sig> {
    var added := if sig in recent then recent else recent + [sig];
    if |added| > capacity then added[1..] else added
  }

  function Matched(accounts: seq<Wallet>, watched: seq<Wallet>): (r: seq<Wallet>)
    ensures forall w :: w in r <==> w in accounts && w in watched
  {
    if accounts == [] then []
    else
      var n := |accounts| - 1;
      assert accounts == accounts[..n] + [accounts[n]];
      Matched(accounts[..n], watched) + (if accounts[n] in watched then [accounts[n]] else [])
  }

  /** Move the cursor of each matched wallet and call its handler. */
  function Dispatch(s: State, ws: seq<Wallet>, n: Note): State {
    if ws == [] then s
    else
      var k := |ws| - 1;
      var t := Dispatch(s, ws[..k], n);
      t.(cursors := Advance(t.cursors, ws[k], n.sig, n.slot), calls := t.calls + [Call(ws[k], Ws(n.sig))])
  }

  function Handle(s: State, n: Note, cfg: Config): State {
    var s1 := s.(tip := if n.slot > s.tip then n.slot else s.tip);
    if n.sig in s.recent then s1
    else
      var ws := Matched(n.accounts, s.watched);
      if ws == [] then s1
      else
        var recent := Remember(s1.recent, n.sig, cfg.recentSigCapacity);
        Dispatch(s1.(recent := recent, handled := s1.handled + [n.sig]), ws, n)
  }

  // ----- the replay floor

  function MinSlot(s: State, k: nat): Option<nat>
    requires k <= |s.watched|
  {
    if k == 0 then None
    else
      var min, slot := MinSlot(s, k - 1), SlotOf(s.cursors, s.watched[k - 1]);
      if slot.None? then min
      else if min.None? || slot.value < min.value then slot
      else min
  }

  // ----- the gap scan

  predicate Suspect(s: State, w: Wallet, cfg: Config) {
    var slot := SlotOf(s.cursors, w);
    && slot.Some? && s.tip - slot.value >= cfg.gapSuspectSlots
    && (w in s.lastGapChecked ==> s.tip - s.lastGapChecked[w] >= cfg.gapSuspectSlots)
  }

  function ScanWallet(s: State, w: Wallet, cfg: Config): State {
    if Suspect(s, w, cfg) then
      s.(lastGapChecked := s.lastGapChecked[w := s.tip], calls := s.calls + [Call(w, GapBackfill(s.tip))])
    else s
  }

  function ScanGaps(s: State, k: nat, cfg: Config): (r: State)
    requires k <= |s.watched|
    ensures r.watched == s.watched && r.tip == s.tip && r.cursors == s.cursors
  {
    if k == 0 then s else ScanWallet(ScanGaps(s, k - 1, cfg), s.watched[k - 1], cfg)
  }

  function CheckGaps(s: State, cfg: Config): State {
    if s.tip == 0 then s else ScanGaps(s, |s.watched|, cfg)
  }

  // ----- the stream object

  class TransactionStream {
    const cfg: Config
    const watched: seq<Wallet>
    var cursorCache: map<Wallet, Cursor>
    var recentSigs: seq<Sig>
    var lastGapCheckedSlot: map<Wallet, nat>
    var observedTipSlot: nat
    ghost var handled: seq<Sig>
    ghost var calls: seq<Call>

    ghost function Current(): State
      reads this
    {
      State(watched, cursorCache, recentSigs, lastGapCheckedSlot, observedTipSlot, handled, calls)
    }

    constructor (cfg: Config, watched: seq<Wallet>, seeds: map<Wallet, Cursor>)
      ensures this.cfg == cfg && Current() == State(watched, seeds, [], map[], 0, [], [])
    {
      this.cfg, this.watched, cursorCache := cfg, watched, seeds;
      recentSigs, lastGapCheckedSlot, observedTipSlot := [], map[], 0;
      handled, calls := [], [];
    }

    method AdvanceCursor(wallet: Wallet, signature: Sig, slot: nat)
      modifies this`cursorCache
      ensures cursorCache == Advance(old(cursorCache), wallet, signature, slot)
    {
      if wallet in cursorCache {
        var prev := cursorCache[wallet];
        if prev.lastSlot.Some? && slot < prev.lastSlot.value { return; }
      }
      cursorCache := cursorCache[wallet := Cursor(Some(signature), Some(slot))];
    }

    method RememberSig(signature: Sig)
      modifies this`recentSigs
      ensures recentSigs == Remember(old(recentSigs), signature, cfg.recentSigCapacity)
    {
      if signature !in recentSigs { recentSigs := recentSigs + [signature]; }
      if |recentSigs| > cfg.recentSigCapacity { recentSigs := recentSigs[1..]; }
    }

    method HandleNotification(n: Note)
      modifies this
      ensures Current() == Handle(old(Current()), n, cfg)
    {
      if n.slot > observedTipSlot { observedTipSlot := n.slot; }
      if n.sig in recentSigs { return; }
      var matched := Matched(n.accounts, watched);
      if |matched| == 0 { return; }
      RememberSig(n.sig);
      handled := handled + [n.sig];
      ghost var s := Current();
      for i := 0 to |matched|
        invariant Current() == Dispatch(s, matched[..i], n)
      {
        assert matched[..i + 1][..i] == matched[..i];
        AdvanceCursor(matched[i], n.sig, n.slot);
        calls := calls + [Call(matched[i], Ws(n.sig))];
      }
      assert matched[..|matched|] == matched;
    }

    method MinCursorSlot() returns (min: Option<nat>)
      ensures min == MinSlot(Current(), |watched|)
    {
      min := None;
      for i := 0 to |watched|
        invariant min == MinSlot(Current(), i)
      {
        var slot := SlotOf(cursorCache, watched[i]);
        if slot.Some? && (min.None? || slot.value < min.value) { min := slot; }
      }
    }

    method CheckGapsNow()
      modifies this`lastGapCheckedSlot, this`calls
      ensures Current() == CheckGaps(old(Current()), cfg)
    {
      if observedTipSlot == 0 { return; }
      for i := 0 to |watched|
        invariant Current() == ScanGaps(old(Current()), i, cfg)
      {
        var w := watched[i];
        var slot := SlotOf(cursorCache, w);
        if slot.None? || observedTipSlot - slot.value < cfg.gapSuspectSlots { continue; }
        if w in lastGapCheckedSlot && observedTipSlot - lastGapCheckedSlot[w] < cfg.gapSuspectSlots { continue; }
        lastGapCheckedSlot := lastGapCheckedSlot[w := observedTipSlot];
        calls := calls + [Call(w, GapBackfill(observedTipSlot))];
      }
    }
  }
}
