/**
 * No transaction is missed across reconnects. The server is any that delivers each connection in slot
 * order from the replay floor it was given, with repeats allowed and ties in any order.
 */
module StreamNoMiss {
  import opened Options
  import opened Stream

  datatype Net = Net(stream: State, history: set<Note>, from: nat, delivered: set<Note>)

  datatype Label =
    | Confirm(n: Note)
    | Deliver(n: Note)
    | Reconnect
    | Scan

  /** Every watched wallet has a slot to resume from, and the connection starts at the lowest of them. */
  ghost predicate Initial(net: Net, seeds: map<Wallet, nat>) {
    var s := net.stream;
    && (forall w | w in s.watched :: w in seeds && SlotOf(s.cursors, w) == Some(seeds[w]))
    && s.recent == [] && s.handled == [] && s.calls == [] && s.tip == 0 && s.lastGapChecked == map[]
    && net.delivered == {} && Some(net.from) == MinSlot(s, |s.watched|) && UniqueSigs(net.history)
  }

  ghost predicate UniqueSigs(h: set<Note>) {
    forall m, n | m in h && n in h && m.sig == n.sig :: m == n
  }

  /** New transactions appear at or above what was already seen; a delivery never runs ahead of a slot. */
  ghost predicate Enabled(net: Net, l: Label) {
    match l
    case Confirm(n) => n.slot >= net.stream.tip && forall m | m in net.history :: m.sig != n.sig
    case Deliver(n) =>
      && n in net.history && net.from <= n.slot
      && forall m | m in net.history && net.from <= m.slot < n.slot :: m in net.delivered
    case Reconnect => true
    case Scan => true
  }

  ghost function Step(net: Net, l: Label, cfg: Config): Net {
    if !Enabled(net, l) then net
    else
      match l
      case Confirm(n) => net.(history := net.history + {n})
      case Deliver(n) => net.(stream := Handle(net.stream, n, cfg), delivered := net.delivered + {n})
      case Reconnect => net.(from := MinSlot(net.stream, |net.stream.watched|).GetOr(0), delivered := {})
      case Scan => net.(stream := CheckGaps(net.stream, cfg))
  }

  ghost function Exec(net: Net, labels: seq<Label>, cfg: Config): Net {
    if labels == [] then net else Step(Exec(net, labels[..|labels| - 1], cfg), labels[|labels| - 1], cfg)
  }

  ghost predicate Called(s: State, w: Wallet, n: Note) {
    Call(w, Ws(n.sig)) in s.calls
  }

  /** The handler of every watched wallet the transaction touches was called for it. */
  ghost predicate Dispatched(s: State, n: Note) {
    forall w | w in n.accounts && w in s.watched :: Called(s, w, n)
  }

  ghost function SigsOf(h: set<Note>): set<Sig> {
    set n | n in h :: n.sig
  }

  ghost predicate Inv(net: Net, seeds: map<Wallet, nat>) {
    var s := net.stream;
    && UniqueSigs(net.history) && net.delivered <= net.history
    && (forall w | w in s.watched ::
          w in seeds && SlotOf(s.cursors, w).Some?
          && SlotAt(s, w) >= net.from && SlotAt(s, w) >= seeds[w]
          && (SlotAt(s, w) == seeds[w] || SlotAt(s, w) <= s.tip))
    && (forall n | n in net.delivered :: n.slot <= s.tip && Dispatched(s, n))
    && (forall x | x in s.recent :: x in SigsOf(net.history))
    && (forall n | n in net.history && n.sig in s.recent :: Dispatched(s, n))
    && (forall w, n | w in s.watched && n in net.history && w in n.accounts && seeds[w] <= n.slot < SlotAt(s, w) ::
          Called(s, w, n))
  }

  function SlotAt(s: State, w: Wallet): nat {
    SlotOf(s.cursors, w).GetOr(0)
  }

  // ----- facts about one notification

  lemma {:induction false} DispatchEffect(s: State, ws: seq<Wallet>, n: Note)
    ensures var t := Dispatch(s, ws, n);
            && t.watched == s.watched && t.recent == s.recent && t.tip == s.tip && t.handled == s.handled
            && s.calls <= t.calls
            && (forall w | w in ws :: Call(w, Ws(n.sig)) in t.calls)
            && (forall w | w !in ws :: SlotOf(t.cursors, w) == SlotOf(s.cursors, w))
            && (forall w | w in ws :: SlotOf(t.cursors, w).Some?
                  && SlotAt(t, w)
                     == if SlotOf(s.cursors, w).Some? && SlotAt(s, w) > n.slot then SlotAt(s, w) else n.slot)
  {
    if ws != [] {
      var k := |ws| - 1;
      DispatchEffect(s, ws[..k], n);
      assert ws == ws[..k] + [ws[k]];
    }
  }

  lemma RememberKeeps(recent: seq<Sig>, sig: Sig, capacity: nat, x: Sig)
    requires x in Remember(recent, sig, capacity)
    ensures x in recent || x == sig
  {
  }

  /** What a notification does to slots and calls. */
  lemma HandleEffect(s: State, n: Note, cfg: Config)
    ensures var t := Handle(s, n, cfg);
            && t.watched == s.watched && s.calls <= t.calls
            && t.tip >= s.tip && t.tip >= n.slot
            && (n.sig !in s.recent ==> Dispatched(t, n))
            && (forall x | x in t.recent :: x in s.recent || (x == n.sig && Dispatched(t, n)))
            && (forall w :: SlotOf(t.cursors, w) == SlotOf(s.cursors, w)
                  || (w in s.watched && w in n.accounts && SlotOf(t.cursors, w) == Some(n.slot)
                      && (SlotOf(s.cursors, w).Some? ==> SlotAt(s, w) <= n.slot)))
  {
    hide Matched, Remember;
    var ws := Matched(n.accounts, s.watched);
    if n.sig !in s.recent && ws != [] {
      var s1 := s.(tip := if n.slot > s.tip then n.slot else s.tip,
                   recent := Remember(s.recent, n.sig, cfg.recentSigCapacity), handled := s.handled + [n.sig]);
      DispatchEffect(s1, ws, n);
      forall x | x in s1.recent ensures x in s.recent || x == n.sig {
        RememberKeeps(s.recent, n.sig, cfg.recentSigCapacity, x);
      }
    }
  }

  // ----- every step keeps the invariant

  lemma DeliverKeepsInv(net: Net, n: Note, cfg: Config, seeds: map<Wallet, nat>)
    requires Inv(net, seeds) && Enabled(net, Deliver(n))
    ensures Inv(Step(net, Deliver(n), cfg), seeds)
  {
    hide Handle;
    var s, t := net.stream, Handle(net.stream, n, cfg);
    HandleEffect(s, n, cfg);
    assert Dispatched(t, n);
    forall w, m | w in t.watched && m in net.history && w in m.accounts && seeds[w] <= m.slot < SlotAt(t, w)
      ensures Called(t, w, m)
    {
      if m.slot < SlotAt(s, w) {
        assert Called(s, w, m);
      } else {
        assert SlotAt(t, w) == n.slot && m in net.delivered;
        assert Dispatched(s, m);
      }
    }
    forall m | m in net.history && m.sig in t.recent ensures Dispatched(t, m) {
      if m.sig in s.recent { assert Dispatched(s, m); } else { assert m == n; }
    }
    forall m | m in net.delivered + {n} ensures m.slot <= t.tip && Dispatched(t, m) {
      if m in net.delivered { assert Dispatched(s, m); }
    }
  }

  lemma {:induction false} MinIsLeast(s: State, k: nat)
    requires k <= |s.watched|
    ensures forall i | 0 <= i < k && SlotOf(s.cursors, s.watched[i]).Some? ::
              MinSlot(s, k).Some? && MinSlot(s, k).value <= SlotAt(s, s.watched[i])
    ensures MinSlot(s, k).Some? ==> exists i :: 0 <= i < k && SlotOf(s.cursors, s.watched[i]) == MinSlot(s, k)
  {
    if k > 0 { MinIsLeast(s, k - 1); }
  }

  lemma ReconnectKeepsInv(net: Net, cfg: Config, seeds: map<Wallet, nat>)
    requires Inv(net, seeds)
    ensures Inv(Step(net, Reconnect, cfg), seeds)
  {
    MinIsLeast(net.stream, |net.stream.watched|);
  }

  lemma ConfirmKeepsInv(net: Net, n: Note, cfg: Config, seeds: map<Wallet, nat>)
    requires Inv(net, seeds) && Enabled(net, Confirm(n))
    ensures Inv(Step(net, Confirm(n), cfg), seeds)
  {
    assert n.sig !in SigsOf(net.history);
  }

  lemma ScanKeepsInv(net: Net, cfg: Config, seeds: map<Wallet, nat>)
    requires Inv(net, seeds)
    ensures Inv(Step(net, Scan, cfg), seeds)
  {
    ScanEffect(net.stream, |net.stream.watched|, cfg);
  }

  lemma {:induction false} ScanEffect(s: State, k: nat, cfg: Config)
    requires k <= |s.watched|
    ensures var t := ScanGaps(s, k, cfg); t.recent == s.recent && s.calls <= t.calls
  {
    if k > 0 { ScanEffect(s, k - 1, cfg); }
  }

  lemma {:induction false} ExecKeepsInv(net: Net, labels: seq<Label>, cfg: Config, seeds: map<Wallet, nat>)
    requires Initial(net, seeds)
    ensures Inv(Exec(net, labels, cfg), seeds)
    ensures Exec(net, labels, cfg).stream.watched == net.stream.watched
  {
    if labels == [] {
      MinIsLeast(net.stream, |net.stream.watched|);
    } else {
      var k := |labels| - 1;
      ExecKeepsInv(net, labels[..k], cfg, seeds);
      var mid := Exec(net, labels[..k], cfg);
      if Enabled(mid, labels[k]) {
        match labels[k]
        case Confirm(n) => ConfirmKeepsInv(mid, n, cfg, seeds);
        case Deliver(n) => DeliverKeepsInv(mid, n, cfg, seeds); HandleEffect(mid.stream, n, cfg);
        case Reconnect => ReconnectKeepsInv(mid, cfg, seeds);
        case Scan => ScanKeepsInv(mid, cfg, seeds);
      }
    }
  }

  /**
   * No missed transaction: after any schedule of confirmations, deliveries, reconnects and gap scans,
   * every transaction that touches a watched wallet from its seeded slot up to below its cursor has
   * reached the wallet's handler; and no cursor ever falls below the replay floor.
   */
  lemma NoMiss(net0: Net, labels: seq<Label>, cfg: Config, seeds: map<Wallet, nat>, w: Wallet, n: Note)
    requires Initial(net0, seeds) && w in net0.stream.watched
    ensures var net := Exec(net0, labels, cfg);
            && SlotOf(net.stream.cursors, w).Some? && net.from <= SlotAt(net.stream, w)
            && (n in net.history && w in n.accounts && seeds[w] <= n.slot < SlotAt(net.stream, w) ==>
                  Call(w, Ws(n.sig)) in net.stream.calls)
  {
    hide Exec;
    ExecKeepsInv(net0, labels, cfg, seeds);
    var net := Exec(net0, labels, cfg);
    if n in net.history && w in n.accounts && seeds[w] <= n.slot < SlotAt(net.stream, w) {
      assert Called(net.stream, w, n);
    }
  }

  /** Once a connection has delivered all it owes, nothing since the seeded slot is missing at all. */
  lemma CaughtUpMissesNothing(net0: Net, labels: seq<Label>, cfg: Config, seeds: map<Wallet, nat>, w: Wallet, n: Note)
    requires Initial(net0, seeds) && w in net0.stream.watched
    requires var net := Exec(net0, labels, cfg);
             && (forall m | m in net.history && net.from <= m.slot :: m in net.delivered)
             && n in net.history && w in n.accounts && seeds[w] <= n.slot
    ensures Call(w, Ws(n.sig)) in Exec(net0, labels, cfg).stream.calls
  {
    hide Exec;
    ExecKeepsInv(net0, labels, cfg, seeds);
    var net := Exec(net0, labels, cfg);
    if n.slot < SlotAt(net.stream, w) {
      assert Called(net.stream, w, n);
    } else {
      assert Dispatched(net.stream, n);
    }
  }

  /** A cursor never rewinds, whatever notifications arrive in whatever order. */
  lemma {:induction false} CursorNeverRewinds(s: State, ns: seq<Note>, cfg: Config, w: Wallet)
    requires SlotOf(s.cursors, w).Some?
    ensures var t := HandleAll(s, ns, cfg); SlotOf(t.cursors, w).Some? && SlotAt(t, w) >= SlotAt(s, w)
  {
    hide Handle;
    if ns != [] {
      var k := |ns| - 1;
      CursorNeverRewinds(s, ns[..k], cfg, w);
      HandleEffect(HandleAll(s, ns[..k], cfg), ns[k], cfg);
    }
  }

  function HandleAll(s: State, ns: seq<Note>, cfg: Config): State {
    if ns == [] then s else Handle(HandleAll(s, ns[..|ns| - 1], cfg), ns[|ns| - 1], cfg)
  }
}
