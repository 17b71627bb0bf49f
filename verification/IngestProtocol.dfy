/** What the ingest protocol keeps over every schedule of growth, replies, failures, crashes and passes. */
module IngestProtocol {
  import opened Options
  import opened Ingest

  // ----- coverage of the history by the table

  ghost predicate Stored<V>(table: Table<V>, tx: Tx<V>) {
    forall m | m in tx.rows :: (tx.sig, m) in table && table[(tx.sig, m)] == tx.rows[m]
  }

  ghost predicate Covered<V>(h: seq<Tx<V>>, table: Table<V>, lo: int, hi: int) {
    forall i | 0 <= i < |h| && lo <= i < hi :: Stored(table, h[i])
  }

  /** The table holds nothing but rows the history decodes to. */
  ghost predicate Sound<V>(h: seq<Tx<V>>, table: Table<V>) {
    forall k | k in table ::
      var i := Pos(h, k.0);
      i < |h| && k.1 in h[i].rows && table[k] == h[i].rows[k.1]
  }

  ghost predicate FromHistory<V>(h: seq<Tx<V>>, txs: seq<Tx<V>>) {
    forall j | 0 <= j < |txs| :: Pos(h, txs[j].sig) < |h| && h[Pos(h, txs[j].sig)] == txs[j]
  }

  ghost predicate Extends<V>(big: Table<V>, small: Table<V>) {
    forall k | k in small :: k in big && big[k] == small[k]
  }

  lemma {:induction false} InsertAllStores<V>(h: seq<Tx<V>>, table: Table<V>, txs: seq<Tx<V>>)
    requires Sound(h, table) && FromHistory(h, txs)
    ensures var t := InsertAll(table, txs);
            && Sound(h, t) && Extends(t, table)
            && forall j | 0 <= j < |txs| :: Stored(t, txs[j])
  {
    if txs != [] {
      var n := |txs| - 1;
      InsertAllStores(h, table, txs[..n]);
      var t, t' := InsertAll(table, txs[..n]), InsertAll(table, txs);
      assert Extends(t', t);
      forall j | 0 <= j < |txs| ensures Stored(t', txs[j]) {
        if j < n { assert txs[..n][j] == txs[j]; }
      }
    }
  }

  lemma PosOf<V>(h: seq<Tx<V>>, i: nat)
    requires Unique(h) && i < |h|
    ensures Pos(h, h[i].sig) == i
  {
  }

  lemma CoveredExtends<V>(h: seq<Tx<V>>, small: Table<V>, big: Table<V>, lo: int, hi: int)
    requires Covered(h, small, lo, hi) && Extends(big, small)
    ensures Covered(h, big, lo, hi)
  {
  }

  // ----- the invariant

  ghost predicate Known<V>(h: seq<Tx<V>>, s: Option<Sig>) {
    s.Some? ==> Pos(h, s.value) < |h|
  }

  /** A complete cursor covers all up to its top; an incomplete one covers from its bottom to its top. */
  ghost predicate CursorSafe<V>(h: seq<Tx<V>>, table: Table<V>, c: Cursor) {
    && Known(h, c.newestSig) && Known(h, c.oldestSig)
    && (c.newestSig.Some? ==>
          var top := Pos(h, c.newestSig.value) + 1;
          if c.complete then Covered(h, table, 0, top)
          else
            && c.oldestSig.Some? && Pos(h, c.oldestSig.value) < top
            && Covered(h, table, Pos(h, c.oldestSig.value), top))
  }

  /** A run has stored everything from the first transaction it saw down to where it stands. */
  ghost predicate RunSafe<V>(h: seq<Tx<V>>, table: Table<V>, c: Option<Cursor>, r: Run) {
    && r.untilSig == StartRun(c).untilSig && r.startBefore == StartRun(c).startBefore
    && Known(h, r.newestSig) && Known(h, r.oldestSig) && Known(h, r.untilSig) && Known(h, r.startBefore)
    && !(r.complete && r.hitKnownTop)
    && (r.complete && r.oldestSig.Some? ==> Pos(h, r.oldestSig.value) == 0)
    && (r.newestSig.None? ==> r.oldestSig == r.startBefore && !r.hitKnownTop)
    && (r.newestSig.Some? ==> Swept(h, table, r))
  }

  ghost predicate Swept<V>(h: seq<Tx<V>>, table: Table<V>, r: Run)
    requires r.newestSig.Some?
  {
    var top := Pos(h, r.newestSig.value) + 1;
    && r.oldestSig.Some? && Pos(h, r.oldestSig.value) < top
    && (r.startBefore.Some? ==> top == Pos(h, r.startBefore.value))
    && (!r.hitKnownTop ==> Covered(h, table, Pos(h, r.oldestSig.value), top))
    && (r.hitKnownTop ==>
          && r.untilSig.Some? && Pos(h, r.untilSig.value) < top
          && Covered(h, table, Pos(h, r.untilSig.value) + 1, top))
  }

  ghost predicate Inv<V>(w: World<V>) {
    && Unique(w.history) && Sound(w.history, w.table)
    && (w.cursor.Some? ==> CursorSafe(w.history, w.table, w.cursor.value))
    && (w.run.Some? ==> RunSafe(w.history, w.table, w.cursor, w.run.value))
  }

  // ----- every step keeps it

  lemma GrowKeepsPos<V>(h: seq<Tx<V>>, tx: Tx<V>, s: Sig)
    requires Unique(h) && Pos(h, tx.sig) == |h| && Pos(h, s) < |h|
    ensures Pos(h + [tx], s) == Pos(h, s)
  {
    hide Pos;
    assert (h + [tx])[Pos(h, s)] == h[Pos(h, s)];
  }

  lemma GrowKeepsCursor<V>(h: seq<Tx<V>>, table: Table<V>, c: Cursor, tx: Tx<V>)
    requires Unique(h) && Pos(h, tx.sig) == |h| && CursorSafe(h, table, c)
    ensures CursorSafe(h + [tx], table, c)
  {
    hide Pos, Stored;
    if c.newestSig.Some? { GrowKeepsPos(h, tx, c.newestSig.value); }
    if c.oldestSig.Some? { GrowKeepsPos(h, tx, c.oldestSig.value); }
  }

  lemma GrowKeepsCovered<V>(h: seq<Tx<V>>, table: Table<V>, tx: Tx<V>, lo: int, hi: int)
    requires hi <= |h| && Covered(h, table, lo, hi)
    ensures Covered(h + [tx], table, lo, hi)
  {
    hide Stored;
  }

  lemma GrowKeepsKnown<V>(h: seq<Tx<V>>, tx: Tx<V>, s: Option<Sig>)
    requires Unique(h) && Pos(h, tx.sig) == |h| && Known(h, s)
    ensures Known(h + [tx], s) && (s.Some? ==> Pos(h + [tx], s.value) == Pos(h, s.value))
  {
    hide Pos, Unique;
    if s.Some? { GrowKeepsPos(h, tx, s.value); }
  }

  lemma GrowKeepsSwept<V>(h: seq<Tx<V>>, table: Table<V>, r: Run, tx: Tx<V>)
    requires Unique(h) && Pos(h, tx.sig) == |h| && r.newestSig.Some? && Swept(h, table, r)
    requires Known(h, r.newestSig) && Known(h, r.oldestSig) && Known(h, r.untilSig) && Known(h, r.startBefore)
    ensures Swept(h + [tx], table, r)
  {
    hide Pos, Unique, Covered;
    GrowKeepsKnown(h, tx, r.newestSig);
    GrowKeepsKnown(h, tx, r.oldestSig);
    GrowKeepsKnown(h, tx, r.untilSig);
    GrowKeepsKnown(h, tx, r.startBefore);
    var lo := if r.hitKnownTop then Pos(h, r.untilSig.value) + 1 else Pos(h, r.oldestSig.value);
    GrowKeepsCovered(h, table, tx, lo, Pos(h, r.newestSig.value) + 1);
  }

  lemma GrowKeepsRun<V>(h: seq<Tx<V>>, table: Table<V>, c: Option<Cursor>, r: Run, tx: Tx<V>)
    requires Unique(h) && Pos(h, tx.sig) == |h| && RunSafe(h, table, c, r)
    ensures RunSafe(h + [tx], table, c, r)
  {
    hide Pos, Unique, StartRun, Swept;
    GrowKeepsKnown(h, tx, r.newestSig);
    GrowKeepsKnown(h, tx, r.oldestSig);
    GrowKeepsKnown(h, tx, r.untilSig);
    GrowKeepsKnown(h, tx, r.startBefore);
    if r.newestSig.Some? { GrowKeepsSwept(h, table, r, tx); }
  }

  lemma GrowKeepsSound<V>(h: seq<Tx<V>>, table: Table<V>, tx: Tx<V>)
    requires Unique(h) && Pos(h, tx.sig) == |h| && Sound(h, table)
    ensures Sound(h + [tx], table) && Unique(h + [tx])
  {
    hide Pos;
    forall k | k in table ensures Pos(h + [tx], k.0) == Pos(h, k.0) {
      GrowKeepsPos(h, tx, k.0);
    }
  }

  lemma GrowKeepsInv<V>(w: World<V>, tx: Tx<V>)
    requires Inv(w) && Pos(w.history, tx.sig) == |w.history|
    ensures Inv(w.(history := w.history + [tx]))
  {
    hide Pos, RunSafe, CursorSafe, Sound;
    GrowKeepsSound(w.history, w.table, tx);
    if w.cursor.Some? { GrowKeepsCursor(w.history, w.table, w.cursor.value, tx); }
    if w.run.Some? { GrowKeepsRun(w.history, w.table, w.cursor, w.run.value, tx); }
  }

  lemma StartKeepsInv<V>(w: World<V>)
    requires Inv(w) && w.run.None?
    ensures Inv(w.(run := Some(StartRun(w.cursor))))
  {
  }

  /** The shape of `Above`: the whole page, or the part before the stop signature. */
  lemma {:induction false} AboveShape<V>(txs: seq<Tx<V>>, stop: Option<Sig>)
    ensures var k := |Above(txs, stop)|;
            && k <= |txs| && Above(txs, stop) == txs[..k]
            && (k < |txs| ==> stop == Some(txs[k].sig))
            && forall j | 0 <= j < k :: stop != Some(txs[j].sig)
  {
    if txs != [] && stop != Some(txs[0].sig) { AboveShape(txs[1..], stop); }
  }

  /** A legal page, as indices of the history. */
  lemma PageIsSlice<V>(h: seq<Tx<V>>, before: Option<Sig>, txs: seq<Tx<V>>)
    requires Unique(h) && Legal(h, before, Page(txs))
    ensures var top := Ceiling(h, before);
            && |txs| <= top
            && forall j | 0 <= j < |txs| :: txs[j] == h[top - 1 - j] && Pos(h, txs[j].sig) == top - 1 - j
  {
    hide Pos;
    var top := Ceiling(h, before);
    forall j | 0 <= j < |txs| ensures Pos(h, txs[j].sig) == top - 1 - j {
      PosOf(h, top - 1 - j);
    }
  }

  /** What `Above` keeps of a legal page, and where it stopped. */
  lemma PageInHistory<V>(h: seq<Tx<V>>, before: Option<Sig>, txs: seq<Tx<V>>, stop: Option<Sig>)
    requires Unique(h) && Legal(h, before, Page(txs)) && txs != []
    ensures var top := Ceiling(h, before);
            var above := Above(txs, stop);
            var k := |above|;
            && k <= |txs| && FromHistory(h, above)
            && (forall j | 0 <= j < k :: above[j] == h[top - 1 - j])
            && (k < |txs| ==> stop.Some? && Pos(h, stop.value) == top - 1 - k)
            && (k == |txs| ==> forall j | 0 <= j < |txs| :: stop != Some(txs[j].sig))
  {
    hide Pos, Above, Legal;
    var top := Ceiling(h, before);
    AboveShape(txs, stop);
    PageIsSlice(h, before, txs);
  }

  /** What `onPage` stores of one page: the slice above the stop signature, and nothing is lost. */
  lemma PageStores<V>(h: seq<Tx<V>>, table: Table<V>, before: Option<Sig>, txs: seq<Tx<V>>, stop: Option<Sig>)
    requires Unique(h) && Sound(h, table) && Legal(h, before, Page(txs)) && txs != []
    ensures var t := InsertAll(table, Above(txs, stop));
            var top := Ceiling(h, before);
            Sound(h, t) && Extends(t, table) && Covered(h, t, top - |Above(txs, stop)|, top)
  {
    hide InsertAll, Above, Pos, Sound, Stored, Legal;
    var top := Ceiling(h, before);
    PageIsSlice(h, before, txs);
    PageInHistory(h, before, txs, stop);
    InsertAllStores(h, table, Above(txs, stop));
    forall i | 0 <= i < |h| && top - |Above(txs, stop)| <= i < top
      ensures Stored(InsertAll(table, Above(txs, stop)), h[i])
    {
      assert Above(txs, stop)[top - 1 - i] == h[i];
    }
  }

  lemma CoveredJoins<V>(h: seq<Tx<V>>, table: Table<V>, lo: int, mid: int, hi: int)
    requires Covered(h, table, lo, mid) && Covered(h, table, mid, hi)
    ensures Covered(h, table, lo, hi)
  {
  }

  /** One non-empty page extends the sweep down to its last transaction or to the stop signature. */
  lemma PageSweeps<V>(h: seq<Tx<V>>, table: Table<V>, c: Option<Cursor>, r: Run, txs: seq<Tx<V>>)
    requires Unique(h) && Sound(h, table) && RunSafe(h, table, c, r) && !r.complete && !r.hitKnownTop
    requires Legal(h, r.oldestSig, Page(txs)) && txs != []
    ensures RunSafe(h, InsertAll(table, Above(txs, r.untilSig)), c, PageStep(r, Page(txs)))
  {
    hide InsertAll, Above, RowCount, Pos, Sound, StartRun, Legal, Covered;
    var top := Ceiling(h, r.oldestSig);
    var t := InsertAll(table, Above(txs, r.untilSig));
    PageIsSlice(h, r.oldestSig, txs);
    PageInHistory(h, r.oldestSig, txs, r.untilSig);
    PageStores(h, table, r.oldestSig, txs, r.untilSig);
    var lo := top - |Above(txs, r.untilSig)|;
    if r.newestSig.Some? {
      var hi := Pos(h, r.newestSig.value) + 1;
      CoveredExtends(h, table, t, Pos(h, r.oldestSig.value), hi);
      CoveredJoins(h, t, lo, top, hi);
    }
  }

  lemma AnswerKeepsInv<V>(w: World<V>, reply: Reply<V>)
    requires Inv(w) && w.run.Some? && Legal(w.history, w.run.value.oldestSig, reply)
    requires var r := w.run.value; !r.failed && !r.complete && !r.hitKnownTop
    ensures Inv(w.(run := Some(PageStep(w.run.value, reply)), table := InsertAll(w.table, Handed(w.run.value, reply))))
  {
    hide InsertAll, Above, RowCount, Pos, Sound, Stored;
    var h, r := w.history, w.run.value;
    if reply.Failed? || reply.txs == [] {
      InsertNone(w.table);
      if reply.Page? { AboveIsPrefix(reply.txs, r.untilSig, 0); }
    } else {
      hide RunSafe, Legal, PageStep;
      PageStores(h, w.table, r.oldestSig, reply.txs, r.untilSig);
      PageSweeps(h, w.table, w.cursor, r, reply.txs);
      if w.cursor.Some? { CursorExtends(h, w.table, InsertAll(w.table, Handed(r, reply)), w.cursor.value); }
    }
  }

  lemma CursorExtends<V>(h: seq<Tx<V>>, small: Table<V>, big: Table<V>, c: Cursor)
    requires CursorSafe(h, small, c) && Extends(big, small)
    ensures CursorSafe(h, big, c)
  {
    hide Pos;
  }

  lemma FinishKeepsInv<V>(w: World<V>)
    requires Inv(w) && w.run.Some?
    ensures Inv(w.(cursor := Some(NextCursor(w.cursor, w.run.value)), run := None))
  {
    hide Pos;
  }

  lemma StepKeepsInv<V>(w: World<V>, l: Label<V>, maxPages: nat)
    requires Inv(w)
    ensures Inv(Step(w, l, maxPages))
  {
    hide Inv, Legal;
    if Enabled(w, l, maxPages) {
      match l
      case Grow(tx) => GrowKeepsInv(w, tx);
      case Start => StartKeepsInv(w);
      case Answer(reply) => AnswerKeepsInv(w, reply);
      case Finish => FinishKeepsInv(w);
      case Crash => CrashKeepsInv(w);
    }
  }

  lemma CrashKeepsInv<V>(w: World<V>)
    requires Inv(w)
    ensures Inv(w.(run := None))
  {
  }

  lemma {:induction false} ExecKeepsInv<V>(w: World<V>, labels: seq<Label<V>>, maxPages: nat)
    requires Inv(w)
    ensures Inv(Exec(w, labels, maxPages))
  {
    if labels != [] {
      var n := |labels| - 1;
      ExecKeepsInv(w, labels[..n], maxPages);
      StepKeepsInv(Exec(w, labels[..n], maxPages), labels[n], maxPages);
    }
  }

  /**
   * No gap is ever left behind: after any schedule from a fresh wallet, a complete cursor with a top
   * means that every transaction at or below that top is stored with its true rows, and the table
   * never holds a row the history does not decode to.
   */
  lemma NoGap<V>(w0: World<V>, labels: seq<Label<V>>, maxPages: nat)
    requires Fresh(w0)
    ensures var w := Exec(w0, labels, maxPages);
            && Sound(w.history, w.table)
            && (w.cursor.Some? && w.cursor.value.complete && w.cursor.value.newestSig.Some? ==>
                  var top := Pos(w.history, w.cursor.value.newestSig.value);
                  top < |w.history| && forall i | 0 <= i <= top :: Stored(w.table, w.history[i]))
  {
    ExecKeepsInv(w0, labels, maxPages);
  }

  /** Once the backfill is complete it stays complete, whatever happens later. */
  lemma {:induction false} CompleteNeverReverts<V>(w: World<V>, labels: seq<Label<V>>, maxPages: nat)
    requires w.cursor.Some? && w.cursor.value.complete
    ensures var w' := Exec(w, labels, maxPages); w'.cursor.Some? && w'.cursor.value.complete
  {
    hide Legal;
    if labels != [] { CompleteNeverReverts(w, labels[..|labels| - 1], maxPages); }
  }

  // ----- a complete cursor, with or without a top

  /** Everything of the first `n` transactions from `s` on is stored. */
  ghost predicate CoveredFrom<V>(h: seq<Tx<V>>, table: Table<V>, s: Option<Sig>, n: nat) {
    s.Some? ==> Covered(h, table, Pos(h, s.value), n)
  }

  ghost predicate RunDescends<V>(h: seq<Tx<V>>, table: Table<V>, r: Run, n: nat) {
    CoveredFrom(h, table, r.oldestSig, n) && (r.complete ==> Covered(h, table, 0, n))
  }

  /** The backfill of the history `h0` that was there at the start, whatever was added to it since. */
  ghost predicate Backfilled<V>(w: World<V>, h0: seq<Tx<V>>) {
    && h0 <= w.history
    && (w.cursor.Some? ==>
          var c := w.cursor.value;
          if c.complete then Covered(w.history, w.table, 0, |h0|)
          else CoveredFrom(w.history, w.table, c.oldestSig, |h0|))
    && (w.run.Some? && !ToppingUp(w.cursor) ==> RunDescends(w.history, w.table, w.run.value, |h0|))
  }

  lemma GrowKeepsCoveredFrom<V>(h: seq<Tx<V>>, table: Table<V>, tx: Tx<V>, s: Option<Sig>, n: nat)
    requires Unique(h) && Pos(h, tx.sig) == |h| && Known(h, s) && n <= |h| && CoveredFrom(h, table, s, n)
    ensures CoveredFrom(h + [tx], table, s, n)
  {
    hide Pos, Covered;
    GrowKeepsKnown(h, tx, s);
    if s.Some? { GrowKeepsCovered(h, table, tx, Pos(h, s.value), n); }
  }

  lemma GrowKeepsBackfilled<V>(w: World<V>, tx: Tx<V>, h0: seq<Tx<V>>)
    requires Inv(w) && Backfilled(w, h0) && Pos(w.history, tx.sig) == |w.history|
    ensures Backfilled(w.(history := w.history + [tx]), h0)
  {
    hide Pos, Covered, Sound, CoveredFrom, StartRun;
    var h := w.history;
    if Covered(h, w.table, 0, |h0|) { GrowKeepsCovered(h, w.table, tx, 0, |h0|); }
    if w.cursor.Some? && !w.cursor.value.complete {
      GrowKeepsCoveredFrom(h, w.table, tx, w.cursor.value.oldestSig, |h0|);
    }
    if w.run.Some? && !ToppingUp(w.cursor) { GrowKeepsCoveredFrom(h, w.table, tx, w.run.value.oldestSig, |h0|); }
  }

  /** A page of a pass that is not a top-up is taken whole, so the sweep goes on without a gap. */
  lemma PageDescends<V>(h: seq<Tx<V>>, table: Table<V>, r: Run, txs: seq<Tx<V>>, n: nat)
    requires Unique(h) && Sound(h, table) && Known(h, r.oldestSig) && r.untilSig.None? && n <= |h|
    requires Legal(h, r.oldestSig, Page(txs)) && !r.complete && RunDescends(h, table, r, n)
    ensures RunDescends(h, InsertAll(table, Above(txs, r.untilSig)), PageStep(r, Page(txs)), n)
  {
    hide InsertAll, RowCount, Pos, Sound, Covered, Above;
    if txs == [] {
      AboveIsPrefix(txs, r.untilSig, 0);
      InsertNone(table);
      NothingBelow(h, table, r.oldestSig, n);
    } else {
      var top := Ceiling(h, r.oldestSig);
      var t := InsertAll(table, Above(txs, r.untilSig));
      AboveShape(txs, r.untilSig);
      PageIsSlice(h, r.oldestSig, txs);
      PageStores(h, table, r.oldestSig, txs, r.untilSig);
      if r.oldestSig.Some? {
        CoveredExtends(h, table, t, top, n);
        CoveredJoins(h, t, top - |txs|, top, n);
      } else {
        CoveredShrinks(h, t, top - |txs|, top, n);
      }
    }
  }

  /** An empty page means that there is nothing below. */
  lemma NothingBelow<V>(h: seq<Tx<V>>, table: Table<V>, s: Option<Sig>, n: nat)
    requires Legal(h, s, Page([])) && n <= |h| && CoveredFrom(h, table, s, n)
    ensures Covered(h, table, 0, n)
  {
  }

  lemma CoveredShrinks<V>(h: seq<Tx<V>>, table: Table<V>, lo: int, hi: int, n: int)
    requires Covered(h, table, lo, hi) && n <= hi
    ensures Covered(h, table, lo, n)
  {
  }

  lemma BackfilledExtends<V>(w: World<V>, t: Table<V>, h0: seq<Tx<V>>)
    requires Backfilled(w, h0) && Extends(t, w.table)
    ensures Backfilled(w.(table := t), h0)
  {
    hide Pos, Covered, Extends;
    forall lo: int | Covered(w.history, w.table, lo, |h0|) ensures Covered(w.history, t, lo, |h0|) {
      CoveredExtends(w.history, w.table, t, lo, |h0|);
    }
  }

  lemma AnswerKeepsBackfilled<V>(w: World<V>, reply: Reply<V>, h0: seq<Tx<V>>)
    requires Inv(w) && Backfilled(w, h0) && w.run.Some? && Legal(w.history, w.run.value.oldestSig, reply)
    requires var r := w.run.value; !r.failed && !r.complete && !r.hitKnownTop
    ensures var r := w.run.value;
            Backfilled(w.(run := Some(PageStep(r, reply)), table := InsertAll(w.table, Handed(r, reply))), h0)
  {
    hide InsertAll, Above, RowCount, Pos, Sound, Covered, Legal, Extends, CoveredFrom, PageStep, Handed;
    var r := w.run.value;
    HandedExtends(w, reply);
    BackfilledExtends(w, InsertAll(w.table, Handed(r, reply)), h0);
    if !ToppingUp(w.cursor) {
      match reply
      case Failed => FailedDescends(w, h0);
      case Page(txs) =>
        PageDescends(w.history, w.table, r, txs, |h0|);
        assert Handed(r, reply) == Above(txs, r.untilSig) by { HandedPage(r, txs); }
    }
  }

  lemma HandedPage<V>(r: Run, txs: seq<Tx<V>>)
    ensures Handed(r, Page(txs)) == Above(txs, r.untilSig)
  {
  }

  lemma FailedDescends<V>(w: World<V>, h0: seq<Tx<V>>)
    requires w.run.Some? && RunDescends(w.history, w.table, w.run.value, |h0|)
    ensures var r, f := w.run.value, Reply<V>.Failed;
            RunDescends(w.history, InsertAll(w.table, Handed(r, f)), PageStep(r, f), |h0|)
  {
    InsertNone(w.table);
  }

  lemma HandedExtends<V>(w: World<V>, reply: Reply<V>)
    requires Inv(w) && w.run.Some? && Legal(w.history, w.run.value.oldestSig, reply)
    ensures Extends(InsertAll(w.table, Handed(w.run.value, reply)), w.table)
  {
    hide InsertAll, Above, Pos, Sound, Legal, RunSafe, CursorSafe;
    InsertNone(w.table);
    if reply.Page? {
      if reply.txs == [] {
        AboveIsPrefix(reply.txs, w.run.value.untilSig, 0);
      } else {
        PageStores(w.history, w.table, w.run.value.oldestSig, reply.txs, w.run.value.untilSig);
      }
    }
  }

  lemma StepKeepsBackfilled<V>(w: World<V>, l: Label<V>, maxPages: nat, h0: seq<Tx<V>>)
    requires Inv(w) && Backfilled(w, h0)
    ensures Backfilled(Step(w, l, maxPages), h0)
  {
    hide Legal, Covered, Pos, Sound, PageStep, InsertAll;
    if Enabled(w, l, maxPages) {
      match l
      case Grow(tx) => GrowKeepsBackfilled(w, tx, h0);
      case Start =>
      case Answer(reply) => AnswerKeepsBackfilled(w, reply, h0);
      case Finish =>
      case Crash =>
    }
  }

  lemma {:induction false} ExecKeepsBackfilled<V>(w0: World<V>, labels: seq<Label<V>>, maxPages: nat)
    requires Fresh(w0)
    ensures var w := Exec(w0, labels, maxPages); Inv(w) && Backfilled(w, w0.history)
  {
    hide Step;
    if labels != [] {
      var n := |labels| - 1;
      ExecKeepsBackfilled(w0, labels[..n], maxPages);
      StepKeepsInv(Exec(w0, labels[..n], maxPages), labels[n], maxPages);
      StepKeepsBackfilled(Exec(w0, labels[..n], maxPages), labels[n], maxPages, w0.history);
    }
  }

  /**
   * The `complete` flag alone is enough to read the table: once it is set, with or without a known top,
   * every transaction of the history from before the first pass is stored.
   */
  lemma CompleteMeansWhole<V>(w0: World<V>, labels: seq<Label<V>>, maxPages: nat)
    requires Fresh(w0)
    ensures var w := Exec(w0, labels, maxPages);
            w.cursor.Some? && w.cursor.value.complete ==> forall tx | tx in w0.history :: Stored(w.table, tx)
  {
    hide Exec, Inv, Stored;
    ExecKeepsBackfilled(w0, labels, maxPages);
  }
}
