/**
 * The passes of the ingest in terms of the stored cursor alone: where each kind of pass starts and stops,
 * what it hands over, when one is possible within the page limit, and the cursor it leaves.
 */
module IngestPasses {
  import opened Options
  import opened Ingest
  import opened IngestProtocol
  import opened IngestConvergence

  /** What a clean pass comes to. */
  ghost predicate PassIs<V>(w: World<V>, replies: seq<Reply<V>>, maxPages: nat, lo: nat, hi: nat, next: Cursor)
    requires lo <= hi <= |w.history|
  {
    var handed := NewestFirst(w.history, lo, hi);
    && PageLoop(StartRun(w.cursor), replies, maxPages).1 == handed
    && Pass(w, replies, maxPages) == World(w.history, InsertAll(w.table, handed), Some(next), None)
  }

  lemma CleanEnds<V>(w: World<V>, replies: seq<Reply<V>>, maxPages: nat)
    requires Clean(w, replies, maxPages)
    ensures var (end, handed) := PageLoop(StartRun(w.cursor), replies, maxPages);
            Pass(w, replies, maxPages)
            == World(w.history, InsertAll(w.table, handed), Some(NextCursor(w.cursor, end)), None)
    ensures !Stopped(StartRun(w.cursor), maxPages)
  {
    hide PageStep, Legal, InsertAll, Handed, StartRun, NextCursor, PageLoop;
    LoopIsSteps(Step(w, Start, maxPages), replies, maxPages);
    if Stopped(StartRun(w.cursor), maxPages) {
      LoopEnds(StartRun(w.cursor), replies, maxPages);
      StartsOpen(w.cursor);
    }
  }

  lemma StartsOpen(c: Option<Cursor>)
    ensures var r := StartRun(c); !r.failed && !r.complete && !r.hitKnownTop
  {
  }

  /** The run at the end of a clean pass is safe. */
  lemma EndIsSafe<V>(w: World<V>, replies: seq<Reply<V>>, maxPages: nat)
    requires Inv(w) && Clean(w, replies, maxPages)
    ensures var (end, handed) := PageLoop(StartRun(w.cursor), replies, maxPages);
            RunSafe(w.history, InsertAll(w.table, handed), w.cursor, end)
  {
    hide PageStep, Legal, InsertAll, Handed, PageLoop, RunSafe, CursorSafe;
    var w1 := Step(w, Start, maxPages);
    StepKeepsInv(w, Start, maxPages);
    RepliesKeep(w1, replies, maxPages);
    LoopIsSteps(w1, replies, maxPages);
  }

  /**
   * A top-up stops at the known top: with a complete cursor whose top is `s`, a clean pass hands over
   * exactly what is newer than `s` and moves the top, and only the top, to the newest transaction.
   */
  lemma TopUpPass<V>(w: World<V>, s: Sig, replies: seq<Reply<V>>, maxPages: nat)
    requires Inv(w) && w.cursor.Some? && w.cursor.value.complete && w.cursor.value.newestSig == Some(s)
    requires Clean(w, replies, maxPages)
    ensures Pos(w.history, s) < |w.history|
    ensures PageLoop(StartRun(w.cursor), replies, maxPages).0.hitKnownTop
    ensures var n := |w.history|;
            PassIs(w, replies, maxPages, Pos(w.history, s) + 1, n,
                   Cursor(Some(w.history[n - 1].sig), w.cursor.value.oldestSig, true))
  {
    hide Clean, PageLoop, Pass, InsertAll, NewestFirst, Pos, Inv, StartRun, NextCursor, PassIs;
    TopIsKnown(w, s);
    FromTopUp(w, s, replies, maxPages);
    TopUpCursor(w, replies, maxPages);
    CleanEnds(w, replies, maxPages);
    ShowPass(w, replies, maxPages, Pos(w.history, s) + 1, |w.history|,
             Cursor(Some(w.history[|w.history| - 1].sig), w.cursor.value.oldestSig, true));
  }

  lemma ShowPass<V>(w: World<V>, replies: seq<Reply<V>>, maxPages: nat, lo: nat, hi: nat, next: Cursor)
    requires lo <= hi <= |w.history|
    requires var (end, handed) := PageLoop(StartRun(w.cursor), replies, maxPages);
             && handed == NewestFirst(w.history, lo, hi) && NextCursor(w.cursor, end) == next
             && Pass(w, replies, maxPages)
                == World(w.history, InsertAll(w.table, handed), Some(NextCursor(w.cursor, end)), None)
    ensures PassIs(w, replies, maxPages, lo, hi, next)
  {
    hide PageLoop, Pass, InsertAll, NewestFirst, StartRun, NextCursor;
  }

  lemma TopUpCursor<V>(w: World<V>, replies: seq<Reply<V>>, maxPages: nat)
    requires Inv(w) && w.cursor.Some? && w.cursor.value.complete && w.history != [] && Clean(w, replies, maxPages)
    ensures NextCursor(w.cursor, PageLoop(StartRun(w.cursor), replies, maxPages).0)
            == Cursor(Some(w.history[|w.history| - 1].sig), w.cursor.value.oldestSig, true)
  {
    TopUpKeepsOldest(w.cursor.value, PageLoop(StartRun(w.cursor), replies, maxPages).0);
    hide Clean, PageLoop, Pass, InsertAll, Inv, StartRun, AllRows, NextCursor;
    CleanEnds(w, replies, maxPages);
    CleanPass(w, replies, maxPages);
  }

  lemma TopUpKeepsOldest(c: Cursor, r: Run)
    requires c.complete
    ensures NextCursor(Some(c), r).oldestSig == c.oldestSig && NextCursor(Some(c), r).complete
  {
  }

  lemma TopIsKnown<V>(w: World<V>, s: Sig)
    requires Inv(w) && w.cursor.Some? && w.cursor.value.complete && w.cursor.value.newestSig == Some(s)
    ensures Pos(w.history, s) < |w.history|
    ensures var r := StartRun(w.cursor); r.untilSig == Some(s) && r.oldestSig == None
  {
  }

  lemma InvIsUnique<V>(w: World<V>)
    requires Inv(w)
    ensures Unique(w.history)
  {
  }

  lemma FromTopUp<V>(w: World<V>, s: Sig, replies: seq<Reply<V>>, maxPages: nat)
    requires Inv(w) && Clean(w, replies, maxPages) && Pos(w.history, s) < |w.history|
    requires var r := StartRun(w.cursor); r.untilSig == Some(s) && r.oldestSig == None
    ensures var (end, handed) := PageLoop(StartRun(w.cursor), replies, maxPages);
            end.hitKnownTop && handed == NewestFirst(w.history, Pos(w.history, s) + 1, |w.history|)
  {
    hide PageLoop, StartRun, LegalFrom, InsertAll, Pass, Inv, Stopped, NextCursor, Pos, NewestFirst;
    InvIsUnique(w);
    CleanEnds(w, replies, maxPages);
    RunToTop(w.history, StartRun(w.cursor), s, replies, maxPages);
  }

  /** A clean run from the newest transaction with a stop signature in the history. */
  lemma RunToTop<V>(h: seq<Tx<V>>, r: Run, s: Sig, replies: seq<Reply<V>>, maxPages: nat)
    requires Unique(h) && LegalFrom(h, r, replies, maxPages) && !Stopped(r, maxPages)
    requires r.untilSig == Some(s) && r.oldestSig == None && Pos(h, s) < |h|
    requires var end := PageLoop(r, replies, maxPages).0; end.complete || end.hitKnownTop
    ensures var (end, handed) := PageLoop(r, replies, maxPages);
            end.hitKnownTop && handed == NewestFirst(h, Pos(h, s) + 1, |h|)
  {
    hide PageLoop, NewestFirst, Pos, LegalFrom, Stopped, Unique;
    PageCutIndependence(h, r, replies, maxPages);
  }

  /** A top-up is possible exactly when the pages reach the known top. */
  lemma TopUpExists<V>(w: World<V>, s: Sig, maxPages: nat)
    requires Inv(w) && w.run.None? && w.cursor.Some? && w.cursor.value.complete && w.cursor.value.newestSig == Some(s)
    ensures (exists replies :: Clean(w, replies, maxPages)) <==> |w.history| - Pos(w.history, s) <= PAGE_SIZE * maxPages
  {
    CleanPassExists(w, maxPages);
    hide Clean, Pos, Sound, Covered;
  }

  /**
   * A resume continues below the oldest stored transaction `o`: a clean pass hands over exactly what is
   * older, down to genesis, completes the cursor and leaves its top alone.
   */
  lemma ResumePass<V>(w: World<V>, o: Sig, replies: seq<Reply<V>>, maxPages: nat)
    requires Inv(w) && w.cursor.Some? && !w.cursor.value.complete && w.cursor.value.oldestSig == Some(o)
    requires Clean(w, replies, maxPages)
    ensures Pos(w.history, o) < |w.history|
    ensures PassIs(w, replies, maxPages, 0, Pos(w.history, o),
                   Cursor(w.cursor.value.newestSig, Some(w.history[0].sig), true))
  {
    CleanEnds(w, replies, maxPages);
    EndIsSafe(w, replies, maxPages);
    OldestStays(w.history, StartRun(w.cursor), replies, maxPages);
    PageCutIndependence(w.history, StartRun(w.cursor), replies, maxPages);
    hide PageLoop, Pass, InsertAll, NewestFirst, Clean, Sound, Covered, Swept;
  }

  lemma ResumeExists<V>(w: World<V>, o: Sig, maxPages: nat)
    requires Inv(w) && w.run.None? && w.cursor.Some? && !w.cursor.value.complete && w.cursor.value.oldestSig == Some(o)
    ensures (exists replies :: Clean(w, replies, maxPages)) <==> Pos(w.history, o) <= PAGE_SIZE * (maxPages - 1)
  {
    CleanPassExists(w, maxPages);
    hide Clean, Pos, Sound, Covered;
  }

  lemma {:induction false} OldestStays<V>(h: seq<Tx<V>>, r: Run, replies: seq<Reply<V>>, maxPages: nat)
    ensures r.oldestSig.Some? ==> PageLoop(r, replies, maxPages).0.oldestSig.Some?
    decreases |replies|
  {
    hide Above, RowCount;
    if !Stopped(r, maxPages) && replies != [] { OldestStays(h, PageStep(r, replies[0]), replies[1..], maxPages); }
  }

  /**
   * Without a stored position there is nothing to stop at or start below: a clean pass of a new wallet
   * hands over the whole history and leaves its newest and oldest transaction in the cursor.
   */
  lemma FirstPass<V>(w: World<V>, replies: seq<Reply<V>>, maxPages: nat)
    requires Inv(w) && w.cursor.None? && Clean(w, replies, maxPages)
    ensures var n := |w.history|;
            PassIs(w, replies, maxPages, 0, n,
                   if n == 0 then Cursor(None, None, true)
                   else Cursor(Some(w.history[n - 1].sig), Some(w.history[0].sig), true))
  {
    CleanEnds(w, replies, maxPages);
    EndIsSafe(w, replies, maxPages);
    CleanPass(w, replies, maxPages);
    PageCutIndependence(w.history, StartRun(w.cursor), replies, maxPages);
    EmptyRun(w.history, StartRun(w.cursor), replies, maxPages);
    hide PageLoop, Pass, InsertAll, NewestFirst, Clean, Sound, Covered;
  }

  /** On an empty history nothing is ever seen; on any other, a clean run from the top has seen something. */
  lemma {:induction false} EmptyRun<V>(h: seq<Tx<V>>, r: Run, replies: seq<Reply<V>>, maxPages: nat)
    requires Unique(h) && LegalFrom(h, r, replies, maxPages) && r.oldestSig == None && r.newestSig == None
    requires !r.complete && !r.hitKnownTop
    ensures var end := PageLoop(r, replies, maxPages).0;
            && (h == [] ==> end.newestSig == None && end.oldestSig == None)
            && (h != [] && end.complete ==> end.newestSig.Some? && end.oldestSig.Some?)
    decreases |replies|
  {
    hide Above, RowCount;
    if !Stopped(r, maxPages) && replies != [] {
      if replies[0].Page? && replies[0].txs != [] {
        SeenStays(PageStep(r, replies[0]), replies[1..], maxPages);
      }
    }
  }

  lemma {:induction false} SeenStays<V>(r: Run, replies: seq<Reply<V>>, maxPages: nat)
    requires r.newestSig.Some? && r.oldestSig.Some?
    ensures var end := PageLoop(r, replies, maxPages).0; end.newestSig.Some? && end.oldestSig.Some?
    decreases |replies|
  {
    hide Above, RowCount;
    if !Stopped(r, maxPages) && replies != [] { SeenStays(PageStep(r, replies[0]), replies[1..], maxPages); }
  }

  /** A pass that neither reaches genesis nor the known top leaves a complete cursor as it is. */
  lemma FailedTopUpKeepsCursor(c: Cursor, r: Run)
    requires c.complete && !r.complete && !r.hitKnownTop
    ensures NextCursor(Some(c), r) == c
  {
  }

  /** And one that resumes keeps the top, stays incomplete, and only moves its oldest transaction. */
  lemma FailedResumeKeepsTop(c: Cursor, r: Run)
    requires !c.complete && !r.complete
    ensures NextCursor(Some(c), r)
            == Cursor(c.newestSig, if r.oldestSig.Some? then r.oldestSig else c.oldestSig, false)
  {
  }

  // ----- the number a pass reports

  /** A pass reports as many rows as it handed over, which in an empty table are as many entries. */
  lemma {:induction false} AddedCountsRows<V>(r: Run, replies: seq<Reply<V>>, maxPages: nat)
    ensures var (end, handed) := PageLoop(r, replies, maxPages); end.added == r.added + RowCount(handed)
    decreases |replies|
  {
    hide Above;
    if !Stopped(r, maxPages) && replies != [] {
      AddedCountsRows(PageStep(r, replies[0]), replies[1..], maxPages);
      CountAppends(Handed(r, replies[0]), PageLoop(PageStep(r, replies[0]), replies[1..], maxPages).1);
      if replies[0].Page? && replies[0].txs == [] { AboveIsPrefix(replies[0].txs, r.untilSig, 0); }
    }
  }

  lemma {:induction false} CountAppends<V>(xs: seq<Tx<V>>, ys: seq<Tx<V>>)
    ensures RowCount(xs + ys) == RowCount(xs) + RowCount(ys)
  {
    if ys == [] {
      assert xs + ys == xs;
    } else {
      CountAppends(xs, ys[..|ys| - 1]);
      assert (xs + ys)[..|xs + ys| - 1] == xs + ys[..|ys| - 1];
    }
  }

  ghost function SigsIn<V>(txs: seq<Tx<V>>): set<Sig> { set i | 0 <= i < |txs| :: txs[i].sig }

  lemma {:induction false} KeysAreSigs<V>(txs: seq<Tx<V>>)
    ensures forall k | k in InsertAll<V>(map[], txs) :: k.0 in SigsIn(txs)
  {
    if txs != [] {
      var n := |txs| - 1;
      KeysAreSigs(txs[..n]);
      assert forall i | 0 <= i < n :: txs[..n][i] == txs[i];
      assert SigsIn(txs) == SigsIn(txs[..n]) + {txs[n].sig};
    }
  }

  /** With distinct signatures the rows are the entries that an empty table gets. */
  lemma {:induction false} RowsAreEntries<V>(txs: seq<Tx<V>>)
    requires Unique(txs)
    ensures |InsertAll(map[], txs)| == RowCount(txs)
  {
    hide Insert;
    if txs != [] {
      var n := |txs| - 1;
      RowsAreEntries(txs[..n]);
      KeysAreSigs(txs[..n]);
      assert txs[n].sig !in SigsIn(txs[..n]);
      EntriesOf(InsertAll(map[], txs[..n]), txs[n]);
    }
  }

  function Keyed(sig: Sig, ms: set<string>): set<(Sig, string)> { set m | m in ms :: (sig, m) }

  lemma InsertKeys<V>(before: Table<V>, tx: Tx<V>)
    ensures Insert(before, tx).Keys == Keyed(tx.sig, tx.rows.Keys) + before.Keys
  {
  }

  lemma EntriesOf<V>(before: Table<V>, tx: Tx<V>)
    requires forall k | k in before :: k.0 != tx.sig
    ensures |Insert(before, tx)| == |before| + |tx.rows|
  {
    var keys := Keyed(tx.sig, tx.rows.Keys);
    InsertKeys(before, tx);
    KeysOf(tx.sig, tx.rows.Keys);
    assert keys !! before.Keys;
    hide Insert, Keyed;
    assert |Insert(before, tx).Keys| == |keys| + |before.Keys|;
  }

  lemma {:induction false} KeysOf(sig: Sig, ms: set<string>)
    ensures |Keyed(sig, ms)| == |ms|
  {
    if m :| m in ms {
      KeysOf(sig, ms - {m});
      assert Keyed(sig, ms) == Keyed(sig, ms - {m}) + {(sig, m)};
    } else {
      assert Keyed(sig, ms) == {};
    }
  }
}
