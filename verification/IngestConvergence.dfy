/** What failure-free passes reach on a history that has stopped growing, and how pages may be cut. */
module IngestConvergence {
  import opened Options
  import opened Ingest
  import opened IngestProtocol

  // ----- a whole pass of the protocol

  /** The world once a list of replies has been consumed by the running pass. */
  ghost function AfterReplies<V>(w: World<V>, replies: seq<Reply<V>>, maxPages: nat): World<V>
    decreases |replies|
  {
    if replies == [] then w
    else AfterReplies(Step(w, Answer(replies[0]), maxPages), replies[1..], maxPages)
  }

  ghost function Pass<V>(w: World<V>, replies: seq<Reply<V>>, maxPages: nat): World<V> {
    Step(AfterReplies(Step(w, Start, maxPages), replies, maxPages), Finish, maxPages)
  }

  /** Every reply is one the server may give when it is asked. */
  ghost predicate LegalFrom<V>(h: seq<Tx<V>>, r: Run, replies: seq<Reply<V>>, maxPages: nat)
    decreases |replies|
  {
    replies == [] || Stopped(r, maxPages) ||
    (Legal(h, r.oldestSig, replies[0]) && LegalFrom(h, PageStep(r, replies[0]), replies[1..], maxPages))
  }

  ghost predicate NoFailure<V>(replies: seq<Reply<V>>) {
    forall i | 0 <= i < |replies| :: replies[i].Page?
  }

  /** A pass that starts now and ends at genesis or at the known top. */
  ghost predicate Clean<V>(w: World<V>, replies: seq<Reply<V>>, maxPages: nat) {
    && w.run.None?
    && LegalFrom(w.history, StartRun(w.cursor), replies, maxPages)
    && var end := PageLoop(StartRun(w.cursor), replies, maxPages).0;
       end.complete || end.hitKnownTop
  }

  function Answers<V>(replies: seq<Reply<V>>): seq<Label<V>> {
    seq(|replies|, i requires 0 <= i < |replies| => Answer(replies[i]))
  }

  lemma {:induction false} ExecFirst<V>(w: World<V>, l: Label<V>, labels: seq<Label<V>>, maxPages: nat)
    ensures Exec(w, [l] + labels, maxPages) == Exec(Step(w, l, maxPages), labels, maxPages)
  {
    hide Step;
    if labels == [] {
      assert ([l] + labels)[..0] == [] && ([l] + labels)[0] == l;
    } else {
      var n := |labels| - 1;
      ExecFirst(w, l, labels[..n], maxPages);
      assert ([l] + labels)[..n + 1] == [l] + labels[..n];
    }
  }

  lemma {:induction false} RepliesAreSteps<V>(w: World<V>, replies: seq<Reply<V>>, maxPages: nat)
    ensures AfterReplies(w, replies, maxPages) == Exec(w, Answers(replies), maxPages)
    decreases |replies|
  {
    hide Step;
    if replies != [] {
      RepliesAreSteps(Step(w, Answer(replies[0]), maxPages), replies[1..], maxPages);
      ExecFirst(w, Answer(replies[0]), Answers(replies[1..]), maxPages);
      assert Answers(replies) == [Answer(replies[0])] + Answers(replies[1..]);
    }
  }

  /** A pass is a schedule of the state machine. */
  lemma PassIsSchedule<V>(w: World<V>, replies: seq<Reply<V>>, maxPages: nat)
    ensures Pass(w, replies, maxPages) == Exec(w, [Start] + Answers(replies) + [Finish], maxPages)
  {
    hide Step;
    RepliesAreSteps(Step(w, Start, maxPages), replies, maxPages);
    ExecFirst(w, Start, Answers(replies), maxPages);
    var labels := [Start] + Answers(replies) + [Finish];
    assert labels[..|labels| - 1] == [Start] + Answers(replies);
  }

  /** The paging loop of the code takes the steps of the machine, whatever the replies. */
  lemma {:induction false} LoopIsSteps<V>(w: World<V>, replies: seq<Reply<V>>, maxPages: nat)
    requires w.run.Some? && LegalFrom(w.history, w.run.value, replies, maxPages)
    ensures var (end, handed) := PageLoop(w.run.value, replies, maxPages);
            AfterReplies(w, replies, maxPages) == w.(run := Some(end), table := InsertAll(w.table, handed))
    decreases |replies|
  {
    hide PageStep, Legal, InsertAll, Handed;
    InsertNone(w.table);
    if replies != [] {
      var r := w.run.value;
      if Stopped(r, maxPages) {
        StoppedStays(w, replies, maxPages);
      } else {
        var w' := Step(w, Answer(replies[0]), maxPages);
        LoopIsSteps(w', replies[1..], maxPages);
        InsertAllAppends(w.table, Handed(r, replies[0]), PageLoop(PageStep(r, replies[0]), replies[1..], maxPages).1);
      }
    }
  }

  lemma {:induction false} StoppedStays<V>(w: World<V>, replies: seq<Reply<V>>, maxPages: nat)
    requires w.run.Some? && Stopped(w.run.value, maxPages)
    ensures AfterReplies(w, replies, maxPages) == w
    decreases |replies|
  {
    hide Legal;
    if replies != [] { StoppedStays(w, replies[1..], maxPages); }
  }

  /** `FlowIngest.IngestOnce` computes exactly a pass of the machine: same table, same cursor. */
  lemma IngestOnceIsPass<V>(w: World<V>, replies: seq<Reply<V>>, maxPages: nat)
    requires w.run.None? && LegalFrom(w.history, StartRun(w.cursor), replies, maxPages) && |replies| >= maxPages
    ensures var (end, handed) := PageLoop(StartRun(w.cursor), replies, maxPages);
            Pass(w, replies, maxPages)
            == World(w.history, InsertAll(w.table, handed), Some(NextCursor(w.cursor, end)), None)
  {
    hide PageStep, Legal, InsertAll, Handed, StartRun, NextCursor;
    LoopIsSteps(Step(w, Start, maxPages), replies, maxPages);
    LoopStops(StartRun(w.cursor), replies, maxPages);
    assert StartRun(w.cursor).page == 0 by { StartsAtZero(w.cursor); }
  }

  lemma StartsAtZero(c: Option<Cursor>)
    ensures StartRun(c).page == 0
  {
  }

  lemma {:induction false} LoopStops<V>(r: Run, replies: seq<Reply<V>>, maxPages: nat)
    requires |replies| + r.page >= maxPages
    ensures Stopped(PageLoop(r, replies, maxPages).0, maxPages)
    decreases |replies|
  {
    hide RowCount, Above;
    if !Stopped(r, maxPages) && replies != [] {
      if !Stopped(PageStep(r, replies[0]), maxPages) {
        LoopStops(PageStep(r, replies[0]), replies[1..], maxPages);
      }
    }
  }

  // ----- page cuts do not matter

  /** Entries lo..hi of the history, newest first. */
  function NewestFirst<V>(h: seq<Tx<V>>, lo: nat, hi: nat): (r: seq<Tx<V>>)
    requires lo <= hi <= |h|
    ensures |r| == hi - lo
  {
    seq(hi - lo, j requires 0 <= j < hi - lo => h[hi - 1 - j])
  }

  /** Where a pass has to stop: right above the stop signature if it lies below, else at genesis. */
  ghost function Floor<V>(h: seq<Tx<V>>, stop: Option<Sig>, hi: nat): (lo: nat)
    ensures lo <= hi
  {
    if stop.Some? && Pos(h, stop.value) < hi then Pos(h, stop.value) + 1 else 0
  }

  /**
   * Page-cut independence: a pass that ends cleanly hands over exactly the slice between where it
   * started and its stop signature or genesis, newest first, however the server cut it into pages;
   * and it reports the known top exactly when the stop signature lies in the paged range.
   */
  lemma {:induction false} PageCutIndependence<V>(h: seq<Tx<V>>, r: Run, replies: seq<Reply<V>>, maxPages: nat)
    requires Unique(h) && Known(h, r.oldestSig) && LegalFrom(h, r, replies, maxPages) && !Stopped(r, maxPages)
    requires var end := PageLoop(r, replies, maxPages).0; end.complete || end.hitKnownTop
    ensures var hi := Ceiling(h, r.oldestSig);
            var (end, handed) := PageLoop(r, replies, maxPages);
            && handed == NewestFirst(h, Floor(h, r.untilSig, hi), hi)
            && (end.hitKnownTop <==> r.untilSig.Some? && Pos(h, r.untilSig.value) < hi)
    decreases |replies|
  {
    hide Pos, Above, PageStep, Legal, RowCount, PageLoop, NewestFirst, Floor, Handed, Ceiling;
    if replies == [] { LoopEnds(r, replies, maxPages); }
    var hi := Ceiling(h, r.oldestSig);
    var reply := replies[0];
    var r' := PageStep(r, reply);
    PageOutcome(h, r, reply, maxPages);
    LoopUnfolds(r, replies, maxPages);
    if Stopped(r', maxPages) {
      LoopEnds(r', replies[1..], maxPages);
      assert Handed(r, reply) + [] == Handed(r, reply);
    } else {
      LegalContinues(h, r, replies, maxPages);
      PageCutIndependence(h, r', replies[1..], maxPages);
      SliceJoins(h, Floor(h, r.untilSig, hi), hi - |reply.txs|, hi);
    }
  }

  lemma LegalContinues<V>(h: seq<Tx<V>>, r: Run, replies: seq<Reply<V>>, maxPages: nat)
    requires LegalFrom(h, r, replies, maxPages) && replies != [] && !Stopped(r, maxPages)
    ensures LegalFrom(h, PageStep(r, replies[0]), replies[1..], maxPages)
  {
    hide PageStep, Legal;
  }

  lemma SliceJoins<V>(h: seq<Tx<V>>, lo: nat, mid: nat, hi: nat)
    requires lo <= mid <= hi <= |h|
    ensures NewestFirst(h, mid, hi) + NewestFirst(h, lo, mid) == NewestFirst(h, lo, hi)
  {
  }

  /** One reply against the slice that is still to come. */
  lemma PageOutcome<V>(h: seq<Tx<V>>, r: Run, reply: Reply<V>, maxPages: nat)
    requires Unique(h) && Known(h, r.oldestSig) && !Stopped(r, maxPages) && Legal(h, r.oldestSig, reply)
    ensures var hi := Ceiling(h, r.oldestSig);
            var r' := PageStep(r, reply);
            && r'.untilSig == r.untilSig && Known(h, r'.oldestSig)
            && (reply.Failed? ==> Handed(r, reply) == [] && r'.failed && !r'.complete && !r'.hitKnownTop)
            && (reply.Page? && reply.txs == [] ==>
                  hi == 0 && Handed(r, reply) == [] && r'.complete && !r'.hitKnownTop)
            && (reply.Page? && reply.txs != [] ==>
                  var k := |Above(reply.txs, r.untilSig)|;
                  && k <= |reply.txs| <= hi && !r'.complete && r'.hitKnownTop == (k < |reply.txs|)
                  && Ceiling(h, r'.oldestSig) == hi - |reply.txs|
                  && Handed(r, reply) == NewestFirst(h, hi - k, hi)
                  && (k < |reply.txs| ==>
                        Floor(h, r.untilSig, hi) == hi - k && r.untilSig.Some? && Pos(h, r.untilSig.value) < hi)
                  && (k == |reply.txs| ==>
                        && Floor(h, r.untilSig, hi) == Floor(h, r.untilSig, hi - k)
                        && (r.untilSig.Some? ==>
                              (Pos(h, r.untilSig.value) < hi <==> Pos(h, r.untilSig.value) < hi - k))))
  {
    hide Above, RowCount, Pos;
    if reply.Page? {
      if reply.txs == [] {
        AboveIsPrefix(reply.txs, r.untilSig, 0);
      } else {
        PageIsSlice(h, r.oldestSig, reply.txs);
        PageInHistory(h, r.oldestSig, reply.txs, r.untilSig);
        if r.untilSig.Some? && |Above(reply.txs, r.untilSig)| == |reply.txs| {
          StopOutside(h, r.oldestSig, reply.txs, r.untilSig);
        }
      }
    }
  }

  lemma StopOutside<V>(h: seq<Tx<V>>, before: Option<Sig>, txs: seq<Tx<V>>, stop: Option<Sig>)
    requires Unique(h) && Legal(h, before, Page(txs)) && txs != [] && |Above(txs, stop)| == |txs| && stop.Some?
    ensures var hi := Ceiling(h, before); Pos(h, stop.value) < hi ==> Pos(h, stop.value) < hi - |txs|
  {
    hide Above, Pos;
    PageInHistory(h, before, txs, stop);
    var hi := Ceiling(h, before);
    forall i | hi - |txs| <= i < hi ensures h[i].sig != stop.value {
      assert txs[hi - 1 - i] == h[i];
    }
  }

  // ----- termination of the paging

  /** The server can always answer: a legal, non-failed reply of any size it likes. */
  lemma ServerCanAnswer<V>(h: seq<Tx<V>>, before: Option<Sig>, n: nat)
    requires n <= Ceiling(h, before) && n <= PAGE_SIZE && (n == 0 ==> Ceiling(h, before) == 0)
    ensures Legal(h, before, Page(NewestFirst(h, Ceiling(h, before) - n, Ceiling(h, before))))
  {
  }

  /** With more pages allowed than the history has transactions, a failure-free pass always ends cleanly. */
  lemma {:induction false} FailureFreeIsClean<V>(h: seq<Tx<V>>, r: Run, replies: seq<Reply<V>>, maxPages: nat)
    requires Unique(h) && LegalFrom(h, r, replies, maxPages) && NoFailure(replies)
    requires Known(h, r.oldestSig) && !r.failed && !r.complete && !r.hitKnownTop
    requires r.page + Ceiling(h, r.oldestSig) <= |h| < maxPages && |replies| > Ceiling(h, r.oldestSig)
    ensures var end := PageLoop(r, replies, maxPages).0; end.complete || end.hitKnownTop
    decreases |replies|
  {
    PageOutcome(h, r, replies[0], maxPages);
    hide Pos, Above, Legal, RowCount;
    var r' := PageStep(r, replies[0]);
    if !r'.complete && !r'.hitKnownTop {
      FailureFreeIsClean(h, r', replies[1..], maxPages);
    }
  }

  /** So every failure-free pass with enough replies, from any safe cursor, is clean. */
  lemma FailureFreePass<V>(w: World<V>, replies: seq<Reply<V>>, maxPages: nat)
    requires Inv(w) && w.run.None? && NoFailure(replies)
    requires LegalFrom(w.history, StartRun(w.cursor), replies, maxPages)
    requires |w.history| < maxPages && |w.history| < |replies|
    ensures Clean(w, replies, maxPages)
  {
    hide Pos;
    FailureFreeIsClean(w.history, StartRun(w.cursor), replies, maxPages);
  }

  /** The pages left suffice to reach the stop signature, or genesis and the empty page that tells it. */
  ghost predicate PagesSuffice<V>(h: seq<Tx<V>>, r: Run, maxPages: nat) {
    var hi, pages := Ceiling(h, r.oldestSig), maxPages - r.page;
    if r.untilSig.Some? && Pos(h, r.untilSig.value) < hi then hi - Pos(h, r.untilSig.value) <= PAGE_SIZE * pages
    else hi <= PAGE_SIZE * (pages - 1)
  }

  function FullPage(hi: nat): nat { if hi < PAGE_SIZE then hi else PAGE_SIZE }

  /** A non-empty page reaches the stop signature exactly when that lies in its range. */
  lemma PageHits<V>(h: seq<Tx<V>>, r: Run, txs: seq<Tx<V>>, maxPages: nat)
    requires Unique(h) && Known(h, r.oldestSig) && !Stopped(r, maxPages)
    requires Legal(h, r.oldestSig, Page(txs)) && txs != []
    ensures var hi := Ceiling(h, r.oldestSig);
            |txs| <= hi
            && (PageStep(r, Page(txs)).hitKnownTop
                <==> r.untilSig.Some? && hi - |txs| <= Pos(h, r.untilSig.value) < hi)
  {
    hide Above, RowCount, Pos, Unique, Legal, Ceiling, Handed, NewestFirst, PageStep, Known, Stopped;
    PageOutcome(h, r, Page(txs), maxPages);
  }

  /** What a non-empty page does to the range that is left. */
  lemma PageShrinks<V>(h: seq<Tx<V>>, r: Run, txs: seq<Tx<V>>, maxPages: nat)
    requires Unique(h) && Known(h, r.oldestSig) && !Stopped(r, maxPages)
    requires Legal(h, r.oldestSig, Page(txs)) && txs != []
    ensures var hi := Ceiling(h, r.oldestSig);
            var r' := PageStep(r, Page(txs));
            && |txs| <= hi && |txs| <= PAGE_SIZE
            && Known(h, r'.oldestSig) && Ceiling(h, r'.oldestSig) == hi - |txs|
            && r'.untilSig == r.untilSig && !r'.failed && !r'.complete
            && r'.page == (if r'.hitKnownTop then r.page else r.page + 1)
            && (r'.hitKnownTop <==> r.untilSig.Some? && hi - |txs| <= Pos(h, r.untilSig.value) < hi)
  {
    FitsAPage(h, r.oldestSig, txs);
    PageCounts(r, txs);
    hide Above, RowCount, Pos, Unique, Legal, Ceiling, Handed, NewestFirst, PageStep, Known, Floor;
    PageHits(h, r, txs, maxPages);
    PageOutcome(h, r, Page(txs), maxPages);
  }

  lemma FitsAPage<V>(h: seq<Tx<V>>, before: Option<Sig>, txs: seq<Tx<V>>)
    requires Legal(h, before, Page(txs))
    ensures |txs| <= PAGE_SIZE
  {
  }

  lemma PageCounts<V>(r: Run, txs: seq<Tx<V>>)
    requires txs != []
    ensures var r' := PageStep(r, Page(txs));
            && r'.failed == r.failed && r'.complete == r.complete
            && r'.page == (if r'.hitKnownTop then r.page else r.page + 1)
  {
    hide Above, RowCount;
  }

  lemma EmptyPage<V>(h: seq<Tx<V>>, r: Run, maxPages: nat)
    requires Legal(h, r.oldestSig, Page([])) && !Stopped(r, maxPages)
    ensures var r' := PageStep(r, Reply<V>.Page([]));
            Ceiling(h, r.oldestSig) == 0 && r'.complete && r'.oldestSig == r.oldestSig
  {
  }

  /** One page ends the pass only where enough pages were left, and needs no more than one page itself. */
  lemma PageNeeds<V>(h: seq<Tx<V>>, r: Run, txs: seq<Tx<V>>, maxPages: nat)
    requires Unique(h) && Known(h, r.oldestSig) && !Stopped(r, maxPages) && Legal(h, r.oldestSig, Page(txs))
    ensures var r' := PageStep(r, Page(txs));
            && Known(h, r'.oldestSig)
            && (r'.complete || r'.hitKnownTop ==> PagesSuffice(h, r, maxPages))
            && (!Stopped(r', maxPages) && PagesSuffice(h, r', maxPages) ==> PagesSuffice(h, r, maxPages))
  {
    hide PageStep, Legal, Pos, Unique, Ceiling;
    if txs == [] { EmptyPage(h, r, maxPages); } else { PageShrinks(h, r, txs, maxPages); }
  }

  /** A full page that does not end the pass leaves enough pages if there were enough. */
  lemma FullPageLeaves<V>(h: seq<Tx<V>>, r: Run, txs: seq<Tx<V>>, maxPages: nat)
    requires Unique(h) && Known(h, r.oldestSig) && !Stopped(r, maxPages) && Legal(h, r.oldestSig, Page(txs))
    requires |txs| == FullPage(Ceiling(h, r.oldestSig)) && PagesSuffice(h, r, maxPages)
    requires var r' := PageStep(r, Page(txs)); !r'.complete && !r'.hitKnownTop
    ensures var r' := PageStep(r, Page(txs));
            Known(h, r'.oldestSig) && !Stopped(r', maxPages) && PagesSuffice(h, r', maxPages)
  {
    hide PageStep, Legal, Pos, Unique, Ceiling;
    if txs == [] { EmptyPage(h, r, maxPages); } else { PageShrinks(h, r, txs, maxPages); }
  }

  /** A pass that ends cleanly had enough pages left. */
  lemma {:induction false} CleanNeedsPages<V>(h: seq<Tx<V>>, r: Run, replies: seq<Reply<V>>, maxPages: nat)
    requires Unique(h) && Known(h, r.oldestSig) && LegalFrom(h, r, replies, maxPages) && !Stopped(r, maxPages)
    requires var end := PageLoop(r, replies, maxPages).0; end.complete || end.hitKnownTop
    ensures PagesSuffice(h, r, maxPages)
    decreases |replies|
  {
    hide PageStep, Legal, PagesSuffice, PageLoop, Handed;
    if replies == [] { LoopEnds(r, replies, maxPages); }
    var r' := PageStep(r, replies[0]);
    LoopUnfolds(r, replies, maxPages);
    if Stopped(r', maxPages) { LoopEnds(r', replies[1..], maxPages); }
    if replies[0].Failed? {
      FailureStops(r, maxPages, replies[0]);
    } else {
      PageNeeds(h, r, replies[0].txs, maxPages);
      if !Stopped(r', maxPages) { CleanNeedsPages(h, r', replies[1..], maxPages); }
    }
  }

  lemma FailureStops<V>(r: Run, maxPages: nat, reply: Reply<V>)
    requires reply.Failed? && !r.complete && !r.hitKnownTop
    ensures var r' := PageStep(r, reply); Stopped(r', maxPages) && !r'.complete && !r'.hitKnownTop
  {
  }

  /** Full pages end cleanly whenever enough pages are left. */
  lemma {:induction false} FullPages<V>(h: seq<Tx<V>>, r: Run, maxPages: nat) returns (replies: seq<Reply<V>>)
    requires Unique(h) && Known(h, r.oldestSig) && !Stopped(r, maxPages) && PagesSuffice(h, r, maxPages)
    ensures LegalFrom(h, r, replies, maxPages)
    ensures var end := PageLoop(r, replies, maxPages).0; end.complete || end.hitKnownTop
    decreases maxPages - r.page
  {
    hide PageStep, Legal, PagesSuffice, PageLoop, Handed, NewestFirst, Pos;
    var hi := Ceiling(h, r.oldestSig);
    var k := FullPage(hi);
    ServerCanAnswer(h, r.oldestSig, k);
    var reply := Page(NewestFirst(h, hi - k, hi));
    var r' := PageStep(r, reply);
    PageAdvances(r, reply, maxPages);
    var rest: seq<Reply<V>> := [];
    if r'.complete || r'.hitKnownTop {
      LoopEnds(r', rest, maxPages);
    } else {
      FullPageLeaves(h, r, reply.txs, maxPages);
      rest := FullPages(h, r', maxPages);
    }
    replies := [reply] + rest;
    assert replies[1..] == rest;
    LoopUnfolds(r, replies, maxPages);
  }

  /** From a safe cursor a clean pass is possible exactly when the pages of one pass suffice. */
  lemma CleanPassExists<V>(w: World<V>, maxPages: nat)
    requires Inv(w) && w.run.None?
    ensures (exists replies :: Clean(w, replies, maxPages)) <==> PagesSuffice(w.history, StartRun(w.cursor), maxPages)
  {
    hide LegalFrom, Pos, PageLoop;
    var r := StartRun(w.cursor);
    if replies :| Clean(w, replies, maxPages) {
      if Stopped(r, maxPages) { LoopEnds(r, replies, maxPages); }
      CleanNeedsPages(w.history, r, replies, maxPages);
    }
    if PagesSuffice(w.history, r, maxPages) {
      var replies := FullPages(w.history, r, maxPages);
      assert Clean(w, replies, maxPages);
    }
  }

  // ----- convergence

  ghost function AllRows<V>(h: seq<Tx<V>>): Table<V> {
    InsertAll(map[], h)
  }

  /** The cursor is complete with the top of the history, and the table is the decoded history. */
  ghost predicate Converged<V>(w: World<V>) {
    && w.cursor.Some? && w.cursor.value.complete
    && (w.history != [] ==> w.cursor.value.newestSig == Some(w.history[|w.history| - 1].sig))
    && w.table == AllRows(w.history)
  }

  lemma CoveredIsAll<V>(h: seq<Tx<V>>, table: Table<V>)
    requires Unique(h) && Sound(h, table) && Covered(h, table, 0, |h|)
    ensures table == AllRows(h)
  {
    hide Pos, InsertAll;
    forall j | 0 <= j < |h| ensures Pos(h, h[j].sig) == j { PosOf(h, j); }
    InsertAllStores(h, map[], h);
    SameRows(h, table, AllRows(h));
    SameRows(h, AllRows(h), table);
  }

  lemma SameRows<V>(h: seq<Tx<V>>, t1: Table<V>, t2: Table<V>)
    requires Unique(h) && Sound(h, t1) && Covered(h, t2, 0, |h|)
    ensures Extends(t2, t1)
  {
    hide Pos;
    forall k | k in t1 ensures k in t2 && t2[k] == t1[k] {
      assert Stored(t2, h[Pos(h, k.0)]);
    }
  }

  /** A run that started at the top of the current history and has not resumed from below. */
  ghost predicate FromTop<V>(h: seq<Tx<V>>, r: Run) {
    && r.startBefore.None?
    && (r.newestSig.Some? ==> h != [] && r.newestSig == Some(h[|h| - 1].sig))
    && (r.complete && r.newestSig.None? ==> h == [])
  }

  lemma AnswerKeepsFromTop<V>(w: World<V>, reply: Reply<V>)
    requires Inv(w) && w.run.Some? && FromTop(w.history, w.run.value) && !w.run.value.complete
    requires Legal(w.history, w.run.value.oldestSig, reply)
    ensures FromTop(w.history, PageStep(w.run.value, reply))
  {
    hide Above, RowCount, Pos, Sound, CursorSafe;
  }

  lemma {:induction false} RepliesKeep<V>(w: World<V>, replies: seq<Reply<V>>, maxPages: nat)
    requires Inv(w) && w.run.Some? && LegalFrom(w.history, w.run.value, replies, maxPages)
    ensures var w' := AfterReplies(w, replies, maxPages);
            && Inv(w') && w'.run.Some? && w'.history == w.history && w'.cursor == w.cursor
            && (FromTop(w.history, w.run.value) ==> FromTop(w.history, w'.run.value))
    decreases |replies|
  {
    if replies != [] {
      var w' := Step(w, Answer(replies[0]), maxPages);
      StepKeepsInv(w, Answer(replies[0]), maxPages);
      if Stopped(w.run.value, maxPages) {
        StoppedStays(w, replies, maxPages);
      } else {
        if FromTop(w.history, w.run.value) { AnswerKeepsFromTop(w, replies[0]); }
        hide PageStep, Legal, Inv, FromTop;
        RepliesKeep(w', replies[1..], maxPages);
      }
    }
  }

  /** A clean pass completes the cursor; one that does not resume reaches the top and stores everything. */
  lemma CleanPass<V>(w: World<V>, replies: seq<Reply<V>>, maxPages: nat)
    requires Inv(w) && Clean(w, replies, maxPages)
    ensures var w' := Pass(w, replies, maxPages);
            && Inv(w') && w'.run.None? && w'.history == w.history
            && w'.cursor.Some? && w'.cursor.value.complete
            && (!Resuming(w.cursor) ==> Converged(w'))
  {
    hide Pos, Legal, AfterReplies, LegalFrom, InsertAll, Stored, PageLoop;
    var w1 := Step(w, Start, maxPages);
    StepKeepsInv(w, Start, maxPages);
    RepliesKeep(w1, replies, maxPages);
    LoopIsSteps(w1, replies, maxPages);
    var w2 := AfterReplies(w1, replies, maxPages);
    StepKeepsInv(w2, Finish, maxPages);
    var r := w2.run.value;
    CleanCompletes(w2.history, w2.table, w.cursor, r);
    if !Resuming(w.cursor) {
      CleanReachesTop(w2, maxPages);
      CoveredIsAll(w2.history, w2.table);
    }
  }

  lemma CleanCompletes<V>(h: seq<Tx<V>>, table: Table<V>, c: Option<Cursor>, r: Run)
    requires RunSafe(h, table, c, r) && (r.complete || r.hitKnownTop)
    ensures NextCursor(c, r).complete
  {
    hide Pos;
  }

  lemma CleanReachesTop<V>(w: World<V>, maxPages: nat)
    requires Inv(w) && w.run.Some? && FromTop(w.history, w.run.value) && !Resuming(w.cursor)
    requires var r := w.run.value; r.complete || r.hitKnownTop
    ensures Covered(w.history, w.table, 0, |w.history|)
    ensures w.history != [] ==> NextCursor(w.cursor, w.run.value).newestSig == Some(w.history[|w.history| - 1].sig)
  {
    hide Pos, Sound, Stored;
    if w.history != [] { PosOf(w.history, |w.history| - 1); }
  }

  /**
   * Convergence: on a history that does not grow, from every reachable state, one clean pass completes
   * the cursor and a second one reaches the top with exactly the decoded history stored.
   */
  lemma TwoPassesConverge<V>(w0: World<V>, labels: seq<Label<V>>, first: seq<Reply<V>>, second: seq<Reply<V>>,
                             maxPages: nat)
    requires Fresh(w0)
    requires var w := Exec(w0, labels, maxPages);
             Clean(w, first, maxPages) && Clean(Pass(w, first, maxPages), second, maxPages)
    ensures var w := Exec(w0, labels, maxPages);
            && (!Resuming(w.cursor) ==> Converged(Pass(w, first, maxPages)))
            && Converged(Pass(Pass(w, first, maxPages), second, maxPages))
  {
    hide Exec, Clean, Pass, Converged;
    ExecKeepsInv(w0, labels, maxPages) by { FreshIsInv(w0); }
    var w := Exec(w0, labels, maxPages);
    CleanPass(w, first, maxPages);
    CleanPass(Pass(w, first, maxPages), second, maxPages);
  }

  /** One clean pass is enough exactly when it does not resume, or resumes a backfill that began at the top. */
  lemma OnePassExactly<V>(w: World<V>, replies: seq<Reply<V>>, maxPages: nat)
    requires Inv(w) && Clean(w, replies, maxPages)
    ensures Converged(Pass(w, replies, maxPages))
            <==> !Resuming(w.cursor) || w.history == []
                 || w.cursor.value.newestSig == Some(w.history[|w.history| - 1].sig)
  {
    hide Clean, Inv, AllRows;
    CleanPass(w, replies, maxPages);
    var w' := Pass(w, replies, maxPages);
    if Resuming(w.cursor) {
      ResumeKeepsTop(w, replies, maxPages);
      if w.history == [] || w.cursor.value.newestSig == Some(w.history[|w.history| - 1].sig) { TopCoversAll(w'); }
    }
  }

  /** The world after a first pass whose first page failed. */
  ghost function FirstPageFailed<V>(h: seq<Tx<V>>, maxPages: nat): World<V> {
    Exec(World(h, map[], None, None), [Start, Answer(Failed), Finish], maxPages)
  }

  /**
   * A wallet that does need the second pass: when the first page of its first pass fails, a clean pass
   * from there on is possible, and none converges.
   */
  lemma FailedFirstPage<V>(h: seq<Tx<V>>, maxPages: nat)
    requires Unique(h) && h != [] && maxPages > 0
    ensures var w := FirstPageFailed(h, maxPages);
            && w.cursor == Some(Cursor(None, None, false))
            && ((exists replies :: Clean(w, replies, maxPages)) <==> |h| <= PAGE_SIZE * (maxPages - 1))
            && forall replies | Clean(w, replies, maxPages) :: !Converged(Pass(w, replies, maxPages))
  {
    var w0: World<V> := World(h, map[], None, None);
    var w: World<V> := World(h, map[], Some(Cursor(None, None, false)), None);
    FailedPass(w0, maxPages);
    FreshIsInv(w0);
    ExecKeepsInv(w0, [Start, Answer(Failed), Finish], maxPages);
    CleanPassExists(w, maxPages);
    hide Inv, Clean, Pass, Converged;
    forall replies | Clean(w, replies, maxPages) ensures !Converged(Pass(w, replies, maxPages)) {
      OnePassExactly(w, replies, maxPages);
    }
  }

  lemma FailedPass<V>(w: World<V>, maxPages: nat)
    requires w == World(w.history, map[], None, None) && maxPages > 0
    ensures FirstPageFailed(w.history, maxPages) == w.(cursor := Some(Cursor(None, None, false)))
  {
    InsertNone(w.table);
    PassIsSchedule(w, [Failed], maxPages);
    assert Answers([Reply<V>.Failed]) == [Answer(Failed)];
    assert [Start] + [Answer(Failed)] + [Finish] == [Start, Answer(Reply<V>.Failed), Finish];
    assert AfterReplies(Step(w, Start, maxPages), [Failed], maxPages)
           == Step(Step(w, Start, maxPages), Answer(Failed), maxPages);
  }

  lemma ResumeKeepsTop<V>(w: World<V>, replies: seq<Reply<V>>, maxPages: nat)
    requires Inv(w) && Clean(w, replies, maxPages) && Resuming(w.cursor)
    ensures Pass(w, replies, maxPages).cursor.Some?
    ensures Pass(w, replies, maxPages).cursor.value.newestSig == w.cursor.value.newestSig
  {
    hide Inv, PageLoop, AfterReplies, LegalFrom;
    StartKeepsInv(w);
    LoopIsSteps(Step(w, Start, maxPages), replies, maxPages);
  }

  lemma TopCoversAll<V>(w: World<V>)
    requires Inv(w) && w.cursor.Some? && w.cursor.value.complete
    requires w.history != [] ==> w.cursor.value.newestSig == Some(w.history[|w.history| - 1].sig)
    ensures w.table == AllRows(w.history)
  {
    hide Pos, Stored, AllRows, Sound;
    if w.history != [] { PosOf(w.history, |w.history| - 1); }
    CoveredIsAll(w.history, w.table);
  }

  lemma FreshIsInv<V>(w: World<V>)
    requires Fresh(w)
    ensures Inv(w)
  {
  }

  ghost predicate Still<V>(labels: seq<Label<V>>) {
    forall i | 0 <= i < |labels| :: !labels[i].Grow?
  }

  /** While the history stands still, a converged wallet stays as it is, whatever passes, fails or crashes. */
  lemma {:induction false} ConvergedStays<V>(w: World<V>, labels: seq<Label<V>>, maxPages: nat)
    requires Inv(w) && Converged(w) && w.run.None? && Still(labels)
    ensures var w' := Exec(w, labels, maxPages);
            && Inv(w') && Converged(w') && w'.table == w.table && w'.history == w.history
            && (w'.run.Some? ==> FromTop(w'.history, w'.run.value))
  {
    if labels != [] {
      var n := |labels| - 1;
      ConvergedStays(w, labels[..n], maxPages);
      ConvergedStep(Exec(w, labels[..n], maxPages), labels[n], maxPages);
    }
  }

  lemma ConvergedStep<V>(w: World<V>, l: Label<V>, maxPages: nat)
    requires Inv(w) && Converged(w) && !l.Grow? && (w.run.Some? ==> FromTop(w.history, w.run.value))
    ensures var w' := Step(w, l, maxPages);
            && Inv(w') && Converged(w') && w'.history == w.history
            && (w'.run.Some? ==> FromTop(w'.history, w'.run.value))
  {
    hide Pos, Legal, InsertAll, Stored, PageStep, Above;
    StepKeepsInv(w, l, maxPages);
    if Enabled(w, l, maxPages) {
      match l
      case Start => assert StartRun(w.cursor).startBefore.None?;
      case Answer(reply) =>
        AnswerKeepsFromTop(w, reply);
        AllStaysAll(w.history, w.table, Step(w, l, maxPages).table) by {
          AnswerExtends(w, reply);
        }
      case Finish =>
      case Crash =>
    }
  }

  lemma AnswerExtends<V>(w: World<V>, reply: Reply<V>)
    requires Inv(w) && w.run.Some? && Legal(w.history, w.run.value.oldestSig, reply)
    ensures Extends(InsertAll(w.table, Handed(w.run.value, reply)), w.table)
  {
    hide Pos;
    InsertAllExtends(w.table, Handed(w.run.value, reply));
  }

  lemma {:induction false} InsertAllExtends<V>(table: Table<V>, txs: seq<Tx<V>>)
    ensures Extends(InsertAll(table, txs), table)
  {
    if txs != [] { InsertAllExtends(table, txs[..|txs| - 1]); }
  }

  lemma AllStaysAll<V>(h: seq<Tx<V>>, t: Table<V>, t': Table<V>)
    requires Unique(h) && t == AllRows(h) && Extends(t', t) && Sound(h, t')
    ensures t' == t
  {
    hide Pos, InsertAll;
    forall j | 0 <= j < |h| ensures Pos(h, h[j].sig) == j { PosOf(h, j); }
    InsertAllStores(h, map[], h);
    SameRows(h, t', t);
  }
}
