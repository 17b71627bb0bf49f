/**
 * The cursor-driven ingest of `WalletFlowIngest` and `SwapFlowIngest`, which share one protocol, over
 * the paging loop of `pageFlows` and `pageSwaps`. A transaction is known by its signature and the rows
 * it decodes to, keyed by the part of the table's primary key that follows (wallet, signature): the
 * mint for swap legs, nothing for wallet flows. Everything here is about one wallet.
 */
module Ingest {
  import opened Options

  type Sig = string

  datatype Tx<V> = Tx(sig: Sig, rows: map<string, V>)

  type Table<V> = map<(Sig, string), V>

  datatype Cursor = Cursor(newestSig: Option<Sig>, oldestSig: Option<Sig>, complete: bool)

  /** One answer of the paged endpoint, once its retries are over. Pages are newest first. */
  datatype Reply<V> = Failed | Page(txs: seq<Tx<V>>)

  /** The local state of the paging loop. `oldestSig` is also the next request's `before`. */
  datatype Run = Run(
    untilSig: Option<Sig>,
    startBefore: Option<Sig>,
    newestSig: Option<Sig>,
    oldestSig: Option<Sig>,
    complete: bool,
    hitKnownTop: bool,
    failed: bool,
    page: nat,
    added: nat)

  const PAGE_SIZE := 100

  // ----- the table

  /** Insert a transaction's rows, leaving rows that are already there alone. */
  function Insert<V>(table: Table<V>, tx: Tx<V>): Table<V> {
    (map m | m in tx.rows :: (tx.sig, m) := tx.rows[m]) + table
  }

  function InsertAll<V>(table: Table<V>, txs: seq<Tx<V>>): Table<V> {
    if txs == [] then table else Insert(InsertAll(table, txs[..|txs| - 1]), txs[|txs| - 1])
  }

  // ----- the paging loop

  /** The part of a page above the stop signature: the inner loop stops at it. */
  function Above<V>(txs: seq<Tx<V>>, stop: Option<Sig>): (r: seq<Tx<V>>)
    ensures r <= txs
  {
    if txs == [] || stop == Some(txs[0].sig) then [] else [txs[0]] + Above(txs[1..], stop)
  }

  /** `Above` ends at the first occurrence of the stop signature. */
  lemma {:induction false} AboveIsPrefix<V>(txs: seq<Tx<V>>, stop: Option<Sig>, k: nat)
    requires k <= |txs| && (k < |txs| ==> stop == Some(txs[k].sig))
    requires forall j | 0 <= j < k :: stop != Some(txs[j].sig)
    ensures Above(txs, stop) == txs[..k]
  {
    if k > 0 {
      AboveIsPrefix(txs[1..], stop, k - 1);
      assert txs[..k] == [txs[0]] + txs[1..][..k - 1];
    }
  }

  function RowCount<V>(txs: seq<Tx<V>>): nat {
    if txs == [] then 0 else RowCount(txs[..|txs| - 1]) + |txs[|txs| - 1].rows|
  }

  /** The transactions whose rows a reply hands to `onPage`. */
  function Handed<V>(r: Run, reply: Reply<V>): seq<Tx<V>> {
    if reply.Page? then Above(reply.txs, r.untilSig) else []
  }

  function PageStep<V>(r: Run, reply: Reply<V>): Run {
    match reply
    case Failed => r.(failed := true)
    case Page(txs) =>
      if txs == [] then r.(complete := true)
      else
        var taken := Above(txs, r.untilSig);
        var hit := |taken| < |txs|;
        r.(newestSig := if r.newestSig.None? then Some(txs[0].sig) else r.newestSig,
           oldestSig := Some(txs[|txs| - 1].sig),
           hitKnownTop := hit,
           page := if hit then r.page else r.page + 1,
           added := r.added + RowCount(taken))
  }

  predicate Stopped(r: Run, maxPages: nat) {
    r.failed || r.complete || r.hitKnownTop || r.page >= maxPages
  }

  /** The loop over a list of replies: the run it ends in, and all it handed over. */
  function PageLoop<V>(r: Run, replies: seq<Reply<V>>, maxPages: nat): (Run, seq<Tx<V>>)
    decreases |replies|
  {
    if Stopped(r, maxPages) || replies == [] then (r, [])
    else
      var (end, rest) := PageLoop(PageStep(r, replies[0]), replies[1..], maxPages);
      (end, Handed(r, replies[0]) + rest)
  }

  lemma LoopUnfolds<V>(r: Run, replies: seq<Reply<V>>, maxPages: nat)
    requires !Stopped(r, maxPages) && replies != []
    ensures var rest := PageLoop(PageStep(r, replies[0]), replies[1..], maxPages);
            PageLoop(r, replies, maxPages) == (rest.0, Handed(r, replies[0]) + rest.1)
  {
    hide PageStep, Handed;
  }

  lemma LoopEnds<V>(r: Run, replies: seq<Reply<V>>, maxPages: nat)
    requires Stopped(r, maxPages) || replies == []
    ensures PageLoop(r, replies, maxPages) == (r, [])
  {
  }

  lemma PageAdvances<V>(r: Run, reply: Reply<V>, maxPages: nat)
    requires !Stopped(r, maxPages)
    ensures var next := PageStep(r, reply);
            r.page <= next.page <= maxPages && (!Stopped(next, maxPages) ==> next.page == r.page + 1)
  {
    hide Above, RowCount;
  }

  // ----- the cursor rules

  predicate Resuming(c: Option<Cursor>) { c.Some? && !c.value.complete }

  predicate ToppingUp(c: Option<Cursor>) { c.Some? && c.value.complete }

  function StartRun(c: Option<Cursor>): Run {
    var before := if Resuming(c) then c.value.oldestSig else None;
    Run(if ToppingUp(c) then c.value.newestSig else None, before, None, before, false, false, false, 0, 0)
  }

  function Or(x: Option<Sig>, y: Option<Sig>): Option<Sig> {
    if x.Some? then x else y
  }

  function NextCursor(c: Option<Cursor>, r: Run): Cursor {
    var newest :=
      if Resuming(c) then c.value.newestSig
      else if ToppingUp(c) then
        if r.hitKnownTop || r.complete then Or(r.newestSig, c.value.newestSig) else c.value.newestSig
      else r.newestSig;
    var oldest :=
      if ToppingUp(c) then c.value.oldestSig
      else if c.Some? then Or(r.oldestSig, c.value.oldestSig)
      else r.oldestSig;
    Cursor(newest, oldest, r.complete || ToppingUp(c))
  }

  // ----- the code as it runs

  class FlowIngest<V> {
    const enabled: bool
    const maxPages: nat
    var table: Table<V>
    var cursor: Option<Cursor>

    constructor (enabled: bool, maxPages: nat)
      ensures this.enabled == enabled && this.maxPages == maxPages && table == map[] && cursor == None
    {
      this.enabled, this.maxPages := enabled, maxPages;
      table, cursor := map[], None;
    }

    /** `ON CONFLICT DO NOTHING`, row by row. */
    method Upsert(txs: seq<Tx<V>>)
      modifies this`table
      ensures table == InsertAll(old(table), txs)
    {
      hide Insert;
      for i := 0 to |txs|
        invariant table == InsertAll(old(table), txs[..i])
      {
        assert txs[..i + 1][..i] == txs[..i];
        table := Insert(table, txs[i]);
      }
      assert txs[..|txs|] == txs;
    }

    /** What one reply does to the loop's variables and, through `onPage`, to the table. */
    method TakeReply(run: Run, reply: Reply<V>) returns (next: Run)
      modifies this`table
      ensures next == PageStep(run, reply) && table == InsertAll(old(table), Handed(run, reply))
    {
      hide RowCount, Above, InsertAll;
      InsertNone(table);
      next := run;
      match reply
      case Failed =>
        next := next.(failed := true);
      case Page(txs) =>
        if txs == [] {
          AboveIsPrefix(txs, run.untilSig, 0);
          next := next.(complete := true);
          return;
        }
        if run.newestSig.None? { next := next.(newestSig := Some(txs[0].sig)); }
        var taken := ScanPage(txs, run.untilSig);
        Upsert(taken);
        next := next.(added := run.added + RowCount(taken), oldestSig := Some(txs[|txs| - 1].sig));
        if |taken| < |txs| {
          next := next.(hitKnownTop := true);
        } else {
          next := next.(hitKnownTop := false, page := run.page + 1);
        }
    }

    /** Page through the history; `replies[k]` is what the endpoint answers to the k-th request. */
    method PageThrough(untilSig: Option<Sig>, startBefore: Option<Sig>, replies: seq<Reply<V>>)
      returns (run: Run)
      requires |replies| >= maxPages
      modifies this`table
      ensures var start := Run(untilSig, startBefore, None, startBefore, false, false, false, 0, 0);
              var (end, handed) := PageLoop(start, replies, maxPages);
              run == end && Stopped(run, maxPages) && table == InsertAll(old(table), handed)
    {
      hide RowCount, Above, InsertAll, PageStep, Handed, PageLoop;
      run := Run(untilSig, startBefore, None, startBefore, false, false, false, 0, 0);
      InsertNone(table);
      ghost var (end, handed) := PageLoop(run, replies, maxPages);
      ghost var sofar: seq<Tx<V>>, rest := [], replies;
      assert sofar + handed == handed;
      while !Stopped(run, maxPages)
        invariant run.page <= maxPages && (Stopped(run, maxPages) || rest == replies[run.page..])
        invariant (end, handed) == (PageLoop(run, rest, maxPages).0, sofar + PageLoop(run, rest, maxPages).1)
        invariant table == InsertAll(old(table), sofar)
        decreases maxPages - run.page, !Stopped(run, maxPages)
      {
        var reply := replies[run.page];
        assert rest[0] == reply && rest[1..] == replies[run.page + 1..];
        ghost var page := Handed(run, reply);
        LoopUnfolds(run, rest, maxPages);
        PageAdvances(run, reply, maxPages);
        InsertAllAppends(old(table), sofar, page);
        ghost var after := PageLoop(PageStep(run, reply), rest[1..], maxPages).1;
        assert sofar + (page + after) == sofar + page + after;
        run := TakeReply(run, reply);
        sofar, rest := sofar + page, rest[1..];
      }
      LoopEnds(run, rest, maxPages);
      assert sofar + [] == sofar;
    }

    /** The inner loop over one page. */
    method ScanPage(txs: seq<Tx<V>>, stop: Option<Sig>) returns (taken: seq<Tx<V>>)
      ensures taken == Above(txs, stop)
    {
      taken := [];
      for i := 0 to |txs|
        invariant taken == txs[..i]
        invariant forall j | 0 <= j < i :: stop != Some(txs[j].sig)
      {
        if stop == Some(txs[i].sig) {
          AboveIsPrefix(txs, stop, i);
          return;
        }
        taken := taken + [txs[i]];
      }
      AboveIsPrefix(txs, stop, |txs|);
    }

    /** One ingest pass: pages are stored as they come, the cursor moves once, at the end. */
    method IngestOnce(replies: seq<Reply<V>>) returns (added: nat, complete: bool)
      requires |replies| >= maxPages
      modifies this
      ensures !enabled ==> table == old(table) && cursor == old(cursor) && added == 0 && !complete
      ensures enabled ==>
                var (end, handed) := PageLoop(StartRun(old(cursor)), replies, maxPages);
                && table == InsertAll(old(table), handed)
                && cursor == Some(NextCursor(old(cursor), end))
                && added == end.added && complete == cursor.value.complete
    {
      if !enabled { return 0, false; }
      var resuming := cursor.Some? && !cursor.value.complete;
      var toppingUp := cursor.Some? && cursor.value.complete;
      var run := PageThrough(if toppingUp then cursor.value.newestSig else None,
                             if resuming then cursor.value.oldestSig else None, replies);
      var reachedComplete := run.complete || toppingUp;
      var caughtUp := run.hitKnownTop || run.complete;
      var newestSig :=
        if resuming then cursor.value.newestSig
        else if toppingUp then (if caughtUp then Or(run.newestSig, cursor.value.newestSig) else cursor.value.newestSig)
        else run.newestSig;
      var oldestSig :=
        if toppingUp then cursor.value.oldestSig
        else if cursor.Some? then Or(run.oldestSig, cursor.value.oldestSig)
        else run.oldestSig;
      cursor := Some(Cursor(newestSig, oldestSig, reachedComplete));
      return run.added, reachedComplete;
    }
  }

  lemma InsertNone<V>(table: Table<V>)
    ensures InsertAll(table, []) == table
  {
  }

  lemma {:induction false} InsertAllAppends<V>(table: Table<V>, xs: seq<Tx<V>>, ys: seq<Tx<V>>)
    ensures InsertAll(table, xs + ys) == InsertAll(InsertAll(table, xs), ys)
  {
    if ys == [] {
      assert xs + ys == xs;
    } else {
      var n := |ys| - 1;
      InsertAllAppends(table, xs, ys[..n]);
      assert (xs + ys)[..|xs + ys| - 1] == xs + ys[..n];
    }
  }

  // ----- the protocol as a state machine: growth, crashes and failures at any point

  /** `history` runs from the oldest to the newest transaction of the wallet. */
  datatype World<V> = World(history: seq<Tx<V>>, table: Table<V>, cursor: Option<Cursor>, run: Option<Run>)

  datatype Label<V> =
    | Grow(tx: Tx<V>)
    | Start
    | Answer(reply: Reply<V>)
    | Finish
    | Crash

  /** The index of the transaction with signature `sig`, or the length of the history if there is none. */
  function Pos<V>(h: seq<Tx<V>>, sig: Sig): (i: nat)
    ensures i <= |h|
    ensures i < |h| ==> h[i].sig == sig
    ensures i == |h| ==> forall j | 0 <= j < |h| :: h[j].sig != sig
  {
    if h == [] then 0
    else
      var n := |h| - 1;
      if h[n].sig == sig then n
      else
        var i := Pos(h[..n], sig);
        if i == n then |h| else i
  }

  /** Requests page strictly below `before`, or from the newest transaction. */
  function Ceiling<V>(h: seq<Tx<V>>, before: Option<Sig>): (i: nat)
    ensures i <= |h|
  {
    if before.Some? then Pos(h, before.value) else |h|
  }

  /** The server returns the next transactions newest first, as few as it likes but not none too early. */
  ghost predicate Legal<V>(h: seq<Tx<V>>, before: Option<Sig>, reply: Reply<V>) {
    reply.Page? ==>
      var top := Ceiling(h, before);
      && |reply.txs| <= top && |reply.txs| <= PAGE_SIZE
      && (reply.txs == [] ==> top == 0)
      && forall j | 0 <= j < |reply.txs| :: reply.txs[j] == h[top - 1 - j]
  }

  ghost predicate Enabled<V>(w: World<V>, l: Label<V>, maxPages: nat) {
    match l
    case Grow(tx) => Pos(w.history, tx.sig) == |w.history|
    case Start => w.run.None?
    case Answer(reply) =>
      w.run.Some? && !Stopped(w.run.value, maxPages) && Legal(w.history, w.run.value.oldestSig, reply)
    case Finish => w.run.Some? && Stopped(w.run.value, maxPages)
    case Crash => w.run.Some?
  }

  /** One step; a step that is not enabled does nothing. */
  ghost function Step<V>(w: World<V>, l: Label<V>, maxPages: nat): World<V> {
    if !Enabled(w, l, maxPages) then w
    else
      match l
      case Grow(tx) => w.(history := w.history + [tx])
      case Start => w.(run := Some(StartRun(w.cursor)))
      case Answer(reply) =>
        w.(run := Some(PageStep(w.run.value, reply)), table := InsertAll(w.table, Handed(w.run.value, reply)))
      case Finish => w.(cursor := Some(NextCursor(w.cursor, w.run.value)), run := None)
      case Crash => w.(run := None)
  }

  ghost function Exec<V>(w: World<V>, labels: seq<Label<V>>, maxPages: nat): World<V> {
    if labels == [] then w else Step(Exec(w, labels[..|labels| - 1], maxPages), labels[|labels| - 1], maxPages)
  }

  /** A wallet never ingested, whatever its history. */
  ghost predicate Fresh<V>(w: World<V>) {
    w.table == map[] && w.cursor == None && w.run == None && Unique(w.history)
  }

  ghost predicate Unique<V>(h: seq<Tx<V>>) {
    forall i, j | 0 <= i < j < |h| :: h[i].sig != h[j].sig
  }
}
