/**
 * `runRealizedPnl` for one wallet: a pass at a time, with triggers during a pass coalesced into one
 * rerun. Every call that gets past the guard is a pass of its own; time is a step counter.
 */
module SingleFlight {
  datatype Pc = Ingesting | Computing | Persisting

  datatype State = State(
    running: bool,
    rerun: bool,
    passes: map<nat, Pc>,
    clock: nat,
    triggers: seq<nat>,
    computes: seq<nat>,
    throws: seq<nat>)

  /** A label names the pass whose awaited step comes back; a trigger is a call. */
  datatype Label =
    | Trigger
    | IngestSettled(pass: nat)
    | Computed(pass: nat, empty: bool)
    | Persisted(pass: nat)
    | Thrown(pass: nat)

  const INITIAL := State(false, false, map[], 1, [], [], [])

  predicate Enabled(s: State, l: Label) {
    match l
    case Trigger => true
    case IngestSettled(p) => p in s.passes && s.passes[p].Ingesting?
    case Computed(p, _) => p in s.passes && s.passes[p].Computing?
    case Persisted(p) => p in s.passes && s.passes[p].Persisting?
    case Thrown(p) => p in s.passes && !s.passes[p].Ingesting?
  }

  /** The head of the do loop: clear the rerun flag and start a computation. */
  function Compute(s: State, p: nat): State {
    s.(rerun := false, passes := s.passes[p := Computing], computes := s.computes + [s.clock])
  }

  /** The finally block. */
  function Leave(s: State, p: nat): State {
    s.(running := false, rerun := false, passes := s.passes - {p})
  }

  function LoopTest(s: State, p: nat): State {
    if s.rerun then Compute(s, p) else Leave(s, p)
  }

  function Step(s: State, l: Label): State {
    if !Enabled(s, l) then s
    else
      var t :=
        match l
        case Trigger =>
          var u := s.(triggers := s.triggers + [s.clock]);
          if s.running then u.(rerun := true) else u.(running := true, passes := s.passes[s.clock := Ingesting])
        case IngestSettled(p) => Compute(s, p)
        case Computed(p, empty) => if empty then LoopTest(s, p) else s.(passes := s.passes[p := Persisting])
        case Persisted(p) => LoopTest(s, p)
        case Thrown(p) => Leave(s.(throws := s.throws + [s.clock]), p);
      t.(clock := s.clock + 1)
  }

  function Exec(s: State, labels: seq<Label>): State {
    if labels == [] then s else Step(Exec(s, labels[..|labels| - 1]), labels[|labels| - 1])
  }

  // ----- the invariant

  function Last(xs: seq<nat>): nat {
    if xs == [] then 0 else xs[|xs| - 1]
  }

  ghost predicate Past(xs: seq<nat>, clock: nat) {
    (forall i | 0 <= i < |xs| :: 0 < xs[i] < clock) && (forall i, j | 0 <= i < j < |xs| :: xs[i] < xs[j])
  }

  /** A computation is owed: the pass has not reached one yet, or will run another. */
  ghost predicate Owed(s: State) {
    s.rerun || exists p :: p in s.passes && s.passes[p].Ingesting?
  }

  ghost predicate Inv(s: State) {
    && s.clock > 0
    && Past(s.triggers, s.clock) && Past(s.computes, s.clock) && Past(s.throws, s.clock)
    && (forall p, q | p in s.passes && q in s.passes :: p == q)
    && (s.running <==> s.passes != map[])
    && (s.rerun ==> s.running)
    && (Last(s.triggers) > Last(s.computes) && Last(s.triggers) > Last(s.throws) ==> Owed(s))
    && |s.computes| + (if Owed(s) then 1 else 0) <= |s.triggers|
  }

  lemma LeaveKeepsInv(s: State, p: nat)
    requires Inv(s) && p in s.passes && !s.passes[p].Ingesting? && !s.rerun
    ensures Inv(Leave(s, p).(clock := s.clock + 1))
  {
    assert forall q | q in s.passes :: q == p;
    assert s.passes - {p} == map[];
  }

  lemma ThrowKeepsInv(s: State, p: nat)
    requires Inv(s) && p in s.passes && !s.passes[p].Ingesting?
    ensures Inv(Step(s, Thrown(p)))
  {
    assert forall q | q in s.passes :: q == p;
    assert s.passes - {p} == map[];
  }

  lemma ComputeKeepsInv(s: State, p: nat)
    requires Inv(s) && p in s.passes && Owed(s)
    ensures Inv(Compute(s, p).(clock := s.clock + 1))
  {
    var t := Compute(s, p);
    assert forall q | q in t.passes :: q == p;
    assert p in t.passes;
  }

  lemma TriggerKeepsInv(s: State)
    requires Inv(s)
    ensures Inv(Step(s, Trigger))
  {
    var t := Step(s, Trigger);
    if !s.running {
      assert t.passes == map[s.clock := Ingesting];
      assert s.clock in t.passes && t.passes[s.clock].Ingesting?;
    }
  }

  lemma PersistKeepsInv(s: State, p: nat)
    requires Inv(s) && p in s.passes && s.passes[p].Computing?
    ensures Inv(Step(s, Computed(p, false)))
  {
    assert forall q | q in s.passes :: q == p;
    assert p in Step(s, Computed(p, false)).passes;
  }

  lemma LoopKeepsInv(s: State, p: nat)
    requires Inv(s) && p in s.passes && !s.passes[p].Ingesting?
    ensures Inv(LoopTest(s, p).(clock := s.clock + 1))
  {
    if s.rerun { ComputeKeepsInv(s, p); } else { LeaveKeepsInv(s, p); }
  }

  lemma StepKeepsInv(s: State, l: Label)
    requires Inv(s)
    ensures Inv(Step(s, l))
  {
    if Enabled(s, l) {
      hide Inv, LoopTest, Compute, Leave;
      match l
      case Trigger => TriggerKeepsInv(s);
      case IngestSettled(p) => ComputeKeepsInv(s, p);
      case Computed(p, empty) => if empty { LoopKeepsInv(s, p); } else { PersistKeepsInv(s, p); }
      case Persisted(p) => LoopKeepsInv(s, p);
      case Thrown(p) => ThrowKeepsInv(s, p);
    }
  }

  lemma {:induction false} ExecKeepsInv(s: State, labels: seq<Label>)
    requires Inv(s)
    ensures Inv(Exec(s, labels))
  {
    hide Inv;
    if labels != [] {
      var n := |labels| - 1;
      ExecKeepsInv(s, labels[..n]);
      StepKeepsInv(Exec(s, labels[..n]), labels[n]);
    }
  }

  lemma InitialInv()
    ensures Inv(INITIAL)
  {
  }

  /** At most one pass runs at a time, whatever triggers and completions interleave. */
  lemma OnePassAtATime(labels: seq<Label>, p: nat, q: nat)
    requires var s := Exec(INITIAL, labels); p in s.passes && q in s.passes
    ensures p == q
  {
    hide Exec;
    InitialInv();
    ExecKeepsInv(INITIAL, labels);
  }

  /** When no pass is left, every trigger was followed by a computation, unless a pass threw after it. */
  lemma NoLostTrigger(labels: seq<Label>, t: nat)
    requires var s := Exec(INITIAL, labels); s.passes == map[] && t in s.triggers
    ensures var s := Exec(INITIAL, labels);
            (exists c :: c in s.computes && c > t) || (exists x :: x in s.throws && x > t)
  {
    hide Exec;
    InitialInv();
    ExecKeepsInv(INITIAL, labels);
    var s := Exec(INITIAL, labels);
    assert t <= Last(s.triggers) && Last(s.triggers) > 0;
    assert !Owed(s);
    TimesDiffer(labels);
    if Last(s.computes) > Last(s.triggers) {
      assert Last(s.computes) in s.computes;
    } else {
      assert Last(s.throws) in s.throws;
    }
  }

  ghost predicate Apart(xs: seq<nat>, ys: seq<nat>) {
    forall i, j | 0 <= i < |xs| && 0 <= j < |ys| :: xs[i] != ys[j]
  }

  /** Two events never share a time. */
  lemma {:induction false} TimesDiffer(labels: seq<Label>)
    ensures var s := Exec(INITIAL, labels); Apart(s.triggers, s.computes) && Apart(s.triggers, s.throws)
  {
    if labels != [] {
      var n := |labels| - 1;
      TimesDiffer(labels[..n]);
      InitialInv();
      ExecKeepsInv(INITIAL, labels[..n]);
      TimesDifferStep(Exec(INITIAL, labels[..n]), labels[n]);
    }
  }

  lemma TimesDifferStep(s: State, l: Label)
    requires Apart(s.triggers, s.computes) && Apart(s.triggers, s.throws)
    requires Past(s.triggers, s.clock) && Past(s.computes, s.clock) && Past(s.throws, s.clock)
    ensures var t := Step(s, l); Apart(t.triggers, t.computes) && Apart(t.triggers, t.throws)
  {
  }

  ghost predicate Quiet(labels: seq<Label>) {
    forall i | 0 <= i < |labels| :: !labels[i].Trigger?
  }

  /** Coalescing: however many triggers have arrived, what is owed is one more computation at most. */
  lemma {:induction false} BurstCostsOnePass(s: State, labels: seq<Label>)
    requires Inv(s) && Quiet(labels)
    ensures var t := Exec(s, labels);
            |t.computes| + (if Owed(t) then 1 else 0) <= |s.computes| + (if Owed(s) then 1 else 0)
  {
    if labels != [] {
      var n := |labels| - 1;
      BurstCostsOnePass(s, labels[..n]);
      ExecKeepsInv(s, labels[..n]);
      var t := Exec(s, labels[..n]);
      StepKeepsInv(t, labels[n]);
      QuietStep(t, labels[n]);
    }
  }

  lemma QuietStep(s: State, l: Label)
    requires Inv(s) && !l.Trigger?
    ensures var t := Step(s, l);
            |t.computes| + (if Owed(t) then 1 else 0) <= |s.computes| + (if Owed(s) then 1 else 0)
  {
    if Enabled(s, l) {
      var p := l.pass;
      assert forall q | q in s.passes :: q == p;
      if l.IngestSettled? { assert p in s.passes && s.passes[p].Ingesting?; }
    }
  }

  // ----- results are persisted

  ghost predicate NoEnd(labels: seq<Label>, p: nat) {
    forall l | l in labels :: l != Persisted(p) && l != Thrown(p)
  }

  /**
   * A computation with a result goes on to persist it, and stays there until the write comes back or the
   * pass throws, whatever triggers and other labels arrive.
   */
  lemma {:induction false} ResultIsPersisted(s: State, p: nat, labels: seq<Label>)
    requires Inv(s) && p in s.passes && s.passes[p].Computing? && NoEnd(labels, p)
    ensures var t := Exec(Step(s, Computed(p, false)), labels); Inv(t) && p in t.passes && t.passes[p].Persisting?
  {
    hide Inv, Step;
    var s1 := Step(s, Computed(p, false));
    if labels == [] {
      GoesOnToPersist(s, p);
    } else {
      var n := |labels| - 1;
      assert labels[n] in labels && forall l | l in labels[..n] :: l in labels;
      ResultIsPersisted(s, p, labels[..n]);
      StaysPersisting(Exec(s1, labels[..n]), p, labels[n]);
    }
  }

  lemma GoesOnToPersist(s: State, p: nat)
    requires Inv(s) && p in s.passes && s.passes[p].Computing?
    ensures var t := Step(s, Computed(p, false)); Inv(t) && p in t.passes && t.passes[p].Persisting?
  {
    StepKeepsInv(s, Computed(p, false));
    hide Inv;
  }

  lemma StaysPersisting(s: State, p: nat, l: Label)
    requires Inv(s) && p in s.passes && s.passes[p].Persisting? && l != Persisted(p) && l != Thrown(p)
    ensures var t := Step(s, l); Inv(t) && p in t.passes && t.passes[p].Persisting?
  {
    StepKeepsInv(s, l);
  }

  /** An empty result is not persisted: the pass computes again if a trigger came in, or else ends. */
  lemma EmptyResultEnds(s: State, p: nat)
    requires p in s.passes && s.passes[p].Computing?
    ensures var t := Step(s, Computed(p, true));
            if s.rerun then t.passes == s.passes[p := Computing] && t.computes == s.computes + [s.clock] && !t.rerun
            else t.passes == s.passes - {p} && !t.running && !t.rerun && t.computes == s.computes
  {
  }
}
