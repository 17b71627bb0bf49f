/**
 * The version-keyed cache. A computation is named by the time it started; time is a counter that
 * every step advances. Values are not modelled: an answer is the computation it comes from.
 */
module VersionedCache {
  import opened CacheKeys

  datatype Answer = Answer(calledAt: nat, key: string, resources: seq<Resource>, startedAt: nat)

  datatype Bumped = Bumped(at: nat, resource: Resource)

  datatype State = State(
    versions: map<Resource, nat>,
    cache: map<Rendered, nat>,
    inflight: map<Rendered, nat>,
    running: set<(Rendered, nat)>,
    clock: nat,
    answers: seq<Answer>,
    bumps: seq<Bumped>)

  datatype Label =
    | Wrap(key: string, resources: seq<Resource>)
    | Bump(resource: Resource)
    | Resolve(k: Rendered, id: nat)
    | Settle(k: Rendered, id: nat)
    | Expire(k: Rendered)

  const INITIAL := State(map[], map[], map[], {}, 1, [], [])

  function VersionOf(versions: map<Resource, nat>, r: Resource): nat {
    if r in versions then versions[r] else 0
  }

  function VersionKey(versions: map<Resource, nat>, rs: seq<Resource>): (r: seq<(Resource, nat)>)
    ensures |r| == |rs|
  {
    seq(|rs|, i requires 0 <= i < |rs| => (rs[i], VersionOf(versions, rs[i])))
  }

  /** Every resource that is wrapped is plain, as wallet addresses are. */
  ghost predicate PlainLabel(l: Label) {
    l.Wrap? ==> forall r | r in l.resources :: PlainResource(r)
  }

  ghost predicate PlainLabels(labels: seq<Label>) {
    forall l | l in labels :: PlainLabel(l)
  }

  // ----- the cache

  /** The synchronous part of `wrap`: the computation whose value the call will return. */
  function Choose(s: State, k: Rendered): nat {
    if k in s.cache then s.cache[k] else if k in s.inflight then s.inflight[k] else s.clock
  }

  function Step(s: State, l: Label): State {
    var t := s.(clock := s.clock + 1);
    match l
    case Wrap(key, rs) =>
      var k := Render(Key(key, VersionKey(s.versions, rs)));
      var u := t.(answers := s.answers + [Answer(s.clock, key, rs, Choose(s, k))]);
      if k in s.cache || k in s.inflight then u
      else u.(inflight := s.inflight[k := s.clock], running := s.running + {(k, s.clock)})
    case Bump(r) =>
      t.(versions := s.versions[r := VersionOf(s.versions, r) + 1], bumps := s.bumps + [Bumped(s.clock, r)])
    case Resolve(k, id) => if (k, id) in s.running then t.(cache := s.cache[k := id]) else t
    case Settle(k, id) =>
      if (k, id) in s.running then t.(running := s.running - {(k, id)}, inflight := s.inflight - {k}) else t
    case Expire(k) => t.(cache := s.cache - {k})
  }

  function Exec(labels: seq<Label>): State {
    if labels == [] then INITIAL else Step(Exec(labels[..|labels| - 1]), labels[|labels| - 1])
  }

  /** The fields that `wrap`, `bump` and the completions of a computation update in place. */
  class Cache {
    var versions: map<Resource, nat>
    var cache: map<Rendered, nat>
    var inflight: map<Rendered, nat>
    var clock: nat
    ghost var running: set<(Rendered, nat)>
    ghost var answers: seq<Answer>
    ghost var bumps: seq<Bumped>

    ghost function Current(): State
      reads this
    {
      State(versions, cache, inflight, running, clock, answers, bumps)
    }

    constructor ()
      ensures Current() == INITIAL
    {
      versions, cache, inflight, clock := map[], map[], map[], 1;
      running, answers, bumps := {}, [], [];
    }

    method BumpVersion(resource: Resource)
      modifies this
      ensures Current() == Step(old(Current()), Bump(resource))
    {
      bumps := bumps + [Bumped(clock, resource)];
      versions := versions[resource := VersionOf(versions, resource) + 1];
      clock := clock + 1;
    }

    method WrapCall(key: string, resources: seq<Resource>) returns (id: nat)
      modifies this
      ensures Current() == Step(old(Current()), Wrap(key, resources))
      ensures id == answers[|answers| - 1].startedAt
    {
      var k := Render(Key(key, VersionKey(versions, resources)));
      if k in cache {
        id := cache[k];
      } else if k in inflight {
        id := inflight[k];
      } else {
        id := clock;
        inflight := inflight[k := id];
        running := running + {(k, id)};
      }
      answers := answers + [Answer(clock, key, resources, id)];
      clock := clock + 1;
    }

    method OnResolved(k: Rendered, id: nat)
      requires (k, id) in running
      modifies this
      ensures Current() == Step(old(Current()), Resolve(k, id))
    {
      cache := cache[k := id];
      clock := clock + 1;
    }

    method OnSettled(k: Rendered, id: nat)
      requires (k, id) in running
      modifies this
      ensures Current() == Step(old(Current()), Settle(k, id))
    {
      inflight := inflight - {k};
      running := running - {(k, id)};
      clock := clock + 1;
    }
  }

  // ----- the invariant

  ghost predicate BumpedBefore(s: State, r: Resource, time: nat) {
    forall i | 0 <= i < |s.bumps| && s.bumps[i].resource == r :: s.bumps[i].at < time
  }

  /** A computation for a key: started by a call with that key, at the key's versions or later. */
  ghost predicate FreshFor(s: State, k: Key, id: nat) {
    && StartedFor(s, k, id)
    && forall i | 0 <= i < |k.versions| ::
         var (r, v) := k.versions[i];
         v <= VersionOf(s.versions, r) && (v == VersionOf(s.versions, r) ==> BumpedBefore(s, r, id))
  }

  ghost predicate StartedFor(s: State, k: Key, id: nat) {
    exists a :: a in s.answers && Starts(a, k.key, id) && a.resources == Resources(k)
  }

  ghost predicate Starts(a: Answer, key: string, id: nat) {
    a.calledAt == a.startedAt == id && a.key == key
  }

  function Resources(k: Key): seq<Resource> {
    seq(|k.versions|, i requires 0 <= i < |k.versions| => k.versions[i].0)
  }

  /** A computation stored under a string is one for every key that the string may stand for. */
  ghost predicate FreshAt(s: State, r: Rendered, id: nat) {
    id < s.clock && forall k | Plain(k) && Render(k) == r :: FreshFor(s, k, id)
  }

  ghost predicate Inv(s: State) {
    && (forall i | 0 <= i < |s.bumps| :: s.bumps[i].at < s.clock)
    && (forall k | k in s.cache :: FreshAt(s, k, s.cache[k]))
    && (forall k | k in s.inflight :: (k, s.inflight[k]) in s.running)
    && (forall k, id | (k, id) in s.running :: k in s.inflight && s.inflight[k] == id && FreshAt(s, k, id))
    && (forall a | a in s.answers :: FreshAnswer(s, a))
  }

  /** The computation was started by a call with the same key and resources. */
  ghost predicate Answered(s: State, a: Answer) {
    exists b :: b in s.answers && Starts(b, a.key, a.startedAt) && b.resources == a.resources
  }

  /**
   * Every bump of the answer's resources before its call also lies before its computation started, and
   * that computation was started by a call with the same key and resources.
   */
  ghost predicate FreshAnswer(s: State, a: Answer) {
    && a.calledAt < s.clock
    && Answered(s, a)
    && forall i | 0 <= i < |s.bumps| && s.bumps[i].resource in a.resources && s.bumps[i].at < a.calledAt ::
         s.bumps[i].at < a.startedAt
  }

  /** The computation a call picks is one for its key. */
  lemma ChosenIsFresh(s: State, key: string, rs: seq<Resource>)
    requires Inv(s) && PlainLabel(Wrap(key, rs))
    ensures var k := Key(key, VersionKey(s.versions, rs));
            && Plain(k) && Resources(k) == rs
            && (Render(k) in s.cache || Render(k) in s.inflight ==> FreshFor(s, k, Choose(s, Render(k))))
  {
    hide Render, FreshFor;
    var k := Key(key, VersionKey(s.versions, rs));
    if Render(k) in s.cache || Render(k) in s.inflight { assert FreshAt(s, Render(k), Choose(s, Render(k))); }
  }

  lemma FreshForStays(s: State, t: State, k: Key, id: nat)
    requires FreshFor(s, k, id) && t.versions == s.versions && t.bumps == s.bumps
    requires forall a | a in s.answers :: a in t.answers
    ensures FreshFor(t, k, id)
  {
    forall r, time: nat | BumpedBefore(s, r, time) ensures BumpedBefore(t, r, time) {
    }
  }

  lemma FreshAtStays(s: State, t: State, r: Rendered, id: nat)
    requires FreshAt(s, r, id) && t.versions == s.versions && t.bumps == s.bumps && t.clock >= s.clock
    requires forall a | a in s.answers :: a in t.answers
    ensures FreshAt(t, r, id)
  {
    hide Render, FreshFor;
    forall k | Plain(k) && Render(k) == r ensures FreshFor(t, k, id) { FreshForStays(s, t, k, id); }
  }

  /** The answer a call adds is fresh. */
  lemma WrapAnswers(s: State, key: string, rs: seq<Resource>)
    requires Inv(s) && PlainLabel(Wrap(key, rs))
    ensures var t := Step(s, Wrap(key, rs));
            var k := Key(key, VersionKey(s.versions, rs));
            FreshFor(t, k, Choose(s, Render(k))) && FreshAnswer(t, t.answers[|s.answers|])
  {
    hide Render;
    var t := Step(s, Wrap(key, rs));
    var k := Key(key, VersionKey(s.versions, rs));
    var id := Choose(s, Render(k));
    var a := t.answers[|s.answers|];
    ChosenIsFresh(s, key, rs);
    if Render(k) in s.cache || Render(k) in s.inflight {
      FreshForStays(s, t, k, id);
    } else {
      assert a in t.answers && Starts(a, key, id);
    }
    forall i | 0 <= i < |t.bumps| && t.bumps[i].resource in rs ensures t.bumps[i].at < id {
      var j :| 0 <= j < |rs| && rs[j] == t.bumps[i].resource;
      assert k.versions[j] == (rs[j], VersionOf(s.versions, rs[j]));
      assert BumpedBefore(t, rs[j], id);
    }
  }

  lemma WrapKeepsInv(s: State, key: string, rs: seq<Resource>)
    requires Inv(s) && PlainLabel(Wrap(key, rs))
    ensures Inv(Step(s, Wrap(key, rs)))
  {
    var t := Step(s, Wrap(key, rs));
    var own := Key(key, VersionKey(s.versions, rs));
    var r, id := Render(own), Choose(s, Render(own));
    WrapAnswers(s, key, rs);
    ChosenIsFresh(s, key, rs);
    hide Render, FreshFor;
    forall r', id' | FreshAt(s, r', id') ensures FreshAt(t, r', id') { FreshAtStays(s, t, r', id'); }
    if r !in s.cache && r !in s.inflight {
      forall k | Plain(k) && Render(k) == r ensures FreshFor(t, k, id) { RenderIsInjective(k, own); }
      assert FreshAt(t, r, id);
    }
    forall a | a in t.answers ensures FreshAnswer(t, a) {
      if a in s.answers { AnswerStays(s, t, a); }
    }
  }

  lemma AnswerStays(s: State, t: State, a: Answer)
    requires FreshAnswer(s, a) && t.bumps == s.bumps && t.clock >= s.clock
    requires forall b | b in s.answers :: b in t.answers
    ensures FreshAnswer(t, a)
  {
  }

  lemma BumpKeepsFreshFor(s: State, r: Resource, k: Key, id: nat)
    requires FreshFor(s, k, id)
    ensures FreshFor(Step(s, Bump(r)), k, id)
  {
    var t := Step(s, Bump(r));
    assert StartedFor(t, k, id);
    forall i | 0 <= i < |k.versions|
      ensures var (q, v) := k.versions[i];
              v <= VersionOf(t.versions, q) && (v == VersionOf(t.versions, q) ==> BumpedBefore(t, q, id))
    {
      var (q, v) := k.versions[i];
      if q != r && v == VersionOf(t.versions, q) { assert BumpedBefore(s, q, id); }
    }
  }

  lemma BumpKeepsInv(s: State, r: Resource)
    requires Inv(s)
    ensures Inv(Step(s, Bump(r)))
  {
    var t := Step(s, Bump(r));
    forall a | a in t.answers ensures FreshAnswer(t, a) { assert FreshAnswer(s, a); }
    hide Render, FreshFor, FreshAnswer;
    forall x, id | FreshAt(s, x, id) ensures FreshAt(t, x, id) {
      forall k | Plain(k) && Render(k) == x ensures FreshFor(t, k, id) { BumpKeepsFreshFor(s, r, k, id); }
    }
  }

  lemma OtherKeepsInv(s: State, l: Label)
    requires Inv(s) && (l.Resolve? || l.Settle? || l.Expire?)
    ensures Inv(Step(s, l))
  {
    var t := Step(s, l);
    hide FreshAt, FreshAnswer;
    forall r, id | FreshAt(s, r, id) ensures FreshAt(t, r, id) { FreshAtStays(s, t, r, id); }
    forall a | FreshAnswer(s, a) ensures FreshAnswer(t, a) { AnswerStays(s, t, a); }
  }

  lemma {:induction false} ExecKeepsInv(labels: seq<Label>)
    requires PlainLabels(labels)
    ensures Inv(Exec(labels))
  {
    hide Inv, Step;
    if labels != [] {
      var n := |labels| - 1;
      ExecKeepsInv(labels[..n]);
      var s := Exec(labels[..n]);
      assert PlainLabel(labels[n]);
      match labels[n]
      case Wrap(key, rs) => WrapKeepsInv(s, key, rs);
      case Bump(r) => BumpKeepsInv(s, r);
      case Resolve(_, _) => OtherKeepsInv(s, labels[n]);
      case Settle(_, _) => OtherKeepsInv(s, labels[n]);
      case Expire(_) => OtherKeepsInv(s, labels[n]);
    } else {
      InitialIsInv();
    }
  }

  lemma InitialIsInv()
    ensures Inv(INITIAL)
  {
  }

  /**
   * No stale answer: whatever wraps, bumps, completions, failures and expiries interleave, the value a
   * call returns was computed from a start after the latest bump, at call time, of every resource of
   * the call, even when an older computation finishes after the bump.
   */
  lemma NeverStale(labels: seq<Label>, a: Answer, b: Bumped)
    requires PlainLabels(labels)
    requires var s := Exec(labels); a in s.answers && b in s.bumps
    requires b.resource in a.resources && b.at < a.calledAt
    ensures b.at < a.startedAt
  {
    hide Exec;
    ExecKeepsInv(labels);
    assert FreshAnswer(Exec(labels), a);
  }

  /** No mixed-up answer: the value a call returns was computed for a call with the same key and resources. */
  lemma NeverMixed(labels: seq<Label>, a: Answer)
    requires PlainLabels(labels) && a in Exec(labels).answers
    ensures Answered(Exec(labels), a)
  {
    hide Exec;
    ExecKeepsInv(labels);
    assert FreshAnswer(Exec(labels), a);
  }

  ghost predicate OneEach(s: State) {
    forall k, id | (k, id) in s.running :: k in s.inflight && s.inflight[k] == id
  }

  lemma StepKeepsOneEach(s: State, l: Label)
    requires OneEach(s)
    ensures OneEach(Step(s, l))
  {
    hide Render;
  }

  lemma {:induction false} ExecKeepsOneEach(labels: seq<Label>)
    ensures OneEach(Exec(labels))
  {
    hide Step, OneEach;
    if labels != [] {
      ExecKeepsOneEach(labels[..|labels| - 1]);
      StepKeepsOneEach(Exec(labels[..|labels| - 1]), labels[|labels| - 1]);
    } else {
      assert OneEach(INITIAL) by { InitialIsOneEach(); }
    }
  }

  lemma InitialIsOneEach()
    ensures OneEach(INITIAL)
  {
  }

  /** At most one computation per resolved key is in flight, whatever the resources are called. */
  lemma OneInFlight(labels: seq<Label>, k: Rendered, id: nat, id': nat)
    requires var s := Exec(labels); (k, id) in s.running && (k, id') in s.running
    ensures id == id'
  {
    hide Exec;
    ExecKeepsOneEach(labels);
  }

  // ----- what a call is answered with

  function KeyOf(s: State, key: string, rs: seq<Resource>): Rendered {
    Render(Key(key, VersionKey(s.versions, rs)))
  }

  /** Nothing is bumped or expired that a call for `rs` under `k` depends on. */
  ghost predicate Quiet(labels: seq<Label>, k: Rendered, rs: seq<Resource>) {
    forall l | l in labels :: l != Expire(k) && (l.Bump? ==> l.resource !in rs)
  }

  lemma QuietKeepsKey(s: State, l: Label, key: string, rs: seq<Resource>)
    requires l.Bump? ==> l.resource !in rs
    ensures KeyOf(Step(s, l), key, rs) == KeyOf(s, key, rs)
  {
    assert VersionKey(Step(s, l).versions, rs) == VersionKey(s.versions, rs);
  }

  /** The only computation under `k`, if there is one, is `id`. */
  ghost predicate OnlyRuns(s: State, k: Rendered, id: nat) {
    forall other | (k, other) in s.running :: other == id
  }

  lemma {:induction false} StaysCached(before: seq<Label>, more: seq<Label>, key: string, rs: seq<Resource>, id: nat)
    requires var s := Exec(before);
             var k := KeyOf(s, key, rs);
             k in s.cache && s.cache[k] == id && OnlyRuns(s, k, id) && Quiet(more, k, rs)
    ensures var s, t := Exec(before), Exec(before + more);
            var k := KeyOf(s, key, rs);
            KeyOf(t, key, rs) == k && k in t.cache && t.cache[k] == id && OnlyRuns(t, k, id)
  {
    hide Exec, KeyOf, Render;
    if more == [] {
      assert before + more == before;
    } else {
      var n := |more| - 1;
      StaysCached(before, more[..n], key, rs, id);
      ExecAppend(before + more[..n], more[n]);
      assert before + more == before + more[..n] + [more[n]];
      assert more[n] in more;
      QuietKeepsKey(Exec(before + more[..n]), more[n], key, rs);
    }
  }

  /**
   * A computed value is served: once a computation has resolved, every later call with its key and
   * resources is answered with it, however many come, as long as no resource is bumped and the entry
   * does not expire; and no other computation is started for it.
   */
  lemma ResolvedIsServed(before: seq<Label>, more: seq<Label>, key: string, rs: seq<Resource>, id: nat)
    requires (KeyOf(Exec(before), key, rs), id) in Exec(before).running
    requires Quiet(more, KeyOf(Exec(before), key, rs), rs)
    ensures var k := KeyOf(Exec(before), key, rs);
            var t := Exec(before + [Resolve(k, id)] + more);
            var u := Step(t, Wrap(key, rs));
            u.answers == t.answers + [Answer(t.clock, key, rs, id)] && u.running == t.running
  {
    hide Exec, Render, VersionKey;
    var s := Exec(before);
    var k := KeyOf(s, key, rs);
    ExecKeepsOneEach(before);
    ExecAppend(before, Resolve(k, id));
    StaysCached(before + [Resolve(k, id)], more, key, rs, id);
  }

  /** A call for a running computation joins it instead of starting another. */
  lemma RunningIsJoined(before: seq<Label>, key: string, rs: seq<Resource>, id: nat)
    requires var s := Exec(before); var k := KeyOf(s, key, rs); (k, id) in s.running && k !in s.cache
    ensures var s := Exec(before);
            var t := Step(s, Wrap(key, rs));
            t.answers == s.answers + [Answer(s.clock, key, rs, id)] && t.running == s.running
  {
    hide Exec, Render, VersionKey;
    ExecKeepsOneEach(before);
  }

  /** A computation that ended without a value is forgotten: the next call starts a new one. */
  lemma FailureIsRetried(before: seq<Label>, key: string, rs: seq<Resource>, id: nat)
    requires var s := Exec(before); var k := KeyOf(s, key, rs); (k, id) in s.running && k !in s.cache
    ensures var s := Exec(before);
            var k := KeyOf(s, key, rs);
            var t := Exec(before + [Settle(k, id)]);
            var u := Step(t, Wrap(key, rs));
            && u.answers == t.answers + [Answer(t.clock, key, rs, t.clock)]
            && (k, t.clock) in u.running && t.clock > s.clock
  {
    hide Exec, Render, VersionKey;
    ExecAppend(before, Settle(KeyOf(Exec(before), key, rs), id));
  }

  // ----- resources that are not plain

  function Bumps(r: Resource, n: nat): seq<Label> {
    seq(n, i requires 0 <= i < n => Bump(r))
  }

  ghost predicate BumpedSince(s: State, r: Resource, time: nat) {
    exists b :: b in s.bumps && b.resource == r && time <= b.at < s.clock
  }

  /** What bumping a resource again and again changes. */
  lemma {:induction false} BumpMany(labels: seq<Label>, r: Resource, n: nat)
    ensures var s, t := Exec(labels), Exec(labels + Bumps(r, n));
            && t.cache == s.cache && t.inflight == s.inflight && t.answers == s.answers && t.clock == s.clock + n
            && (forall q :: VersionOf(t.versions, q) == VersionOf(s.versions, q) + (if q == r then n else 0))
            && (n > 0 ==> BumpedSince(t, r, s.clock))
  {
    hide Exec;
    if n == 0 {
      assert labels + Bumps(r, n) == labels;
    } else {
      BumpMany(labels, r, n - 1);
      ExecAppend(labels + Bumps(r, n - 1), Bump(r));
      assert labels + Bumps(r, n) == labels + Bumps(r, n - 1) + [Bump(r)];
      BumpOnce(Exec(labels + Bumps(r, n - 1)), r, Exec(labels).clock);
    }
  }

  lemma BumpOnce(s: State, r: Resource, time: nat)
    requires time <= s.clock
    ensures var t := Step(s, Bump(r));
            && t.cache == s.cache && t.inflight == s.inflight && t.answers == s.answers && t.clock == s.clock + 1
            && (forall q :: VersionOf(t.versions, q) == VersionOf(s.versions, q) + (if q == r then 1 else 0))
            && BumpedSince(t, r, time)
  {
    var t := Step(s, Bump(r));
    assert t.bumps[|s.bumps|] in t.bumps;
  }

  lemma ExecAppend(labels: seq<Label>, l: Label)
    ensures Exec(labels + [l]) == Step(Exec(labels), l)
  {
    assert (labels + [l])[..|labels|] == labels;
  }

  /** `r` is bumped `m` times and wrapped; then `x` is bumped `n` times, and another call is made. */
  ghost function Twice(m: nat, r: Resource, n: nat, x: Resource, first: Label, second: Label): seq<Label> {
    Bumps(r, m) + [first] + Bumps(x, n) + [second]
  }

  function SeenVersion(m: nat, r: Resource, n: nat, x: Resource, q: Resource): nat {
    (if q == r then m else 0) + (if q == x then n else 0)
  }

  /** When the second call has the string of the first, the computation of the first answers it. */
  lemma SecondJoins(m: nat, r: Resource, n: nat, x: Resource, key: string, key': string, vs: seq<(Resource, nat)>)
    requires forall i | 0 <= i < |vs| :: vs[i].1 == SeenVersion(m, r, n, x, vs[i].0)
    requires Render(Key(key, [(r, m)])) == Render(Key(key', vs))
    ensures var rs := Resources(Key(key', vs));
            var s := Exec(Twice(m, r, n, x, Wrap(key, [r]), Wrap(key', rs)));
            && s.answers == [Answer(m + 1, key, [r], m + 1), Answer(m + n + 2, key', rs, m + 1)]
            && (n > 0 ==> BumpedBetween(s, x, m + 1, m + n + 2))
  {
    hide Render, Exec;
    var rs := Resources(Key(key', vs));
    var l1 := Bumps(r, m);
    var l2 := l1 + [Wrap(key, [r])];
    var l3 := l2 + Bumps(x, n);
    Beginning();
    BumpMany([], r, m);
    assert [] + l1 == l1;
    ExecAppend(l1, Wrap(key, [r]));
    assert VersionKey(Exec(l1).versions, [r]) == [(r, m)];
    BumpMany(l2, x, n);
    ExecAppend(l3, Wrap(key', rs));
    assert VersionKey(Exec(l3).versions, rs) == vs;
  }

  lemma Beginning()
    ensures Exec([]) == INITIAL
  {
  }

  ghost predicate BumpedBetween(s: State, r: Resource, from: nat, until: nat) {
    exists b :: b in s.bumps && b.resource == r && from < b.at < until
  }

  /**
   * Plainness is what it takes: every resource that is not plain has a schedule in which a call for it
   * answers another call, one with a different key or different resources.
   */
  lemma UnplainMixes(key: string, r: Resource) returns (labels: seq<Label>)
    requires !PlainResource(r)
    ensures Wrap(key, [r]) in labels
    ensures exists a :: a in Exec(labels).answers && !Answered(Exec(labels), a)
  {
    hide Render, Exec;
    var m, n, x, key', vs := FindClash(key, r);
    var rs := Resources(Key(key', vs));
    labels := Twice(m, r, n, x, Wrap(key, [r]), Wrap(key', rs));
    SecondJoins(m, r, n, x, key, key', vs);
    var s := Exec(labels);
    assert s.answers[1] in s.answers && !Answered(s, s.answers[1]);
  }

  lemma FindClash(key: string, r: Resource)
    returns (m: nat, n: nat, x: Resource, key': string, vs: seq<(Resource, nat)>)
    requires !PlainResource(r)
    ensures forall i | 0 <= i < |vs| :: vs[i].1 == SeenVersion(m, r, n, x, vs[i].0)
    ensures Render(Key(key, [(r, m)])) == Render(Key(key', vs))
    ensures key' != key || |vs| > 1
  {
    hide Render, RenderVersion;
    if '#' in r {
      var i :| 0 <= i < |r| && r[i] == '#';
      assert r == r[..i] + ['#'] + r[i + 1..];
      m, n, x, key', vs := 0, 0, r, key + ['#'] + r[..i], [(r[i + 1..], 0)];
      HashClashes(key, r[..i], r[i + 1..], 0);
    } else {
      var i :| 0 <= i < |r| && r[i] == ',' && Versioned(r[..i]);
      var v: (Resource, nat) :| r[..i] == RenderVersion(v);
      var y := r[i + 1..];
      assert r == RenderVersion(v) + [','] + y;
      x, n, key' := v.0, v.1, key;
      m := if x == y then n else 0;
      vs := [(x, n), (y, m)];
      assert |x| < |r| && |y| < |r| by { ShorterThanVersion(v); }
      CommaClashes(key, x, n, y, m);
    }
  }

  lemma ShorterThanVersion(v: (Resource, nat))
    ensures |v.0| < |RenderVersion(v)|
  {
  }

  /**
   * And the answer can be stale: with a resource like `x@1,y`, a call for `x` and `y` is answered by a
   * computation from before the latest bump of `x`.
   */
  lemma CommaIsStale(key: string, x: Resource, n: nat, y: Resource)
    requires n > 0
    ensures var r := RenderVersion((x, n)) + [','] + y;
            var s := Exec(Twice(if x == y then n else 0, r, n, x, Wrap(key, [r]), Wrap(key, [x, y])));
            exists a, b :: a in s.answers && b in s.bumps && b.resource in a.resources
                           && a.startedAt < b.at < a.calledAt
  {
    hide Render, Exec, RenderVersion;
    var r := RenderVersion((x, n)) + [','] + y;
    var m := if x == y then n else 0;
    var vs := [(x, n), (y, m)];
    assert |x| < |r| && |y| < |r| by { ShorterThanVersion((x, n)); }
    CommaClashes(key, x, n, y, m);
    SecondJoins(m, r, n, x, key, key, vs);
    assert Resources(Key(key, vs)) == [x, y];
    var s := Exec(Twice(m, r, n, x, Wrap(key, [r]), Wrap(key, [x, y])));
    var b :| b in s.bumps && b.resource == x && m + 1 < b.at < m + n + 2;
    var a := s.answers[1];
    assert a in s.answers && b.resource in a.resources;
  }
}
