/** The closed-loop load stage: a fixed number of workers share one iterator over the scenarios.

Between two awaits a worker runs undisturbed, so finishing one request and starting the next is a
single step.  Scenarios are named by their position. */
module ClosedLoop {
  import opened Wrappers

  datatype Stage = Stage(scenarios: nat, limit: nat)

  /** unstarted workers have not run yet; failed scenarios raised and took their worker with them. */
  datatype State = State(next: nat, unstarted: nat, running: set<nat>, results: seq<nat>, failed: set<nat>,
                         active: int, peak: int)

  function Workers(stage: Stage): nat { if stage.limit <= stage.scenarios then stage.limit else stage.scenarios }

  function Initial(stage: Stage): State { State(0, Workers(stage), {}, [], {}, 0, 0) }

  /** The for statement of a worker asks the shared iterator for one more scenario. */
  function Take(stage: Stage, s: State): State {
    if s.next >= stage.scenarios then s
    else s.(next := s.next + 1, running := s.running + {s.next}, active := s.active + 1, peak := Max(s.peak, s.active + 1))
  }

  ghost predicate Begin(stage: Stage, s: State, s': State) {
    s.unstarted > 0 && s' == Take(stage, s.(unstarted := s.unstarted - 1))
  }

  ghost predicate Return(stage: Stage, s: State, s': State, k: nat) {
    k in s.running && s' == Take(stage, s.(running := s.running - {k}, results := s.results + [k], active := s.active - 1))
  }

  ghost predicate Raise(s: State, s': State, k: nat) {
    k in s.running && s' == s.(running := s.running - {k}, failed := s.failed + {k}, active := s.active - 1)
  }

  ghost predicate Step(stage: Stage, s: State, s': State) {
    Begin(stage, s, s') || (exists k :: Return(stage, s, s', k)) || (exists k :: Raise(s, s', k))
  }

  ghost predicate Run(stage: Stage, trace: seq<State>) {
    && trace != [] && trace[0] == Initial(stage)
    && forall j, k | 0 <= j < |trace| && 0 <= k < |trace| && k == j + 1 :: Step(stage, trace[j], trace[k])
  }

  // ---------- what every step keeps ----------

  /** Every scenario taken so far is running, answered or failed, exactly once. */
  ghost predicate Accounted(s: State) {
    forall k: nat :: multiset(s.running)[k] + multiset(s.results)[k] + multiset(s.failed)[k] == if k < s.next then 1 else 0
  }

  /** The counter is the number of running requests; workers that are gone failed or found the
      iterator empty. */
  ghost predicate Staffed(stage: Stage, s: State) {
    && s.next <= stage.scenarios && |s.running| + |s.results| + |s.failed| == s.next
    && s.active == |s.running| && s.active <= s.peak <= Workers(stage)
    && s.unstarted + |s.running| + |s.failed| <= Workers(stage)
    && (s.unstarted + |s.running| + |s.failed| < Workers(stage) ==> s.next == stage.scenarios)
  }

  ghost predicate Invariant(stage: Stage, s: State) { Accounted(s) && Staffed(stage, s) }

  lemma {:induction false} TakeKeeps(stage: Stage, s: State)
    requires Accounted(s) && s.next <= stage.scenarios && s.active == |s.running| <= Workers(stage)
    requires |s.running| + |s.results| + |s.failed| == s.next
    requires s.unstarted + |s.running| + |s.failed| < Workers(stage) && s.active <= s.peak <= Workers(stage)
    requires s.unstarted + |s.running| + |s.failed| + 1 < Workers(stage) ==> s.next == stage.scenarios
    ensures Invariant(stage, Take(stage, s))
  {
    if s.next < stage.scenarios {
      assert multiset(s.running)[s.next] == 0;
      assert s.next !in s.running;
      var s' := Take(stage, s);
      forall k: nat
        ensures multiset(s'.running)[k] + multiset(s'.results)[k] + multiset(s'.failed)[k] == if k < s'.next then 1 else 0
      {
        assert multiset(s'.running)[k] == multiset(s.running)[k] + if k == s.next then 1 else 0;
      }
    }
  }

  lemma {:induction false} Leave(s: State, k: nat)
    requires Accounted(s) && k in s.running
    ensures |s.running - {k}| == |s.running| - 1 && k !in s.failed && |s.failed + {k}| == |s.failed| + 1
    ensures Accounted(s.(running := s.running - {k}, results := s.results + [k], active := s.active - 1))
    ensures Accounted(s.(running := s.running - {k}, failed := s.failed + {k}, active := s.active - 1))
  {
    assert multiset(s.running)[k] == 1;
    assert multiset(s.failed)[k] == 0;
    assert s.running == (s.running - {k}) + {k};
    forall j: nat
      ensures multiset(s.running - {k})[j] == multiset(s.running)[j] - if j == k then 1 else 0
      ensures multiset(s.results + [k])[j] == multiset(s.results)[j] + if j == k then 1 else 0
      ensures multiset(s.failed + {k})[j] == multiset(s.failed)[j] + if j == k then 1 else 0
    {}
  }

  lemma {:induction false} StepKeeps(stage: Stage, s: State, s': State)
    requires Invariant(stage, s) && Step(stage, s, s')
    ensures Invariant(stage, s')
  {
    hide Begin, Return, Raise, Invariant;
    if Begin(stage, s, s') {
      BeginKeeps(stage, s, s');
    } else if k :| Return(stage, s, s', k) {
      ReturnKeeps(stage, s, s', k);
    } else if k :| Raise(s, s', k) {
      RaiseKeeps(stage, s, s', k);
    }
  }

  lemma {:induction false} BeginKeeps(stage: Stage, s: State, s': State)
    requires Invariant(stage, s) && Begin(stage, s, s')
    ensures Invariant(stage, s')
  {
    hide Take;
    TakeKeeps(stage, s.(unstarted := s.unstarted - 1));
  }

  lemma {:induction false} ReturnKeeps(stage: Stage, s: State, s': State, k: nat)
    requires Invariant(stage, s) && Return(stage, s, s', k)
    ensures Invariant(stage, s')
  {
    Leave(s, k);
    hide Accounted, Take;
    TakeKeeps(stage, s.(running := s.running - {k}, results := s.results + [k], active := s.active - 1));
  }

  lemma {:induction false} RaiseKeeps(stage: Stage, s: State, s': State, k: nat)
    requires Invariant(stage, s) && Raise(s, s', k)
    ensures Invariant(stage, s')
  {
    Leave(s, k);
    hide Accounted;
  }

  lemma {:induction false} RunKeeps(stage: Stage, trace: seq<State>, k: nat)
    requires Run(stage, trace) && k < |trace|
    ensures Invariant(stage, trace[k])
  {
    if k > 0 {
      RunKeeps(stage, trace, k - 1);
      hide Invariant, Step;
      StepKeeps(stage, trace[k - 1], trace[k]);
    }
  }

  // ---------- whole runs ----------

  /** All workers have returned. */
  ghost predicate Finished(s: State) { s.unstarted == 0 && s.running == {} && s.failed == {} }

  /** A finished stage has answered every scenario exactly once, and never more than the limit were
      in flight.  (The specification parser only admits positive limits; the model's boundary value
      zero has no workers.) */
  lemma {:induction false} OneResultEach(stage: Stage, trace: seq<State>)
    requires Run(stage, trace) && Finished(trace[|trace| - 1])
    ensures var answered := multiset(trace[|trace| - 1].results);
      forall k: nat :: answered[k] == if k < stage.scenarios && stage.limit > 0 then 1 else 0
    ensures forall j | 0 <= j < |trace| :: |trace[j].running| <= stage.limit
  {
    var last := trace[|trace| - 1];
    forall j | 0 <= j < |trace| ensures |trace[j].running| <= stage.limit { RunKeeps(stage, trace, j); }
    RunKeeps(stage, trace, |trace| - 1);
    if stage.limit == 0 { NoWorkers(stage, trace); }
  }

  lemma {:induction false} NoWorkers(stage: Stage, trace: seq<State>)
    requires Run(stage, trace) && stage.limit == 0
    ensures trace == [Initial(stage)]
  {
    if |trace| > 1 { NoStep(stage, trace[1]); }
  }

  lemma {:induction false} NoStep(stage: Stage, s': State)
    requires stage.limit == 0
    ensures !Step(stage, Initial(stage), s')
  {}

  ghost predicate GreatestInFlight(peak: int, trace: seq<State>) {
    && (forall j | 0 <= j < |trace| :: |trace[j].running| <= peak)
    && exists j :: 0 <= j < |trace| && |trace[j].running| == peak
  }

  /** The peak is the greatest number of requests ever in flight. */
  lemma {:induction false} PeakIsMaximum(stage: Stage, trace: seq<State>)
    requires Run(stage, trace)
    ensures GreatestInFlight(trace[|trace| - 1].peak, trace)
    decreases |trace|
  {
    assert trace != [];
    hide *;
    var n := |trace| - 1;
    if n == 0 {
      PeakFirst(stage, trace);
    } else {
      RunKeeps(stage, trace, n - 1);
      RunKeeps(stage, trace, n);
      RunFront(stage, trace);
      StepPeak(stage, trace[n - 1], trace[n]);
      PeakIsMaximum(stage, trace[..n]);
      PeakGrows(trace[..n], trace[n]);
      assert trace == trace[..n] + [trace[n]];
    }
  }

  lemma {:induction false} PeakFirst(stage: Stage, trace: seq<State>)
    requires Run(stage, trace) && |trace| == 1
    ensures GreatestInFlight(trace[0].peak, trace)
  {
    assert |trace[0].running| == trace[0].peak;
  }

  lemma {:induction false} RunFront(stage: Stage, trace: seq<State>)
    requires Run(stage, trace) && |trace| > 1
    ensures Run(stage, trace[..|trace| - 1]) && Step(stage, trace[|trace| - 2], trace[|trace| - 1])
  {
    hide Step;
  }

  lemma {:induction false} PeakGrows(front: seq<State>, last: State)
    requires front != []
    requires last.peak == front[|front| - 1].peak || (last.peak > front[|front| - 1].peak && last.peak == |last.running|)
    requires |last.running| <= last.peak
    requires GreatestInFlight(front[|front| - 1].peak, front)
    ensures GreatestInFlight(last.peak, front + [last])
  {
    var j :| 0 <= j < |front| && |front[j].running| == front[|front| - 1].peak;
    var trace := front + [last];
    assert trace[j] == front[j] && trace[|front|] == last;
  }

  lemma {:induction false} StepPeak(stage: Stage, s: State, s': State)
    requires Invariant(stage, s) && Invariant(stage, s') && Step(stage, s, s')
    ensures s'.peak == s.peak || (s'.peak > s.peak && s'.peak == |s'.running|)
    ensures |s'.running| <= s'.peak
  {
    hide Accounted;
  }

  /** No worker rests while scenarios are waiting: until the iterator is empty or a request has
      failed, all started workers are busy. */
  lemma {:induction false} NobodyRests(stage: Stage, trace: seq<State>, k: nat)
    requires Run(stage, trace) && k < |trace| && trace[k].next < stage.scenarios && trace[k].failed == {}
    ensures |trace[k].running| == Workers(stage) - trace[k].unstarted
  {
    RunKeeps(stage, trace, k);
  }

  // ---------- runs end, and only at the end ----------

  function Rank(stage: Stage, s: State): int {
    s.unstarted + stage.scenarios - |s.results| - |s.failed|
  }

  lemma {:induction false} StepDescends(stage: Stage, s: State, s': State)
    requires Invariant(stage, s) && Step(stage, s, s')
    ensures Rank(stage, s') == Rank(stage, s) - 1
  {
    if k :| Raise(s, s', k) { Leave(s, k); }
    hide Accounted, Staffed;
  }

  lemma {:induction false} RunRank(stage: Stage, trace: seq<State>, k: nat)
    requires Run(stage, trace) && k < |trace|
    ensures Rank(stage, trace[k]) == Workers(stage) + stage.scenarios - k
  {
    if k > 0 {
      RunRank(stage, trace, k - 1);
      RunKeeps(stage, trace, k - 1);
      assert Step(stage, trace[k - 1], trace[k]);
      hide *;
      StepDescends(stage, trace[k - 1], trace[k]);
    }
  }

  /** No schedule takes more steps than one per worker and one per scenario. */
  lemma {:induction false} RunsAreShort(stage: Stage, trace: seq<State>)
    requires Run(stage, trace)
    ensures |trace| <= Workers(stage) + stage.scenarios + 1
  {
    RunRank(stage, trace, |trace| - 1);
    RunKeeps(stage, trace, |trace| - 1);
    hide Run, Accounted;
  }

  /** The stage can go on until all workers have returned or failed. */
  lemma {:induction false} NeverStuck(stage: Stage, s: State) returns (s': State)
    requires s.unstarted > 0 || s.running != {}
    ensures Step(stage, s, s')
  {
    if s.unstarted > 0 {
      s' := Take(stage, s.(unstarted := s.unstarted - 1));
      assert Begin(stage, s, s');
    } else {
      var k :| k in s.running;
      s' := Take(stage, s.(running := s.running - {k}, results := s.results + [k], active := s.active - 1));
      assert Return(stage, s, s', k);
    }
  }

  /** Once all workers have started, and while scenarios are left and none has failed, exactly as many
      requests are in flight as the limit allows. */
  lemma {:induction false} AsManyAsAllowed(stage: Stage, trace: seq<State>, k: nat)
    requires Run(stage, trace) && k < |trace|
    requires trace[k].unstarted == 0 && trace[k].failed == {} && trace[k].next < stage.scenarios
    ensures |trace[k].running| == stage.limit
  {
    NobodyRests(stage, trace, k);
    RunKeeps(stage, trace, k);
    hide Run, Accounted;
  }
}
