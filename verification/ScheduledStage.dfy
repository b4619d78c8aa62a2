/** The scheduled load stage as a protocol over its steps.

One coroutine walks the arrival groups; between arrivals, whenever it is suspended, any running
request may finish.  Every interleaving of arrivals and completions is a run. */
module ScheduledStage {
  import opened Wrappers

  type Id = nat

  // ---------- arrival groups ----------

  datatype Arrival = Arrival(id: Id, offset: int)

  function Ids(arrivals: seq<Arrival>): (r: seq<Id>)
    ensures |r| == |arrivals| && forall k | 0 <= k < |r| :: r[k] == arrivals[k].id
  { Project((a: Arrival) => a.id, arrivals) }

  function Flatten(groups: seq<seq<Arrival>>): seq<Arrival> {
    if groups == [] then [] else groups[0] + Flatten(groups[1..])
  }

  /** groupby on the offset when the mode is "scheduled", singletons otherwise */
  function Grouped(arrivals: seq<Arrival>, scheduled: bool): seq<seq<Arrival>> {
    if arrivals == [] then []
    else
      var rest := Grouped(arrivals[1..], scheduled);
      if scheduled && rest != [] && rest[0] != [] && rest[0][0].offset == arrivals[0].offset
      then [[arrivals[0]] + rest[0]] + rest[1..]
      else [[arrivals[0]]] + rest
  }

  /** Grouping keeps the arrivals in order; in scheduled mode a group is a maximal run of equal
      offsets, otherwise every group has one member. */
  lemma {:induction false} GroupedMeans(arrivals: seq<Arrival>, scheduled: bool)
    ensures Flatten(Grouped(arrivals, scheduled)) == arrivals
    ensures MaximalRuns(Grouped(arrivals, scheduled), scheduled)
  {
    if arrivals != [] {
      GroupedMeans(arrivals[1..], scheduled);
      var rest := Grouped(arrivals[1..], scheduled);
      assert arrivals == [arrivals[0]] + arrivals[1..];
      hide Grouped;
      GroupFirst(arrivals[0], rest, scheduled);
    }
  }

  /** Non-empty, of one offset in scheduled mode and of one member otherwise. */
  ghost predicate IsGroup(g: seq<Arrival>, scheduled: bool) {
    && g != []
    && if scheduled then forall i | 0 <= i < |g| :: g[i].offset == g[0].offset else |g| == 1
  }

  ghost predicate MaximalRuns(groups: seq<seq<Arrival>>, scheduled: bool) {
    && (forall k | 0 <= k < |groups| :: IsGroup(groups[k], scheduled))
    && (scheduled ==> forall j, k | 0 <= j < |groups| && 0 <= k < |groups| && k == j + 1 ::
          groups[j][0].offset != groups[k][0].offset)
  }

  /** Putting one more arrival in front of groups keeps them groups. */
  lemma {:induction false} GroupFirst(a: Arrival, rest: seq<seq<Arrival>>, scheduled: bool)
    requires MaximalRuns(rest, scheduled)
    ensures var groups := if scheduled && rest != [] && rest[0] != [] && rest[0][0].offset == a.offset
                          then [[a] + rest[0]] + rest[1..] else [[a]] + rest;
      && Flatten(groups) == [a] + Flatten(rest)
      && MaximalRuns(groups, scheduled)
  {
    if scheduled && rest != [] && rest[0][0].offset == a.offset {
      var groups := [[a] + rest[0]] + rest[1..];
      assert groups[1..] == rest[1..];
      assert groups[0][0].offset == rest[0][0].offset;
      assert forall k | 0 < k < |groups| :: groups[k] == rest[k];
    } else {
      var groups := [[a]] + rest;
      assert groups[1..] == rest;
      assert forall k | 0 < k < |groups| :: groups[k] == rest[k - 1];
    }
  }

  // ---------- the protocol ----------

  /** How a request task ends: with a result, with an exception, or cancelled. */
  datatype Finish = Returned | Raised | Cancelled

  /** A result with the scenario it stands for.  The program's record of a raised task does not name
      the scenario; here it carries the id of the task it was made from. */
  datatype Result = Measured(id: Id) | TaskFailed(id: Id) | Saturated(id: Id)

  datatype Phase = Arriving | Ended | Aborted

  datatype State = State(next: nat, running: set<Id>, done: map<Id, Finish>, results: seq<Result>,
                         active: int, peak: int, peakPending: int, phase: Phase)

  /** A stage: its groups of scenario ids and its concurrency limit. */
  datatype Stage = Stage(groups: seq<seq<Id>>, limit: nat)

  const START := State(0, {}, map[], [], 0, 0, 0, Arriving)

  function AsSet(xs: seq<Id>): set<Id> { set x | x in xs }

  /** The finished tasks in the order they are collected. */
  ghost predicate Orders(order: seq<Id>, done: map<Id, Finish>) { multiset(order) == multiset(done.Keys) }

  function Collect(order: seq<Id>, done: map<Id, Finish>): seq<Result> {
    if order == [] then [] else
      var front, id := Collect(order[..|order| - 1], done), order[|order| - 1];
      if id !in done || done[id] == Cancelled then front
      else front + [if done[id] == Returned then Measured(id) else TaskFailed(id)]
  }

  function SaturatedResults(g: seq<Id>): (r: seq<Result>)
    ensures |r| == |g| && forall k | 0 <= k < |r| :: r[k] == Saturated(g[k])
  { seq(|g|, k requires 0 <= k < |g| => Saturated(g[k])) }

  /** A running request finishes; its counter is released on every path. */
  ghost predicate Complete(s: State, s': State, id: Id, finish: Finish) {
    && s.phase == Arriving && id in s.running
    && s' == s.(running := s.running - {id}, done := s.done[id := finish], active := s.active - 1)
  }

  /** A cancelled task makes harvesting raise out of the stage. */
  ghost predicate Abort(stage: Stage, s: State, s': State) {
    && s.phase == Arriving && s.next < |stage.groups| && (exists id :: id in s.done && s.done[id] == Cancelled)
    && s' == s.(phase := Aborted)
  }

  /** The next group arrives: finished tasks are harvested, then the group is admitted as a whole
      or reported as saturated as a whole. */
  ghost predicate Arrive(stage: Stage, s: State, s': State, order: seq<Id>) {
    && s.phase == Arriving && s.next < |stage.groups|
    && Orders(order, s.done) && (forall id | id in s.done :: s.done[id] != Cancelled)
    && var g := stage.groups[s.next];
       var harvested := s.(next := s.next + 1, done := map[], results := s.results + Collect(order, s.done));
       s' == if s.active + |g| > stage.limit
             then harvested.(results := harvested.results + SaturatedResults(g))
             else harvested.(running := s.running + AsSet(g), active := s.active + |g|,
                             peak := Max(s.peak, s.active + |g|),
                             peakPending := Max(s.peakPending, |s.running + AsSet(g)|))
  }

  /** After the last group all tasks are awaited; a cancelled one yields no result. */
  ghost predicate Gather(stage: Stage, s: State, s': State, order: seq<Id>) {
    && s.phase == Arriving && s.next == |stage.groups| && s.running == {} && Orders(order, s.done)
    && s' == s.(results := s.results + Collect(order, s.done), phase := Ended)
  }

  ghost predicate Step(stage: Stage, s: State, s': State) {
    || (exists id, finish :: Complete(s, s', id, finish))
    || Abort(stage, s, s')
    || (exists order :: Arrive(stage, s, s', order))
    || (exists order :: Gather(stage, s, s', order))
  }

  ghost predicate Run(stage: Stage, trace: seq<State>) {
    && trace != [] && trace[0] == START
    && forall k | 0 <= k < |trace| - 1 :: Step(stage, trace[k], trace[k + 1])
  }

  // ---------- what every step keeps ----------

  function All(groups: seq<seq<Id>>): multiset<Id> {
    if groups == [] then multiset{} else All(groups[..|groups| - 1]) + multiset(groups[|groups| - 1])
  }

  function Owners(results: seq<Result>): (r: seq<Id>)
    ensures |r| == |results| && forall k | 0 <= k < |r| :: r[k] == results[k].id
  { Project((r: Result) => r.id, results) }

  function CancelledIn(done: map<Id, Finish>): set<Id> { set id | id in done && done[id] == Cancelled }

  /** No scenario occurs twice. */
  ghost predicate NoRepeats(groups: seq<seq<Id>>) { forall id :: All(groups)[id] <= 1 }

  /** Every scenario that has arrived is accounted for exactly once: by a result, by a finished
      task or by a running one. */
  ghost predicate Accounted(stage: Stage, s: State) {
    && 0 <= s.next <= |stage.groups|
    && multiset(Owners(s.results)) +
         (if s.phase == Ended then multiset(CancelledIn(s.done)) else multiset(s.done.Keys)) +
         multiset(s.running) == All(stage.groups[..s.next])
    && (s.phase == Ended ==> s.next == |stage.groups| && s.running == {})
  }

  /** The counters mean what they say, and the limit holds. */
  ghost predicate Counted(stage: Stage, s: State) {
    s.active == |s.running| <= s.peak <= stage.limit && s.peakPending == s.peak
  }

  /** A group is reported saturated as a whole or not at all. */
  ghost predicate Whole(g: seq<Id>, results: seq<Result>) {
    || (forall id | id in g :: Saturated(id) in results)
    || (forall id | id in g :: Saturated(id) !in results)
  }

  ghost predicate AllWhole(stage: Stage, s: State) {
    && 0 <= s.next <= |stage.groups|
    && (forall k | 0 <= k < s.next :: Whole(stage.groups[k], s.results))
    && (forall id | Saturated(id) in s.results :: id in All(stage.groups[..s.next]))
  }

  lemma {:induction false} AllSplit(groups: seq<seq<Id>>, k: nat)
    requires k < |groups|
    ensures All(groups[..k + 1]) == All(groups[..k]) + multiset(groups[k])
  {
    assert groups[..k + 1][..k] == groups[..k];
  }

  lemma {:induction false} AllGrows(groups: seq<seq<Id>>, k: nat)
    requires k <= |groups|
    ensures All(groups[..k]) <= All(groups)
    decreases |groups| - k
  {
    if k < |groups| {
      AllSplit(groups, k);
      AllGrows(groups, k + 1);
    } else {
      assert groups[..k] == groups;
    }
  }

  lemma {:induction false} Collected(order: seq<Id>, done: map<Id, Finish>)
    requires forall k | 0 <= k < |order| :: order[k] in done
    requires forall id :: multiset(order)[id] <= 1
    ensures multiset(Owners(Collect(order, done))) + (multiset(order) * multiset(CancelledIn(done))) == multiset(order)
    ensures forall r | r in Collect(order, done) :: !r.Saturated?
  {
    if order != [] {
      var front, id := order[..|order| - 1], order[|order| - 1];
      assert order == front + [id];
      assert multiset(order) == multiset(front) + multiset{id};
      forall x ensures multiset(front)[x] <= 1 { assert multiset(front)[x] <= multiset(order)[x]; }
      assert id in done;
      Collected(front, done);
      OwnersAppend(Collect(front, done), if done[id] == Returned then Measured(id) else TaskFailed(id));
      assert multiset(order)[id] <= 1;
      CollectLast(front, id, done);
      assert id in CancelledIn(done) <==> done[id] == Cancelled;
      hide *;
      OneMoreCancelled(multiset(front), multiset(CancelledIn(done)), id);
    }
  }

  lemma {:induction false} CollectLast(front: seq<Id>, id: Id, done: map<Id, Finish>)
    requires id in done
    ensures Collect(front + [id], done) ==
      if done[id] == Cancelled then Collect(front, done)
      else Collect(front, done) + [if done[id] == Returned then Measured(id) else TaskFailed(id)]
  {
    assert (front + [id])[..|front|] == front;
  }

  lemma {:induction false} OneMoreCancelled(front: multiset<Id>, cancelled: multiset<Id>, id: Id)
    requires front[id] == 0
    ensures (front + multiset{id}) * cancelled ==
      if cancelled[id] > 0 then (front * cancelled) + multiset{id} else front * cancelled
  {}

  lemma {:induction false} OwnersAppend(results: seq<Result>, r: Result)
    ensures Owners(results + [r]) == Owners(results) + [r.id]
  {}

  lemma {:induction false} OwnersConcat(a: seq<Result>, b: seq<Result>)
    ensures Owners(a + b) == Owners(a) + Owners(b)
  {}

  lemma {:induction false} CollectOrdered(order: seq<Id>, done: map<Id, Finish>)
    requires Orders(order, done)
    ensures multiset(Owners(Collect(order, done))) + multiset(CancelledIn(done)) == multiset(done.Keys)
    ensures forall r | r in Collect(order, done) :: !r.Saturated?
  {
    forall k | 0 <= k < |order| ensures order[k] in done { assert order[k] in multiset(order); }
    Collected(order, done);
    assert multiset(order) * multiset(CancelledIn(done)) == multiset(CancelledIn(done));
  }

  /** A group without repeats, disjoint from the running set, joins it one by one. */
  lemma {:induction false} Joining(running: set<Id>, g: seq<Id>)
    requires forall id :: (multiset(running) + multiset(g))[id] <= 1
    ensures multiset(running + AsSet(g)) == multiset(running) + multiset(g)
    ensures |running + AsSet(g)| == |running| + |g|
  {
    assert forall id :: id in g <==> id in multiset(g);
    assert |multiset(running + AsSet(g))| == |running + AsSet(g)|;
    assert |multiset(running) + multiset(g)| == |running| + |g|;
  }

  lemma {:induction false} StepAccounted(stage: Stage, s: State, s': State)
    requires NoRepeats(stage.groups) && Accounted(stage, s) && Step(stage, s, s')
    ensures Accounted(stage, s')
  {
    hide Complete, Arrive, Gather, Accounted, NoRepeats;
    if id, finish :| Complete(s, s', id, finish) {
      CompleteAccounted(stage, s, s', id, finish);
    } else if order :| Arrive(stage, s, s', order) {
      ArriveAccounted(stage, s, s', order);
    } else if order :| Gather(stage, s, s', order) {
      GatherAccounted(stage, s, s', order);
    } else {
      AbortAccounted(stage, s, s');
    }
  }

  lemma {:induction false} CompleteAccounted(stage: Stage, s: State, s': State, id: Id, finish: Finish)
    requires NoRepeats(stage.groups) && Accounted(stage, s) && Complete(s, s', id, finish)
    ensures Accounted(stage, s')
  {
    DoneAndRunning(stage, s);
    hide All, Owners, CancelledIn;
    assert multiset(s'.running) == multiset(s.running) - multiset{id};
    assert s'.done.Keys == s.done.Keys + {id};
  }

  lemma {:induction false} GatherAccounted(stage: Stage, s: State, s': State, order: seq<Id>)
    requires Accounted(stage, s) && Gather(stage, s, s', order)
    ensures Accounted(stage, s')
  {
    CollectOrdered(order, s.done);
    OwnersConcat(s.results, Collect(order, s.done));
    hide All, Collect, CancelledIn;
  }

  lemma {:induction false} AbortAccounted(stage: Stage, s: State, s': State)
    requires Accounted(stage, s) && Abort(stage, s, s')
    ensures Accounted(stage, s')
  {
    hide All, Owners, CancelledIn;
  }

  lemma {:induction false} DoneAndRunning(stage: Stage, s: State)
    requires NoRepeats(stage.groups) && Accounted(stage, s) && s.phase != Ended
    ensures forall id | id in s.running :: id !in s.done
  {
    AllGrows(stage.groups, s.next);
    assert stage.groups[..|stage.groups|] == stage.groups;
    forall id | id in s.running ensures id !in s.done {
      assert All(stage.groups[..s.next])[id] <= 1;
    }
  }

  /** The arriving group has no member in common with the running requests. */
  lemma {:induction false} ArrivalsAreNew(stage: Stage, s: State)
    requires NoRepeats(stage.groups) && Accounted(stage, s) && s.phase != Ended && s.next < |stage.groups|
    ensures var g := stage.groups[s.next];
      && multiset(s.running + AsSet(g)) == multiset(s.running) + multiset(g)
      && |s.running + AsSet(g)| == |s.running| + |g|
      && All(stage.groups[..s.next + 1]) == All(stage.groups[..s.next]) + multiset(g)
  {
    var g := stage.groups[s.next];
    RunningArrived(stage, s);
    hide *;
    AllSplit(stage.groups, s.next);
    AllGrows(stage.groups, s.next + 1);
    Nested(multiset(s.running), All(stage.groups[..s.next]), multiset(g), All(stage.groups[..s.next + 1]), All(stage.groups));
    Joining(s.running, g);
  }

  lemma {:induction false} RunningArrived(stage: Stage, s: State)
    requires NoRepeats(stage.groups) && Accounted(stage, s) && s.phase != Ended && s.next < |stage.groups|
    ensures 0 <= s.next && multiset(s.running) <= All(stage.groups[..s.next])
    ensures forall id :: All(stage.groups)[id] <= 1
  {
    hide All, Owners;
  }

  lemma {:induction false} Nested(r: multiset<Id>, a: multiset<Id>, g: multiset<Id>, more: multiset<Id>, all: multiset<Id>)
    requires r <= a && more == a + g && more <= all && forall id :: all[id] <= 1
    ensures forall id :: (r + g)[id] <= 1
  {
    forall id ensures (r + g)[id] <= 1 {
      assert r[id] <= a[id] && more[id] <= all[id];
    }
  }

  lemma {:induction false} ArriveAccounted(stage: Stage, s: State, s': State, order: seq<Id>)
    requires NoRepeats(stage.groups) && Accounted(stage, s) && Arrive(stage, s, s', order)
    ensures Accounted(stage, s')
  {
    RunningAfter(stage, s, s', order);
    ResultsAfter(stage, s, s', order);
    var g := stage.groups[s.next];
    hide Arrive;
    hide NoRepeats;
    hide All;
    hide Owners;
    hide CancelledIn;
    Balance(multiset(Owners(s.results)), multiset(s.done.Keys), multiset(s.running), All(stage.groups[..s.next]), multiset(g));
  }

  lemma {:induction false} RunningAfter(stage: Stage, s: State, s': State, order: seq<Id>)
    requires NoRepeats(stage.groups) && Accounted(stage, s) && Arrive(stage, s, s', order)
    ensures s'.next == s.next + 1 <= |stage.groups| && s.phase == s'.phase == Arriving
    ensures multiset(s'.running) ==
      multiset(s.running) +
      if s.active + |stage.groups[s.next]| > stage.limit then multiset{} else multiset(stage.groups[s.next])
    ensures All(stage.groups[..s.next + 1]) == All(stage.groups[..s.next]) + multiset(stage.groups[s.next])
  {
    ArrivalsAreNew(stage, s);
  }

  lemma {:induction false} ResultsAfter(stage: Stage, s: State, s': State, order: seq<Id>)
    requires Arrive(stage, s, s', order)
    ensures s'.done.Keys == {}
    ensures multiset(Owners(s'.results)) ==
      multiset(Owners(s.results)) + multiset(s.done.Keys) +
      if s.active + |stage.groups[s.next]| > stage.limit then multiset(stage.groups[s.next]) else multiset{}
  {
    var g, harvest := stage.groups[s.next], Collect(order, s.done);
    CollectOrdered(order, s.done);
    assert CancelledIn(s.done) == {};
    assert Owners(SaturatedResults(g)) == g;
    OwnersConcat(s.results, harvest);
    OwnersConcat(s.results + harvest, SaturatedResults(g));
  }

  lemma {:induction false} Balance(a: multiset<Id>, d: multiset<Id>, r: multiset<Id>, p: multiset<Id>, g: multiset<Id>)
    requires a + d + r == p
    ensures a + d + g + r == p + g && a + d + (r + g) == p + g
  {}

  lemma {:induction false} StepCounted(stage: Stage, s: State, s': State)
    requires NoRepeats(stage.groups) && Accounted(stage, s) && Counted(stage, s) && Step(stage, s, s')
    ensures Counted(stage, s')
  {
    if order :| Arrive(stage, s, s', order) {
      ArrivalsAreNew(stage, s);
      hide *;
      ArriveCounted(stage, s, s', order);
    } else if id, finish :| Complete(s, s', id, finish) {
      hide Step, NoRepeats, Accounted;
      assert s.running == s'.running + {id};
    }
  }

  lemma {:induction false} ArriveCounted(stage: Stage, s: State, s': State, order: seq<Id>)
    requires Counted(stage, s) && Arrive(stage, s, s', order)
    requires var g := stage.groups[s.next]; |s.running + AsSet(g)| == |s.running| + |g|
    ensures Counted(stage, s')
  {
    hide Collect, AsSet, SaturatedResults;
  }

  lemma {:induction false} StepWhole(stage: Stage, s: State, s': State)
    requires NoRepeats(stage.groups) && AllWhole(stage, s) && Step(stage, s, s')
    ensures AllWhole(stage, s')
  {
    hide Complete, Arrive, Gather, AllWhole, NoRepeats;
    if order :| Arrive(stage, s, s', order) {
      GroupArrivesWhole(stage, s, s', order);
    } else if order :| Gather(stage, s, s', order) {
      GatherWhole(stage, s, s', order);
    } else {
      OthersWhole(stage, s, s');
    }
  }

  lemma {:induction false} GroupArrivesWhole(stage: Stage, s: State, s': State, order: seq<Id>)
    requires NoRepeats(stage.groups) && AllWhole(stage, s) && Arrive(stage, s, s', order)
    ensures AllWhole(stage, s')
  {
    var verdict := ArriveBooks(stage, s, s', order);
    var harvest := Collect(order, s.done);
    var before := s.(results := s.results + harvest);
    hide *;
    CollectOrdered(order, s.done);
    HarvestWhole(stage, s, harvest);
    ArriveWhole(stage, before, verdict);
    SameBooks(stage, before.(next := s.next + 1, results := before.results + verdict), s');
  }

  lemma {:induction false} ArriveBooks(stage: Stage, s: State, s': State, order: seq<Id>) returns (verdict: seq<Result>)
    requires Arrive(stage, s, s', order)
    ensures s.next < |stage.groups| && Orders(order, s.done) && s'.next == s.next + 1
    ensures verdict == [] || verdict == SaturatedResults(stage.groups[s.next])
    ensures s'.results == s.results + Collect(order, s.done) + verdict
  {
    verdict := if s.active + |stage.groups[s.next]| > stage.limit then SaturatedResults(stage.groups[s.next]) else [];
    hide Collect, Orders, SaturatedResults, AsSet;
  }

  lemma {:induction false} GatherWhole(stage: Stage, s: State, s': State, order: seq<Id>)
    requires AllWhole(stage, s) && Gather(stage, s, s', order)
    ensures AllWhole(stage, s')
  {
    CollectOrdered(order, s.done);
    HarvestWhole(stage, s, Collect(order, s.done));
    hide AllWhole, Collect;
    SameBooks(stage, s.(results := s.results + Collect(order, s.done)), s');
  }

  lemma {:induction false} OthersWhole(stage: Stage, s: State, s': State)
    requires AllWhole(stage, s) && (Abort(stage, s, s') || exists id, finish :: Complete(s, s', id, finish))
    ensures AllWhole(stage, s')
  {
    hide AllWhole;
    SameBooks(stage, s, s');
  }

  /** Wholeness looks only at what has arrived and at the results. */
  lemma {:induction false} SameBooks(stage: Stage, s: State, s': State)
    requires AllWhole(stage, s) && s'.next == s.next && s'.results == s.results
    ensures AllWhole(stage, s')
  {
    hide Whole, All;
  }

  lemma {:induction false} HarvestWhole(stage: Stage, s: State, harvest: seq<Result>)
    requires AllWhole(stage, s) && forall r | r in harvest :: !r.Saturated?
    ensures AllWhole(stage, s.(results := s.results + harvest))
  {
    forall id ensures Saturated(id) in s.results + harvest <==> Saturated(id) in s.results {}
  }

  lemma {:induction false} ArriveWhole(stage: Stage, s: State, verdict: seq<Result>)
    requires NoRepeats(stage.groups) && AllWhole(stage, s) && s.next < |stage.groups|
    requires verdict == [] || verdict == SaturatedResults(stage.groups[s.next])
    ensures AllWhole(stage, s.(next := s.next + 1, results := s.results + verdict))
  {
    var g := stage.groups[s.next];
    AllSplit(stage.groups, s.next);
    forall id ensures Saturated(id) in verdict <==> verdict != [] && id in g {
      if verdict != [] && id in g {
        var k :| 0 <= k < |g| && g[k] == id;
        assert verdict[k] == Saturated(id);
      }
    }
    forall k | 0 <= k <= s.next ensures Whole(stage.groups[k], s.results + verdict) {
      if k < s.next { GroupsApart(stage.groups, k, s.next); } else { GroupNotYet(stage, s); }
    }
  }

  /** Members of an earlier group are not members of a later one. */
  lemma {:induction false} GroupsApart(groups: seq<seq<Id>>, a: nat, b: nat)
    requires NoRepeats(groups) && a < b < |groups|
    ensures forall id | id in groups[a] :: id !in groups[b]
  {
    AllSplit(groups, a);
    AllSplit(groups, b);
    AllGrows(groups, b + 1);
    AllWithin(groups, a + 1, b);
    forall id | id in groups[a] ensures id !in groups[b] {
      assert id in multiset(groups[a]);
      assert All(groups[..b + 1])[id] <= 1;
      assert id !in multiset(groups[b]);
    }
  }

  lemma {:induction false} AllWithin(groups: seq<seq<Id>>, a: nat, b: nat)
    requires a <= b <= |groups|
    ensures All(groups[..a]) <= All(groups[..b])
    decreases b - a
  {
    if a < b {
      AllSplit(groups, a);
      AllWithin(groups, a + 1, b);
    }
  }

  lemma {:induction false} GroupNotYet(stage: Stage, s: State)
    requires NoRepeats(stage.groups) && AllWhole(stage, s) && s.next < |stage.groups|
    ensures forall id | id in stage.groups[s.next] :: Saturated(id) !in s.results
  {
    AllSplit(stage.groups, s.next);
    AllGrows(stage.groups, s.next + 1);
    forall id | id in stage.groups[s.next] ensures Saturated(id) !in s.results {
      assert id in multiset(stage.groups[s.next]);
      assert All(stage.groups[..s.next + 1])[id] <= 1;
    }
  }

  // ---------- whole runs ----------

  ghost predicate Invariant(stage: Stage, s: State) {
    Accounted(stage, s) && Counted(stage, s) && AllWhole(stage, s)
  }

  /** Every state of every interleaving keeps the invariant. */
  lemma {:induction false} RunKeeps(stage: Stage, trace: seq<State>, k: nat)
    requires NoRepeats(stage.groups) && Run(stage, trace) && k < |trace|
    ensures Invariant(stage, trace[k])
  {
    if k > 0 {
      RunKeeps(stage, trace, k - 1);
      assert Step(stage, trace[k - 1], trace[k]);
      StepAccounted(stage, trace[k - 1], trace[k]);
      StepCounted(stage, trace[k - 1], trace[k]);
      StepWhole(stage, trace[k - 1], trace[k]);
    }
  }

  /** At the end each scenario has exactly one result, except those whose task was cancelled. */
  lemma {:induction false} OneResultEach(stage: Stage, trace: seq<State>)
    requires NoRepeats(stage.groups) && Run(stage, trace) && trace[|trace| - 1].phase == Ended
    ensures var end := trace[|trace| - 1];
      && multiset(Owners(end.results)) + multiset(CancelledIn(end.done)) == All(stage.groups)
      && (multiset(Owners(end.results)) == All(stage.groups) <==> CancelledIn(end.done) == {})
      && forall k | 0 <= k < |stage.groups| :: Whole(stage.groups[k], end.results)
  {
    var end := trace[|trace| - 1];
    RunKeeps(stage, trace, |trace| - 1);
    assert stage.groups[..|stage.groups|] == stage.groups;
    if multiset(Owners(end.results)) == All(stage.groups) {
      assert |multiset(CancelledIn(end.done))| == 0;
    }
  }

  // ---------- the stage of a list of arrivals ----------

  function IdGroups(groups: seq<seq<Arrival>>): (r: seq<seq<Id>>)
    ensures |r| == |groups| && forall k | 0 <= k < |r| :: r[k] == Ids(groups[k])
  { seq(|groups|, k requires 0 <= k < |groups| => Ids(groups[k])) }

  function StageOf(arrivals: seq<Arrival>, scheduled: bool, limit: nat): Stage {
    Stage(IdGroups(Grouped(arrivals, scheduled)), limit)
  }

  lemma {:induction false} AllFirst(groups: seq<seq<Id>>)
    requires groups != []
    ensures All(groups) == multiset(groups[0]) + All(groups[1..])
  {
    if |groups| > 1 {
      AllFirst(groups[..|groups| - 1]);
      assert groups[..|groups| - 1][1..] == groups[1..][..|groups| - 2];
    }
  }

  /** The members of all groups are the members of the flattened list. */
  lemma {:induction false} FlattenedIds(groups: seq<seq<Arrival>>)
    ensures All(IdGroups(groups)) == multiset(Ids(Flatten(groups)))
  {
    if groups != [] {
      var rest := groups[1..];
      assert Flatten(groups) == groups[0] + Flatten(rest);
      hide *;
      FlattenedIds(rest);
      AllFirst(IdGroups(groups));
      assert IdGroups(groups)[1..] == IdGroups(rest);
      IdsConcat(groups[0], Flatten(rest));
    }
  }

  lemma {:induction false} IdsConcat(a: seq<Arrival>, b: seq<Arrival>)
    ensures multiset(Ids(a + b)) == multiset(Ids(a)) + multiset(Ids(b))
  {
    assert Ids(a + b) == Ids(a) + Ids(b);
  }

  ghost predicate DistinctIds(arrivals: seq<Arrival>) {
    forall i, j | 0 <= i < j < |arrivals| :: arrivals[i].id != arrivals[j].id
  }

  lemma {:induction false} DistinctOnce(ids: seq<Id>)
    requires forall i, j | 0 <= i < j < |ids| :: ids[i] != ids[j]
    ensures forall id :: multiset(ids)[id] <= 1
  {
    if ids != [] {
      var front, last := ids[..|ids| - 1], ids[|ids| - 1];
      DistinctOnce(front);
      assert ids == front + [last];
      assert last !in front;
      assert multiset(front)[last] == 0;
    }
  }

  /** Scenarios listed once make a stage whose groups repeat nothing and hold exactly them. */
  lemma {:induction false} StageHoldsArrivals(arrivals: seq<Arrival>, scheduled: bool, limit: nat)
    ensures All(StageOf(arrivals, scheduled, limit).groups) == multiset(Ids(arrivals))
    ensures DistinctIds(arrivals) ==> NoRepeats(StageOf(arrivals, scheduled, limit).groups)
  {
    GroupedMeans(arrivals, scheduled);
    FlattenedIds(Grouped(arrivals, scheduled));
    if DistinctIds(arrivals) { DistinctOnce(Ids(arrivals)); }
  }

  /** From the arrivals to the results: in every interleaving each listed scenario ends with exactly
      one result, except those whose task was cancelled. */
  lemma {:induction false} EachArrivalAnswered(arrivals: seq<Arrival>, scheduled: bool, limit: nat, trace: seq<State>)
    requires DistinctIds(arrivals) && Run(StageOf(arrivals, scheduled, limit), trace)
    requires trace[|trace| - 1].phase == Ended
    ensures var last := trace[|trace| - 1];
      multiset(Owners(last.results)) + multiset(CancelledIn(last.done)) == multiset(Ids(arrivals))
  {
    StageHoldsArrivals(arrivals, scheduled, limit);
    hide Run, NoRepeats, StageOf;
    OneResultEach(StageOf(arrivals, scheduled, limit), trace);
  }

  lemma {:induction false} StepPeak(stage: Stage, s: State, s': State)
    requires Counted(stage, s) && Counted(stage, s') && Step(stage, s, s')
    ensures s.peak <= s'.peak && |s'.running| <= s'.peak
    ensures s'.peak == s.peak || s'.peak == |s'.running|
  {}

  /** The reported peak is the largest number of requests in flight over the whole run. */
  lemma {:induction false} PeakIsMaximum(stage: Stage, trace: seq<State>)
    requires NoRepeats(stage.groups) && Run(stage, trace)
    ensures forall k | 0 <= k < |trace| :: |trace[k].running| <= trace[|trace| - 1].peak
    ensures exists k :: 0 <= k < |trace| && |trace[k].running| == trace[|trace| - 1].peak
  {
    hide Step;
    hide Accounted;
    hide AllWhole;
    hide NoRepeats;
    if |trace| == 1 {
      assert |trace[0].running| == 0;
    } else {
      var n := |trace| - 1;
      PeakIsMaximum(stage, trace[..n]);
      RunKeeps(stage, trace, n);
      RunKeeps(stage, trace, n - 1);
      assert Step(stage, trace[n - 1], trace[n]);
      StepPeak(stage, trace[n - 1], trace[n]);
      hide Invariant;
      hide Counted;
      var k :| 0 <= k < n && |trace[..n][k].running| == trace[n - 1].peak;
      if trace[n].peak == trace[n - 1].peak {
        assert |trace[k].running| == trace[n].peak;
      }
      forall j | 0 <= j < n ensures |trace[j].running| <= trace[n].peak {
        assert trace[..n][j] == trace[j];
      }
    }
  }

  // ---------- runs end, and only at the end ----------

  function Remaining(groups: seq<seq<Id>>): nat {
    if groups == [] then 0 else |groups[0]| + 1 + Remaining(groups[1..])
  }

  function Rank(stage: Stage, s: State): nat
    requires 0 <= s.next <= |stage.groups|
  {
    if s.phase != Arriving then 0 else 1 + |s.running| + Remaining(stage.groups[s.next..])
  }

  lemma {:induction false} StepDescends(stage: Stage, s: State, s': State)
    requires NoRepeats(stage.groups) && Accounted(stage, s) && Accounted(stage, s') && Step(stage, s, s')
    ensures Rank(stage, s') < Rank(stage, s)
  {
    hide Arrive, NoRepeats, Accounted, Rank;
    if order :| Arrive(stage, s, s', order) {
      ArriveDescends(stage, s, s', order);
    } else {
      InRange(stage, s);
      OthersDescend(stage, s, s');
    }
  }

  lemma {:induction false} InRange(stage: Stage, s: State)
    requires Accounted(stage, s)
    ensures 0 <= s.next <= |stage.groups|
  {}

  lemma {:induction false} OthersDescend(stage: Stage, s: State, s': State)
    requires 0 <= s.next <= |stage.groups|
    requires || (exists id, finish :: Complete(s, s', id, finish)) || Abort(stage, s, s')
             || (exists order :: Gather(stage, s, s', order))
    ensures Rank(stage, s') < Rank(stage, s)
  {
    hide Remaining, Collect;
    if id, finish :| Complete(s, s', id, finish) { assert s.running == s'.running + {id}; }
  }

  lemma {:induction false} ArriveDescends(stage: Stage, s: State, s': State, order: seq<Id>)
    requires NoRepeats(stage.groups) && Accounted(stage, s) && Arrive(stage, s, s', order)
    ensures 0 <= s'.next <= |stage.groups| && Rank(stage, s') < Rank(stage, s)
  {
    assert s.phase == Arriving && s.next < |stage.groups|;
    hide *;
    ArrivalsAreNew(stage, s);
    ArriveRank(stage, s, s', order);
  }

  lemma {:induction false} ArriveRank(stage: Stage, s: State, s': State, order: seq<Id>)
    requires Arrive(stage, s, s', order)
    requires var g := stage.groups[s.next]; |s.running + AsSet(g)| == |s.running| + |g|
    ensures 0 <= s'.next <= |stage.groups| && Rank(stage, s') < Rank(stage, s)
  {
    RemainingNext(stage.groups, s.next);
    hide Collect, Remaining, AsSet, SaturatedResults, Orders;
  }

  lemma {:induction false} RemainingNext(groups: seq<seq<Id>>, k: nat)
    requires k < |groups|
    ensures Remaining(groups[k..]) == |groups[k]| + 1 + Remaining(groups[k + 1..])
  {
    assert groups[k..][1..] == groups[k + 1..];
  }

  /** No interleaving takes more steps than one per scenario, one per group and one to finish. */
  lemma {:induction false} RunsAreShort(stage: Stage, trace: seq<State>)
    requires NoRepeats(stage.groups) && Run(stage, trace)
    ensures |trace| <= Remaining(stage.groups) + 2
  {
    RunRank(stage, trace, |trace| - 1);
    RunKeeps(stage, trace, |trace| - 1);
  }

  lemma {:induction false} RunRank(stage: Stage, trace: seq<State>, k: nat)
    requires NoRepeats(stage.groups) && Run(stage, trace) && k < |trace|
    ensures 0 <= trace[k].next <= |stage.groups| && Rank(stage, trace[k]) + k <= Remaining(stage.groups) + 1
  {
    RunKeeps(stage, trace, k);
    if k == 0 {
      assert stage.groups[0..] == stage.groups;
    } else {
      RunRank(stage, trace, k - 1);
      RunKeeps(stage, trace, k - 1);
      assert Step(stage, trace[k - 1], trace[k]);
      StepDescends(stage, trace[k - 1], trace[k]);
    }
  }

  /** A stage that has not ended always has a next step. */
  lemma {:induction false} NeverStuck(stage: Stage, s: State) returns (s': State)
    requires Accounted(stage, s) && s.phase == Arriving
    ensures Step(stage, s, s')
  {
    if id :| id in s.running {
      s' := s.(running := s.running - {id}, done := s.done[id := Returned], active := s.active - 1);
      assert Complete(s, s', id, Returned);
    } else if s.next < |stage.groups| {
      s' := CanArrive(stage, s);
    } else {
      var order := Sequence(s.done.Keys);
      s' := s.(results := s.results + Collect(order, s.done), phase := Ended);
      assert Gather(stage, s, s', order);
    }
  }

  lemma {:induction false} CanArrive(stage: Stage, s: State) returns (s': State)
    requires s.phase == Arriving && s.next < |stage.groups|
    ensures Step(stage, s, s')
  {
    if id :| id in s.done && s.done[id] == Cancelled {
      s' := s.(phase := Aborted);
      assert Abort(stage, s, s');
    } else {
      var order := Sequence(s.done.Keys);
      var g := stage.groups[s.next];
      var harvested := s.(next := s.next + 1, done := map[], results := s.results + Collect(order, s.done));
      s' := if s.active + |g| > stage.limit then harvested.(results := harvested.results + SaturatedResults(g))
            else harvested.(running := s.running + AsSet(g), active := s.active + |g|,
                            peak := Max(s.peak, s.active + |g|),
                            peakPending := Max(s.peakPending, |s.running + AsSet(g)|));
      hide Collect, AsSet, Max;
      assert Arrive(stage, s, s', order);
    }
  }

  lemma {:induction false} Sequence(ids: set<Id>) returns (order: seq<Id>)
    ensures multiset(order) == multiset(ids)
  {
    order := [];
    var rest := ids;
    while rest != {}
      invariant multiset(order) + multiset(rest) == multiset(ids)
    {
      var id :| id in rest;
      order := order + [id];
      rest := rest - {id};
    }
  }

  // ---------- who is admitted, and what is reported ----------

  /** In every run, a group is admitted as a whole exactly when it fits beside the requests in flight
      at its arrival; otherwise all of it is reported as saturated and nothing is admitted. */
  lemma {:induction false} AdmittedIffFits(stage: Stage, trace: seq<State>, k: nat)
    requires NoRepeats(stage.groups) && Run(stage, trace) && k + 1 < |trace| && trace[k + 1].next == trace[k].next + 1
    ensures 0 <= trace[k].next < |stage.groups|
    ensures var s, s', g := trace[k], trace[k + 1], stage.groups[trace[k].next];
      if |s.running| + |g| <= stage.limit then s'.running == s.running + (set id | id in g)
      else s'.running == s.running && forall id | id in g :: Saturated(id) in s'.results
  {
    RunKeeps(stage, trace, k);
    var s, s' := trace[k], trace[k + 1];
    assert Step(stage, s, s') && s.active == |s.running|;
    hide Run, NoRepeats, Accounted, AllWhole;
    var order :| Arrive(stage, s, s', order);
    var g := stage.groups[s.next];
    hide Collect, Orders;
    assert AsSet(g) == set id | id in g;
    if |s.running| + |g| > stage.limit {
      forall id | id in g ensures Saturated(id) in s'.results {
        var n :| 0 <= n < |g| && g[n] == id;
        assert SaturatedResults(g)[n] == Saturated(id) && SaturatedResults(g)[n] in SaturatedResults(g);
      }
    }
  }

  /** A task that returned is reported with its result, one that raised as failed, a cancelled one not
      at all. */
  lemma {:induction false} ReportedAsFinished(order: seq<Id>, done: map<Id, Finish>, id: Id)
    ensures Measured(id) in Collect(order, done) <==> id in order && id in done && done[id] == Returned
    ensures TaskFailed(id) in Collect(order, done) <==> id in order && id in done && done[id] == Raised
    ensures Saturated(id) !in Collect(order, done)
  {
    if order != [] {
      ReportedAsFinished(order[..|order| - 1], done, id);
      assert forall x :: x in order <==> x in order[..|order| - 1] || x == order[|order| - 1];
    }
  }

  /** A stage has the limit it is given, and its groups are the runs of equal offsets of the arrivals
      in scheduled mode, the single arrivals otherwise. */
  lemma {:induction false} StageGroupsArrivals(arrivals: seq<Arrival>, scheduled: bool, limit: nat) returns (groups: seq<seq<Arrival>>)
    ensures StageOf(arrivals, scheduled, limit).limit == limit
    ensures Flatten(groups) == arrivals && MaximalRuns(groups, scheduled)
    ensures |StageOf(arrivals, scheduled, limit).groups| == |groups|
    ensures forall k | 0 <= k < |groups| :: StageOf(arrivals, scheduled, limit).groups[k] == Ids(groups[k])
  {
    GroupedMeans(arrivals, scheduled);
    groups := Grouped(arrivals, scheduled);
  }
}
