/** The benchmark runner's dispatcher: one task per sample, created in order, each sending its
request under a semaphore; the replies are gathered in task order. */
module Dispatch {

  /** limit 0 means no semaphore. */
  datatype Setup = Setup(samples: nat, limit: nat)

  datatype State<Reply> = State(created: nat, waiting: set<nat>, inFlight: set<nat>, permits: int, sent: seq<nat>,
                                replies: map<nat, Reply>)

  function Initial<Reply>(setup: Setup): State<Reply> { State(0, {}, {}, setup.limit, [], map[]) }

  ghost predicate Create<Reply>(setup: Setup, s: State<Reply>, s': State<Reply>) {
    s.created < setup.samples && s' == s.(created := s.created + 1, waiting := s.waiting + {s.created})
  }

  ghost predicate Send<Reply>(setup: Setup, s: State<Reply>, s': State<Reply>, k: nat) {
    && k in s.waiting && (setup.limit > 0 ==> s.permits > 0)
    && s' == s.(waiting := s.waiting - {k}, inFlight := s.inFlight + {k}, permits := s.permits - 1, sent := s.sent + [k])
  }

  ghost predicate Receive<Reply>(s: State<Reply>, s': State<Reply>, k: nat, reply: Reply) {
    && k in s.inFlight
    && s' == s.(inFlight := s.inFlight - {k}, permits := s.permits + 1, replies := s.replies[k := reply])
  }

  ghost predicate Step<Reply(!new)>(setup: Setup, s: State<Reply>, s': State<Reply>) {
    Create(setup, s, s') || (exists k :: Send(setup, s, s', k)) || (exists k, r :: Receive(s, s', k, r))
  }

  ghost predicate Run<Reply(!new)>(setup: Setup, trace: seq<State<Reply>>) {
    && trace != [] && trace[0] == Initial(setup)
    && forall j, k | 0 <= j < |trace| && 0 <= k < |trace| && k == j + 1 :: Step(setup, trace[j], trace[k])
  }

  /** Every created sample waits, is in flight or has its reply; the last two were sent, once. */
  ghost predicate Invariant<Reply>(setup: Setup, s: State<Reply>) {
    && s.created <= setup.samples && s.permits + |s.inFlight| == setup.limit
    && (setup.limit > 0 ==> s.permits >= 0)
    && (forall k: nat :: multiset(s.waiting)[k] + multiset(s.sent)[k] == if k < s.created then 1 else 0)
    && (forall k: nat :: multiset(s.inFlight)[k] + multiset(s.replies.Keys)[k] == multiset(s.sent)[k])
  }

  lemma {:induction false} StepKeeps<Reply(!new)>(setup: Setup, s: State<Reply>, s': State<Reply>)
    requires Invariant(setup, s) && Step(setup, s, s')
    ensures Invariant(setup, s')
    ensures forall k | k in s.replies :: k in s'.replies && s'.replies[k] == s.replies[k]
  {
    if Create(setup, s, s') {
      hide Step;
      forall k: nat ensures multiset(s'.waiting)[k] == multiset(s.waiting)[k] + if k == s.created then 1 else 0 {
        assert multiset(s.waiting)[s.created] == 0;
      }
    } else if k :| Send(setup, s, s', k) {
      hide Step;
      SendKeeps(setup, s, s', k);
    } else if k, r :| Receive(s, s', k, r) {
      hide Step;
      ReceiveKeeps(setup, s, s', k, r);
    }
  }

  lemma {:induction false} SendKeeps<Reply(!new)>(setup: Setup, s: State<Reply>, s': State<Reply>, k: nat)
    requires Invariant(setup, s) && Send(setup, s, s', k)
    ensures Invariant(setup, s')
  {
    assert multiset(s.waiting)[k] == 1;
    assert multiset(s.sent)[k] == 0;
    assert k !in s.inFlight by { assert multiset(s.inFlight)[k] == 0; }
    forall j: nat
      ensures multiset(s'.waiting)[j] == multiset(s.waiting)[j] - if j == k then 1 else 0
      ensures multiset(s'.sent)[j] == multiset(s.sent)[j] + if j == k then 1 else 0
      ensures multiset(s'.inFlight)[j] == multiset(s.inFlight)[j] + if j == k then 1 else 0
    {}
  }

  lemma {:induction false} ReceiveKeeps<Reply(!new)>(setup: Setup, s: State<Reply>, s': State<Reply>, k: nat, reply: Reply)
    requires Invariant(setup, s) && Receive(s, s', k, reply)
    ensures Invariant(setup, s')
    ensures forall j | j in s.replies :: j in s'.replies && s'.replies[j] == s.replies[j]
  {
    assert multiset(s.inFlight)[k] == 1;
    assert k !in s.replies by {
      assert multiset(s.waiting)[k] + multiset(s.sent)[k] <= 1;
      assert multiset(s.replies.Keys)[k] == 0;
    }
    assert s.inFlight == s'.inFlight + {k};
    assert s'.replies.Keys == s.replies.Keys + {k};
    forall j: nat
      ensures multiset(s'.inFlight)[j] == multiset(s.inFlight)[j] - if j == k then 1 else 0
      ensures multiset(s'.replies.Keys)[j] == multiset(s.replies.Keys)[j] + if j == k then 1 else 0
    {}
  }

  lemma {:induction false} RunKeeps<Reply(!new)>(setup: Setup, trace: seq<State<Reply>>, k: nat)
    requires Run(setup, trace) && k < |trace|
    ensures Invariant(setup, trace[k])
  {
    if k > 0 {
      RunKeeps(setup, trace, k - 1);
      hide Invariant, Step;
      StepKeeps(setup, trace[k - 1], trace[k]);
    }
  }

  /** A reply, once received, is the one reported for its sample. */
  lemma {:induction false} RepliesStay<Reply(!new)>(setup: Setup, trace: seq<State<Reply>>, i: nat, j: nat, k: nat)
    requires Run(setup, trace) && i <= j < |trace| && k in trace[i].replies
    ensures k in trace[j].replies && trace[j].replies[k] == trace[i].replies[k]
    decreases j
  {
    if i < j {
      RepliesStay(setup, trace, i, j - 1, k);
      RunKeeps(setup, trace, j - 1);
      hide Invariant, Step;
      StepKeeps(setup, trace[j - 1], trace[j]);
    }
  }

  ghost predicate Finished<Reply>(setup: Setup, s: State<Reply>) {
    s.created == setup.samples && s.waiting == {} && s.inFlight == {}
  }

  /** gather returns the results in the order of the tasks. */
  ghost function Gathered<Reply>(setup: Setup, s: State<Reply>): seq<Reply>
    requires forall k | 0 <= k < setup.samples :: k in s.replies
  { seq(setup.samples, k requires 0 <= k < setup.samples => s.replies[k]) }

  /** Under every schedule each sample is sent exactly once, the limit holds throughout, and result
      k is the reply that was received for sample k. */
  lemma {:induction false} DispatchesAll<Reply(!new)>(setup: Setup, trace: seq<State<Reply>>)
    requires Run(setup, trace) && Finished(setup, trace[|trace| - 1])
    ensures var last := trace[|trace| - 1];
      && (forall k: nat :: multiset(last.sent)[k] == if k < setup.samples then 1 else 0)
      && (forall k | 0 <= k < setup.samples :: k in last.replies)
      && |Gathered(setup, last)| == setup.samples
    ensures forall j | 0 <= j < |trace| && setup.limit > 0 :: |trace[j].inFlight| <= setup.limit
    ensures forall j, k | 0 <= j < |trace| && 0 <= k < setup.samples && k in trace[j].replies ::
      Gathered(setup, trace[|trace| - 1])[k] == trace[j].replies[k]
  {
    var n := |trace| - 1;
    RunKeeps(setup, trace, n);
    AllAnswered(setup, trace[n]);
    forall j | 0 <= j < |trace| && setup.limit > 0 ensures |trace[j].inFlight| <= setup.limit {
      RunKeeps(setup, trace, j);
    }
    hide Invariant, Run;
    forall j, k | 0 <= j < |trace| && 0 <= k < setup.samples && k in trace[j].replies
      ensures Gathered(setup, trace[n])[k] == trace[j].replies[k]
    {
      RepliesStay(setup, trace, j, n, k);
    }
  }

  lemma {:induction false} AllAnswered<Reply>(setup: Setup, s: State<Reply>)
    requires Invariant(setup, s) && Finished(setup, s)
    ensures forall k: nat :: multiset(s.sent)[k] == if k < setup.samples then 1 else 0
    ensures forall k | 0 <= k < setup.samples :: k in s.replies
  {
    forall k: nat ensures multiset(s.sent)[k] == if k < setup.samples then 1 else 0 {
      assert multiset(s.waiting)[k] == 0;
    }
    forall k | 0 <= k < setup.samples ensures k in s.replies {
      assert multiset(s.inFlight)[k] == 0;
      assert multiset(s.replies.Keys)[k] == multiset(s.sent)[k] == 1;
    }
  }

  // ---------- runs end, and only at the end ----------

  /** Steps still to be taken: three for a sample not yet created, two for one that waits, one for
      one in flight. */
  function Rank<Reply>(setup: Setup, s: State<Reply>): int {
    3 * (setup.samples - s.created) + 2 * |s.waiting| + |s.inFlight|
  }

  lemma {:induction false} StepDescends<Reply(!new)>(setup: Setup, s: State<Reply>, s': State<Reply>)
    requires Invariant(setup, s) && Step(setup, s, s')
    ensures Rank(setup, s') == Rank(setup, s) - 1
  {
    hide Create, Send, Receive, Invariant, Rank;
    if Create(setup, s, s') {
      CreateDescends(setup, s, s');
    } else if k :| Send(setup, s, s', k) {
      SendDescends(setup, s, s', k);
    } else if k, r :| Receive(s, s', k, r) {
      ReceiveDescends(setup, s, s', k, r);
    }
  }

  lemma {:induction false} CreateDescends<Reply(!new)>(setup: Setup, s: State<Reply>, s': State<Reply>)
    requires Invariant(setup, s) && Create(setup, s, s')
    ensures Rank(setup, s') == Rank(setup, s) - 1
  {
    NotWaiting(setup, s);
    hide Invariant;
    Joins(s.waiting, s.created);
  }

  lemma {:induction false} SendDescends<Reply(!new)>(setup: Setup, s: State<Reply>, s': State<Reply>, k: nat)
    requires Invariant(setup, s) && Send(setup, s, s', k)
    ensures Rank(setup, s') == Rank(setup, s) - 1
  {
    NotInFlight(setup, s, k);
    hide Invariant;
    Joins(s'.waiting, k);
    Joins(s.inFlight, k);
    assert s.waiting == s'.waiting + {k};
  }

  lemma {:induction false} ReceiveDescends<Reply(!new)>(setup: Setup, s: State<Reply>, s': State<Reply>, k: nat, reply: Reply)
    requires Receive(s, s', k, reply)
    ensures Rank(setup, s') == Rank(setup, s) - 1
  {
    Joins(s'.inFlight, k);
    assert s.inFlight == s'.inFlight + {k};
  }

  lemma {:induction false} Joins(xs: set<nat>, k: nat)
    requires k !in xs
    ensures |xs + {k}| == |xs| + 1
  {}

  lemma {:induction false} NotWaiting<Reply(!new)>(setup: Setup, s: State<Reply>)
    requires Invariant(setup, s)
    ensures s.created !in s.waiting
  {
    assert multiset(s.waiting)[s.created] == 0;
  }

  lemma {:induction false} NotInFlight<Reply(!new)>(setup: Setup, s: State<Reply>, k: nat)
    requires Invariant(setup, s) && k in s.waiting
    ensures k !in s.inFlight
  {
    assert multiset(s.waiting)[k] == 1 && multiset(s.inFlight)[k] == 0;
  }

  lemma {:induction false} RunRank<Reply(!new)>(setup: Setup, trace: seq<State<Reply>>, k: nat)
    requires Run(setup, trace) && k < |trace|
    ensures Rank(setup, trace[k]) == 3 * setup.samples - k
  {
    if k > 0 {
      RunRank(setup, trace, k - 1);
      RunKeeps(setup, trace, k - 1);
      assert Step(setup, trace[k - 1], trace[k]);
      hide *;
      StepDescends(setup, trace[k - 1], trace[k]);
    }
  }

  /** No schedule takes more than three steps for each sample, and one that has taken them all is
      finished. */
  lemma {:induction false} RunsAreShort<Reply(!new)>(setup: Setup, trace: seq<State<Reply>>)
    requires Run(setup, trace)
    ensures |trace| <= 3 * setup.samples + 1
    ensures |trace| == 3 * setup.samples + 1 <==> Finished(setup, trace[|trace| - 1])
  {
    RunRank(setup, trace, |trace| - 1);
    RunKeeps(setup, trace, |trace| - 1);
    hide Run, Step;
  }

  /** Until then there is always a next step: a sample waits only while others are in flight. */
  lemma {:induction false} NeverStuck<Reply(!new)>(setup: Setup, s: State<Reply>, reply: Reply) returns (s': State<Reply>)
    requires Invariant(setup, s) && !Finished(setup, s)
    ensures Step(setup, s, s')
  {
    if s.created < setup.samples {
      s' := s.(created := s.created + 1, waiting := s.waiting + {s.created});
      assert Create(setup, s, s');
    } else if k :| k in s.inFlight {
      s' := s.(inFlight := s.inFlight - {k}, permits := s.permits + 1, replies := s.replies[k := reply]);
      assert Receive(s, s', k, reply);
    } else {
      var k :| k in s.waiting;
      s' := s.(waiting := s.waiting - {k}, inFlight := s.inFlight + {k}, permits := s.permits - 1, sent := s.sent + [k]);
      assert Send(setup, s, s', k);
    }
  }
}
