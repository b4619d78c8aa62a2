/** Disjoint corpus shards for the clients of a load sweep, read through a prefix cache. */
module Shards {
  import opened Wrappers

  const EN_TOTAL: nat := 1088

  // ---------- slots ----------

  function Slots(samples: int): nat { if samples > 0 then EN_TOTAL / samples else 0 }

  /** The sweep refuses to start unless this holds. */
  predicate Accepted(clients: int, samples: int) { 0 < clients <= Slots(samples) }

  /** Where client i starts reading in a stage. */
  function Offset(stage: nat, i: nat, samples: int): int
    requires Slots(samples) > 0
  { (stage + i) % Slots(samples) * samples }

  lemma {:induction false} SameSlot(a: nat, b: nat, n: nat)
    requires n > 0 && a % n == b % n && a <= b < a + n
    ensures a == b
  {
    var x, y := a / n, b / n;
    assert a == n * x + a % n && b == n * y + b % n;
    assert b - a == n * (y - x);
    if y - x >= 1 { Larger(n, y - x); }
    if y - x <= -1 { Larger(n, x - y); }
  }

  lemma {:induction false} Larger(n: nat, k: int)
    requires k >= 1
    ensures n * k >= n
  {
    NotNegative(k - 1, n);
    assert n * k == (k - 1) * n + n;
  }

  lemma {:induction false} Blocks(p: int, q: int, samples: int)
    requires samples > 0 && p < q
    ensures p * samples + samples <= q * samples
  {
    NotNegative(q - p - 1, samples);
    assert (q - p - 1) * samples == q * samples - p * samples - samples;
  }

  lemma {:induction false} InCorpus(samples: int, stage: nat, i: nat)
    requires Slots(samples) > 0
    ensures 0 <= Offset(stage, i, samples) <= EN_TOTAL - samples
  {
    var n, p := Slots(samples), (stage + i) % Slots(samples);
    WholeBlocks(EN_TOTAL, samples);
    Blocks(p, n, samples);
    NotNegative(p, samples);
  }

  /** As many whole blocks as the quotient says fit. */
  lemma {:induction false} WholeBlocks(total: nat, samples: int)
    requires samples > 0
    ensures total / samples * samples <= total
  {
    var n := total / samples;
    assert total == samples * n + total % samples;
    assert n * samples == samples * n;
  }

  lemma {:induction false} NotNegative(x: int, y: int)
    requires x >= 0 && y >= 0
    ensures x * y >= 0
    decreases x
  {
    if x > 0 {
      NotNegative(x - 1, y);
      assert x * y == (x - 1) * y + y;
    }
  }

  /** In every stage the clients read pairwise disjoint blocks inside the corpus. */
  lemma {:induction false} BlocksAreDisjoint(clients: int, samples: int, stage: nat, i: nat, j: nat)
    requires Accepted(clients, samples) && i < j < clients
    ensures 0 <= Offset(stage, i, samples) <= EN_TOTAL - samples
    ensures 0 <= Offset(stage, j, samples) <= EN_TOTAL - samples
    ensures Offset(stage, i, samples) + samples <= Offset(stage, j, samples) ||
            Offset(stage, j, samples) + samples <= Offset(stage, i, samples)
  {
    var n := Slots(samples);
    var p, q := (stage + i) % n, (stage + j) % n;
    if p == q { SameSlot(stage + i, stage + j, n); }
    InCorpus(samples, stage, i);
    InCorpus(samples, stage, j);
    if p < q {
      Blocks(p, q, samples);
    } else {
      Blocks(q, p, samples);
    }
  }

  /** Over as many consecutive stages as there are slots, every client reads every block once. */
  lemma {:induction false} EverySlotOnce(samples: int, first: nat, i: nat, slot: nat)
    requires slot < Slots(samples)
    ensures exists stage :: first <= stage < first + Slots(samples) && Offset(stage, i, samples) == slot * samples
    ensures forall s: nat, t: nat | first <= s <= t < first + Slots(samples) &&
      Offset(s, i, samples) == Offset(t, i, samples) :: s == t
  {
    var n := Slots(samples);
    var stage := Turn(n, first + i, slot);
    assert Offset(stage - i, i, samples) == slot * samples;
    forall s: nat, t: nat | first <= s <= t < first + n && Offset(s, i, samples) == Offset(t, i, samples)
      ensures s == t
    {
      var p, q := (s + i) % n, (t + i) % n;
      if p < q { Blocks(p, q, samples); }
      if q < p { Blocks(q, p, samples); }
      SameSlot(s + i, t + i, n);
    }
  }

  /** There are as many slots as whole blocks fit, and the sweep starts exactly when every client can
      have a block of its own. */
  lemma {:induction false} SlotsFit(clients: int, samples: int)
    requires samples > 0
    ensures Slots(samples) * samples <= 1088 < (Slots(samples) + 1) * samples
    ensures Accepted(clients, samples) <==> clients > 0 && clients * samples <= 1088
  {
    var n := Slots(samples);
    WholeBlocks(EN_TOTAL, samples);
    assert EN_TOTAL == samples * n + EN_TOTAL % samples;
    assert (n + 1) * samples == n * samples + samples && n * samples == samples * n;
    if clients <= n {
      NotNegative(n - clients, samples);
      assert (n - clients) * samples == n * samples - clients * samples;
    } else {
      NotNegative(clients - n - 1, samples);
      assert (clients - n - 1) * samples == clients * samples - (n + 1) * samples;
    }
  }

  /** In the first stage client i reads block i; in each later stage everyone moves on to the block of
      the next client. */
  lemma {:induction false} OffsetsRotate(samples: int, stage: nat, i: nat)
    requires Slots(samples) > 0
    ensures i < Slots(samples) ==> Offset(0, i, samples) == i * samples
    ensures Offset(stage + 1, i, samples) == Offset(stage, i + 1, samples)
  {
    if i < Slots(samples) { Remainder(i, Slots(samples), 0, i); }
    assert stage + 1 + i == stage + (i + 1);
  }

  /** Some number in any window of length n leaves the given remainder. */
  lemma {:induction false} Turn(n: nat, from: nat, slot: nat) returns (k: nat)
    requires slot < n
    ensures from <= k < from + n && k % n == slot
  {
    var r := from % n;
    k := if r <= slot then from + (slot - r) else from + (n + slot - r);
    var d := from / n;
    assert from == n * d + r;
    if r <= slot {
      Remainder(k, n, d, slot);
    } else {
      assert n * (d + 1) == n * d + n;
      Remainder(k, n, d + 1, slot);
    }
  }

  lemma {:induction false} Remainder(k: nat, n: nat, d: int, slot: nat)
    requires slot < n && k == n * d + slot
    ensures k % n == slot
  {
    var e := k / n;
    assert k == n * e + k % n;
    assert n * (e - d) == slot - k % n;
    if e - d >= 1 { Larger(n, e - d); }
    if e - d <= -1 { Larger(n, d - e); }
  }

  // ---------- the prefix cache ----------

  /** A row of a dataset; staging a row without audio raises. */
  datatype Row = Row(id: string, hasAudio: bool)

  datatype Loaded = Failed | Rows(rows: seq<Row>)

  /** A dataset's name stands for repository, split and revision. */
  datatype Key = Key(dataset: string, limit: Option<int>)

  function Clamp(n: int, limit: int): nat
    requires n >= 0
  { if limit < 0 then 0 else if limit <= n then limit else n }

  function Wanted(corpus: seq<Row>, limit: Option<int>): seq<Row> {
    if limit.None? then corpus else corpus[..Clamp(|corpus|, limit.value)]
  }

  /** A load that no cache helps with. */
  function Fresh(corpus: seq<Row>, limit: Option<int>): Loaded {
    if exists r | r in Wanted(corpus, limit) :: !r.hasAudio then Failed else Rows(Wanted(corpus, limit))
  }

  /** Python's rows[:limit], where a negative bound counts from the end. */
  function Slice(rows: seq<Row>, limit: int): seq<Row> {
    if limit >= 0 then rows[..Clamp(|rows|, limit)] else rows[..Clamp(|rows|, |rows| + limit)]
  }

  /** What a load gives, with the whole dataset staged or not. */
  function Answer(staged: bool, corpus: seq<Row>, limit: Option<int>): Loaded {
    if staged && limit.Some? then Rows(Slice(corpus, limit.value)) else Fresh(corpus, limit)
  }

  /** A load without help from the cache, row by row: it fails exactly when one of the rows asked for
      has no audio, and otherwise gives the first rows, as many as asked for. */
  lemma {:induction false} FreshRows(corpus: seq<Row>, limit: Option<int>)
    ensures Fresh(corpus, limit).Failed? <==>
      exists k :: 0 <= k < |corpus| && (limit.Some? ==> k < limit.value) && !corpus[k].hasAudio
    ensures Fresh(corpus, limit).Rows? ==>
      var rows := Fresh(corpus, limit).rows;
      && |rows| == (if limit.None? || limit.value >= |corpus| then |corpus| else if limit.value < 0 then 0 else limit.value)
      && forall k | 0 <= k < |rows| :: rows[k] == corpus[k]
  {
    var wanted := Wanted(corpus, limit);
    forall k | 0 <= k < |corpus| && (limit.Some? ==> k < limit.value) ensures corpus[k] in wanted { assert wanted[k] == corpus[k]; }
    assert forall k | 0 <= k < |wanted| :: wanted[k] == corpus[k] && (limit.Some? ==> k < limit.value);
    if r :| r in wanted && !r.hasAudio {
      var k :| 0 <= k < |wanted| && wanted[k] == r;
      assert !corpus[k].hasAudio;
    }
  }

  /** A bound counts from the front, a negative one from the end. */
  lemma {:induction false} SliceRows(rows: seq<Row>, limit: int)
    ensures |Slice(rows, limit)| ==
      if limit >= |rows| then |rows| else if limit >= 0 then limit else if |rows| + limit > 0 then |rows| + limit else 0
    ensures forall k | 0 <= k < |Slice(rows, limit)| :: Slice(rows, limit)[k] == rows[k]
  {}

  class StagedCache {
    var entries: map<Key, seq<Row>>

    /** Every entry is what a fresh load of its key would have given. */
    ghost predicate Valid(corpora: map<string, seq<Row>>)
      reads this
    {
      forall k | k in entries ::
        k.dataset in corpora && Fresh(corpora[k.dataset], k.limit) == Rows(entries[k])
    }

    constructor (corpora: map<string, seq<Row>>)
      ensures entries == map[] && Valid(corpora)
    { entries := map[]; }

    method LoadFromArrow(dataset: string, limit: Option<int>, corpora: map<string, seq<Row>>) returns (loaded: Loaded)
      requires dataset in corpora && Valid(corpora)
      modifies this
      ensures Valid(corpora)
      ensures limit.None? || limit.value >= 0 || Key(dataset, None) !in old(entries) ==>
        loaded == Fresh(corpora[dataset], limit)
      ensures limit.Some? && Key(dataset, None) in old(entries) ==>
        loaded == Rows(Slice(corpora[dataset], limit.value))
      ensures loaded == Answer(Key(dataset, None) in old(entries), corpora[dataset], limit)
      ensures entries ==
        if Key(dataset, None) in old(entries) || Key(dataset, limit) in old(entries) || loaded.Failed? then old(entries)
        else old(entries)[Key(dataset, limit) := loaded.rows]
    {
      var corpus := corpora[dataset];
      if Key(dataset, None) in entries {
        var rows := entries[Key(dataset, None)];
        if limit.Some? && limit.value >= 0 { PrefixOfAll(corpus, limit.value); }
        return Rows(if limit.None? then rows else Slice(rows, limit.value));
      }
      if Key(dataset, limit) in entries {
        return Rows(entries[Key(dataset, limit)]);
      }
      var wanted := Wanted(corpus, limit);
      var samples: seq<Row> := [];
      for k := 0 to |wanted|
        invariant samples == wanted[..k]
        invariant forall j | 0 <= j < k :: wanted[j].hasAudio
      {
        if !wanted[k].hasAudio {
          return Failed;
        }
        samples := samples + [wanted[k]];
      }
      assert samples == wanted;
      entries := entries[Key(dataset, limit) := samples];
      loaded := Rows(samples);
    }
  }

  lemma {:induction false} PrefixOfAll(corpus: seq<Row>, limit: nat)
    requires Fresh(corpus, None).Rows?
    ensures Rows(Slice(corpus, limit)) == Fresh(corpus, Some(limit))
  {
    assert forall r | r in Wanted(corpus, Some(limit)) :: r in corpus;
  }

  /** A negative limit is answered from the full entry by dropping rows from the end, and without
      it by nothing at all; the two agree only when nothing is left. */
  lemma {:induction false} NegativeLimit(corpus: seq<Row>, limit: int)
    requires limit < 0 && Fresh(corpus, None).Rows?
    ensures Rows(Slice(corpus, limit)) == Fresh(corpus, Some(limit)) <==> |corpus| <= -limit
  {
    assert Wanted(corpus, Some(limit)) == [];
    assert Fresh(corpus, Some(limit)) == Rows([]);
    assert |Slice(corpus, limit)| == Clamp(|corpus|, |corpus| + limit);
  }

  // ---------- one client's samples ----------

  datatype Shard = BadOffset | Shard(loaded: Loaded)

  /** A missing or zero maximum means everything from the offset on, but only for a non-zero offset. */
  method LoadBenchmarkSamples(cache: StagedCache, dataset: string, offset: int, limit: Option<int>,
                              corpora: map<string, seq<Row>>) returns (shard: Shard)
    requires dataset in corpora && cache.Valid(corpora)
    modifies cache
    ensures cache.Valid(corpora)
    ensures shard.BadOffset? <==> offset < 0
    ensures offset >= 0 ==>
      var staged, corpus := Key(dataset, None) in old(cache.entries), corpora[dataset];
      shard == Shard(
        if offset == 0 then Answer(staged, corpus, limit)
        else From(Answer(staged, corpus, if Asked(limit) then Some(offset + limit.value) else None), offset))
    ensures offset == 0 && (limit.None? || limit.value >= 0) ==> shard == Shard(Fresh(corpora[dataset], limit))
    ensures offset > 0 && (limit.None? || limit.value >= 0) ==>
      shard.loaded == From(Fresh(corpora[dataset], if Asked(limit) then Some(offset + limit.value) else None), offset)
  {
    if offset < 0 {
      return BadOffset;
    }
    if offset != 0 {
      var head := offset + if limit.Some? then limit.value else 0;
      var loaded := cache.LoadFromArrow(dataset, if Asked(limit) then Some(head) else None, corpora);
      return Shard(From(loaded, offset));
    }
    var loaded := cache.LoadFromArrow(dataset, limit, corpora);
    shard := Shard(loaded);
  }

  predicate Asked(limit: Option<int>) { limit.Some? && limit.value != 0 }

  function From(loaded: Loaded, offset: nat): Loaded {
    if loaded.Failed? then Failed else Rows(loaded.rows[Clamp(|loaded.rows|, offset)..])
  }

  /** Over a sound corpus of the expected size, each client of each stage gets exactly its own
      block of rows. */
  lemma {:induction false} EachGetsItsBlock(corpus: seq<Row>, clients: int, samples: int, stage: nat, i: nat)
    requires |corpus| == EN_TOTAL && (forall r | r in corpus :: r.hasAudio)
    requires Accepted(clients, samples) && i < clients
    ensures var at := Offset(stage, i, samples);
      && 0 <= at && at + samples <= |corpus|
      && From(Fresh(corpus, Some(at + samples)), at) == Rows(corpus[at..at + samples])
      && (at == 0 ==> Fresh(corpus, Some(samples)) == Rows(corpus[at..at + samples]))
  {
    InCorpus(samples, stage, i);
    hide Offset, Slots;
    var at := Offset(stage, i, samples);
    assert Wanted(corpus, Some(at + samples)) == corpus[..at + samples];
    assert corpus[..at + samples][at..] == corpus[at..at + samples];
  }
}
