/** Spreading a share of sampled requests evenly over a run.  The ratio is the fraction p / q. */
module Dosample {

  function Floor(k: int, p: int, q: int): int
    requires q > 0
  { k * p / q }

  function Flag(k: nat, p: int, q: int): bool
    requires q > 0
  { Floor(k + 1, p, q) > Floor(k, p, q) }

  datatype Outcome = BadRatio | Flags(flags: map<string, bool>)

  /** The index of the last sample with this id. */
  function LastIndex(ids: seq<string>, id: string): (k: nat)
    requires id in ids
    ensures k < |ids| && ids[k] == id && forall j | k < j < |ids| :: ids[j] != id
  {
    if ids[|ids| - 1] == id then |ids| - 1 else LastIndex(ids[..|ids| - 1], id)
  }

  /** One entry per sample id; samples that share an id share the flag of the last of them. */
  method SubtalkerDosampleFlags(ids: seq<string>, p: int, q: int) returns (outcome: Outcome)
    requires q > 0
    ensures outcome.BadRatio? <==> !(0 <= p <= q)
    ensures outcome.Flags? ==> outcome.flags.Keys == set id | id in ids
    ensures outcome.Flags? ==> forall id | id in ids :: id in outcome.flags && outcome.flags[id] == Flag(LastIndex(ids, id), p, q)
  {
    if p < 0 || p > q {
      return BadRatio;
    }
    hide Flag;
    var flags: map<string, bool> := map[];
    for k := 0 to |ids|
      invariant flags.Keys == set id | id in ids[..k]
      invariant forall id | id in ids[..k] :: id in flags && flags[id] == Flag(LastIndex(ids[..k], id), p, q)
    {
      assert ids[..k + 1] == ids[..k] + [ids[k]];
      assert ids[..k + 1][..k] == ids[..k];
      flags := flags[ids[k] := Flag(k, p, q)];
    }
    assert ids[..|ids|] == ids;
    outcome := Flags(flags);
  }

  /** How many of the flags from, ..., from + count - 1 are set. */
  function Trues(from: nat, count: nat, p: int, q: int): nat
    requires q > 0
  { if count == 0 then 0 else Trues(from, count - 1, p, q) + if Flag(from + count - 1, p, q) then 1 else 0 }

  lemma {:induction false} StepsByOne(k: int, p: int, q: int)
    requires q > 0 && 0 <= p <= q
    ensures Floor(k, p, q) <= Floor(k + 1, p, q) <= Floor(k, p, q) + 1
  {
    assert (k + 1) * p == k * p + p;
    Between(k * p, p, q);
  }

  // ---------- quotients ----------

  lemma {:induction false} Division(a: int, q: int)
    requires q > 0
    ensures q * (a / q) <= a < q * (a / q) + q
  {}

  lemma {:induction false} Magnitude(q: int, x: int)
    requires q > 0
    ensures x >= 1 ==> q * x >= q
    ensures x >= 2 ==> q * x >= 2 * q
    ensures x <= -1 ==> q * x <= -q
  {
    if x >= 1 { assert q * (x - 1) >= 0; }
    if x >= 2 { assert q * (x - 2) >= 0; }
    if x <= -1 { assert q * (x + 1) <= 0; }
  }

  /** The quotient is the only d with q d <= a < q d + q. */
  lemma {:induction false} Quotient(a: int, q: int, d: int)
    requires q > 0 && q * d <= a < q * d + q
    ensures a / q == d
  {
    Division(a, q);
    Magnitude(q, a / q - d);
    assert q * (a / q - d) == q * (a / q) - q * d;
  }

  lemma {:induction false} Between(a: int, b: int, q: int)
    requires q > 0 && 0 <= b <= q
    ensures a / q <= (a + b) / q <= a / q + 1
  {
    Division(a, q);
    Division(a + b, q);
    var d, e := a / q, (a + b) / q;
    Magnitude(q, e - d);
    assert q * (e - d) == q * e - q * d;
  }

  /** A window holds the difference of the two floors. */
  lemma {:induction false} WindowCount(from: nat, count: nat, p: int, q: int)
    requires q > 0 && 0 <= p <= q
    ensures Trues(from, count, p, q) == Floor(from + count, p, q) - Floor(from, p, q)
  {
    if count > 0 {
      WindowCount(from, count - 1, p, q);
      StepsByOne(from + count - 1, p, q);
    }
  }

  /** The first k flags contain exactly the floor of k times the ratio. */
  lemma {:induction false} PrefixCount(k: nat, p: int, q: int)
    requires q > 0 && 0 <= p <= q
    ensures q * Trues(0, k, p, q) <= k * p < q * Trues(0, k, p, q) + q
  {
    WindowCount(0, k, p, q);
    Quotient(0, q, 0);
    assert Floor(0, p, q) == 0;
    Division(k * p, q);
  }

  /** Every window of m flags contains the floor or the ceiling of m times the ratio. */
  lemma {:induction false} EveryWindowIsFair(from: nat, count: nat, p: int, q: int)
    requires q > 0 && 0 <= p <= q
    ensures count * p - q < q * Trues(from, count, p, q) < count * p + q
  {
    WindowCount(from, count, p, q);
    Division(from * p, q);
    Division((from + count) * p, q);
    Apart(from * p, count * p, Floor(from, p, q), Floor(from + count, p, q), q) by {
      assert (from + count) * p == from * p + count * p;
    }
  }

  lemma {:induction false} Apart(x: int, y: int, a: int, b: int, q: int)
    requires q * a <= x < q * a + q && q * b <= x + y < q * b + q
    ensures y - q < q * (b - a) < y + q
  {
    assert q * (b - a) == q * b - q * a;
  }

  /** The flags repeat with period q; a ratio of zero sets none of them, a ratio of one sets all. */
  lemma {:induction false} Repeats(k: nat, p: int, q: int)
    requires q > 0 && 0 <= p <= q
    ensures Flag(k + q, p, q) == Flag(k, p, q)
    ensures p == 0 ==> !Flag(k, p, q)
    ensures p == q ==> Flag(k, p, q)
  {
    Shift(k * p, p, q);
    Shift((k + 1) * p, p, q);
    assert (k + q) * p == k * p + p * q && (k + q + 1) * p == (k + 1) * p + p * q;
    if p == q {
      Shift(0, k, q);
      Shift(0, k + 1, q);
    }
  }

  lemma {:induction false} Shift(a: int, b: int, q: int)
    requires q > 0
    ensures (a + b * q) / q == a / q + b
  {
    Division(a, q);
    assert q * (a / q + b) == q * (a / q) + b * q;
    Quotient(a + b * q, q, a / q + b);
  }
}
