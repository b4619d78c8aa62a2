/** Character-level edit distance behind every error rate of the benchmark.

An edit script is a list of character operations; `Source` and `Target` read off the two
strings it relates and `Cost` counts the operations that change something.  This is the
meaning of the distance, and it says nothing about tables.  `Distance` is the recurrence of
the dynamic program, `Levenshtein` the two-row loop that computes it. */
module EditDistance {

  datatype Edit<T> = Keep(c: T) | Replace(from: T, to: T) | Delete(d: T) | Insert(i: T)

  // ---------- what a distance means ----------

  function Source<T>(script: seq<Edit<T>>): seq<T> {
    if script == [] then [] else
      Source(script[..|script| - 1]) +
      match script[|script| - 1]
      case Keep(c) => [c]
      case Replace(x, _) => [x]
      case Delete(x) => [x]
      case Insert(_) => []
  }

  function Target<T>(script: seq<Edit<T>>): seq<T> {
    if script == [] then [] else
      Target(script[..|script| - 1]) +
      match script[|script| - 1]
      case Keep(c) => [c]
      case Replace(_, y) => [y]
      case Delete(_) => []
      case Insert(y) => [y]
  }

  function Cost<T>(script: seq<Edit<T>>): nat {
    if script == [] then 0 else
      Cost(script[..|script| - 1]) + if script[|script| - 1].Keep? then 0 else 1
  }

  ghost predicate Turns<T>(script: seq<Edit<T>>, a: seq<T>, b: seq<T>) {
    Source(script) == a && Target(script) == b
  }

  // ---------- the recurrence ----------

  function Least(x: nat, y: nat, z: nat): nat {
    if x <= y && x <= z then x else if y <= z then y else z
  }

  /** Distance between the first i characters of `a` and the first j of `b`. */
  function Cell<T(==)>(a: seq<T>, b: seq<T>, i: nat, j: nat): nat
    requires i <= |a| && j <= |b|
  {
    if i == 0 then j
    else if j == 0 then i
    else
      Least(Cell(a, b, i - 1, j) + 1,
            Cell(a, b, i, j - 1) + 1,
            Cell(a, b, i - 1, j - 1) + if a[i - 1] == b[j - 1] then 0 else 1)
  }

  /** One unfolding of `Cell`, for proofs that hide the rest of the table. */
  lemma {:induction false} CellStep<T>(a: seq<T>, b: seq<T>, i: nat, j: nat)
    requires i <= |a| && j <= |b|
    ensures i == 0 ==> Cell(a, b, i, j) == j
    ensures j == 0 ==> Cell(a, b, i, j) == i
    ensures 0 < i && 0 < j ==>
      Cell(a, b, i, j) ==
      Least(Cell(a, b, i - 1, j) + 1,
            Cell(a, b, i, j - 1) + 1,
            Cell(a, b, i - 1, j - 1) + if a[i - 1] == b[j - 1] then 0 else 1)
  {}

  function Distance<T(==)>(a: seq<T>, b: seq<T>): nat { Cell(a, b, |a|, |b|) }

  /** The loop of the source: one row per reference character, each built left to right from
      the row above it. */
  method Levenshtein<T(==)>(reference: seq<T>, prediction: seq<T>) returns (distance: nat)
    ensures distance == Distance(reference, prediction)
  {
    hide Cell;
    forall j | 0 <= j <= |prediction| { CellStep(reference, prediction, 0, j); }
    var previous: seq<nat> := seq(|prediction| + 1, j => j);
    for i := 1 to |reference| + 1
      invariant |previous| == |prediction| + 1
      invariant forall j | 0 <= j <= |prediction| :: previous[j] == Cell(reference, prediction, i - 1, j)
    {
      CellStep(reference, prediction, i, 0);
      var current: seq<nat> := [i];
      for j := 1 to |prediction| + 1
        invariant |current| == j
        invariant forall k | 0 <= k < j :: current[k] == Cell(reference, prediction, i, k)
      {
        var substitution := if reference[i - 1] == prediction[j - 1] then 0 else 1;
        CellStep(reference, prediction, i, j);
        current := current + [Least(previous[j] + 1, current[j - 1] + 1, previous[j - 1] + substitution)];
      }
      previous := current;
    }
    distance := previous[|previous| - 1];
  }

  // ---------- the recurrence is the minimum over all scripts ----------

  lemma {:induction false} Append<T>(script: seq<Edit<T>>, e: Edit<T>)
    ensures (script + [e])[..|script|] == script
    ensures Source(script + [e]) == Source(script) + Source([e])
    ensures Target(script + [e]) == Target(script) + Target([e])
    ensures Cost(script + [e]) == Cost(script) + Cost([e])
  {}

  /** Some script reaches the distance. */
  lemma {:induction false} Achieved<T>(a: seq<T>, b: seq<T>, i: nat, j: nat) returns (script: seq<Edit<T>>)
    requires i <= |a| && j <= |b|
    ensures Turns(script, a[..i], b[..j]) && Cost(script) == Cell(a, b, i, j)
    decreases i + j
  {
    hide Cell;
    CellStep(a, b, i, j);
    if i == 0 && j == 0 {
      script := [];
    } else {
      hide Source;
      hide Target;
      hide Cost;
      var shorter, last;
      assert i > 0 ==> a[..i] == a[..i - 1] + [a[i - 1]];
      assert j > 0 ==> b[..j] == b[..j - 1] + [b[j - 1]];
      if j == 0 || (i != 0 && Cell(a, b, i, j) == Cell(a, b, i - 1, j) + 1) {
        CellStep(a, b, i - 1, j);
        shorter := Achieved(a, b, i - 1, j);
        last := Delete(a[i - 1]);
      } else if i == 0 || Cell(a, b, i, j) == Cell(a, b, i, j - 1) + 1 {
        CellStep(a, b, i, j - 1);
        shorter := Achieved(a, b, i, j - 1);
        last := Insert(b[j - 1]);
      } else {
        shorter := Achieved(a, b, i - 1, j - 1);
        last := if a[i - 1] == b[j - 1] then Keep(a[i - 1]) else Replace(a[i - 1], b[j - 1]);
      }
      script := shorter + [last];
      Append(shorter, last);
      Single(last);
    }
  }

  lemma {:induction false} Single<T>(e: Edit<T>)
    ensures Source([e]) == match e { case Keep(c) => [c] case Replace(x, _) => [x] case Delete(x) => [x] case Insert(_) => [] }
    ensures Target([e]) == match e { case Keep(c) => [c] case Replace(_, y) => [y] case Delete(_) => [] case Insert(y) => [y] }
    ensures Cost([e]) == if e.Keep? then 0 else 1
  {}

  /** No script is cheaper: after any number of its steps a script has spent at least the cell
      for the prefixes it has covered. */
  lemma {:induction false} NoCheaper<T>(script: seq<Edit<T>>, a: seq<T>, b: seq<T>)
    requires Source(script) <= a && Target(script) <= b
    ensures Cell(a, b, |Source(script)|, |Target(script)|) <= Cost(script)
  {
    if script != [] {
      NoCheaper(script[..|script| - 1], a, b);
    }
  }

  /** The distance is the least cost of a script turning `a` into `b`. */
  lemma {:induction false} DistanceIsLeastCost<T>(a: seq<T>, b: seq<T>, d: nat)
    ensures d == Distance(a, b) <==>
      (exists script :: Turns(script, a, b) && Cost(script) == d) &&
      (forall script :: Turns(script, a, b) ==> d <= Cost(script))
  {
    var best := Best(a, b);
    forall script: seq<Edit<T>> | Turns(script, a, b) ensures Distance(a, b) <= Cost(script) {
      NoCheaper(script, a, b);
    }
  }

  lemma {:induction false} Best<T>(a: seq<T>, b: seq<T>) returns (script: seq<Edit<T>>)
    ensures Turns(script, a, b) && Cost(script) == Distance(a, b)
  {
    script := Achieved(a, b, |a|, |b|);
    assert a[..|a|] == a && b[..|b|] == b;
  }

  // ---------- consequences: the distance is a metric with the usual bounds ----------

  function Opposite<T>(e: Edit<T>): Edit<T> {
    match e
    case Keep(c) => Keep(c)
    case Replace(x, y) => Replace(y, x)
    case Delete(x) => Insert(x)
    case Insert(y) => Delete(y)
  }

  function Inverse<T>(script: seq<Edit<T>>): seq<Edit<T>> {
    if script == [] then [] else Inverse(script[..|script| - 1]) + [Opposite(script[|script| - 1])]
  }

  lemma {:induction false} OppositeTurnsBack<T>(e: Edit<T>)
    ensures Turns([Opposite(e)], Target([e]), Source([e])) && Cost([Opposite(e)]) == Cost([e])
  {
    Single(e);
    Single(Opposite(e));
    hide Source, Target, Cost;
  }

  lemma {:induction false} InverseTurnsBack<T>(script: seq<Edit<T>>)
    ensures Turns(Inverse(script), Target(script), Source(script))
    ensures Cost(Inverse(script)) == Cost(script)
  {
    if script != [] {
      var shorter, last := script[..|script| - 1], script[|script| - 1];
      InverseTurnsBack(shorter);
      assert Inverse(script) == Inverse(shorter) + [Opposite(last)];
      hide Source, Target, Cost, Inverse, Opposite;
      assert script == shorter + [last];
      Append(shorter, last);
      Append(Inverse(shorter), Opposite(last));
      OppositeTurnsBack(last);
    }
  }

  lemma {:induction false} Symmetric<T>(a: seq<T>, b: seq<T>)
    ensures Distance(a, b) == Distance(b, a)
  {
    var there := Best(a, b);
    var back := Best(b, a);
    InverseTurnsBack(there);
    InverseTurnsBack(back);
    NoCheaper(Inverse(there), b, a);
    NoCheaper(Inverse(back), a, b);
  }

  /** Running one script after another: position by position, a script from `a` to `b` and one
      from `b` to `c` combine into one from `a` to `c` that costs no more than both. */
  lemma {:induction false} Compose<T>(first: seq<Edit<T>>, second: seq<Edit<T>>)
    returns (both: seq<Edit<T>>)
    requires Target(first) == Source(second)
    ensures Turns(both, Source(first), Target(second))
    ensures Cost(both) <= Cost(first) + Cost(second)
    decreases |first| + |second|
  {
    if first != [] && first[|first| - 1].Delete? {
      var rest := Compose(first[..|first| - 1], second);
      both := rest + [first[|first| - 1]];
      Append(rest, first[|first| - 1]);
    } else if second != [] && second[|second| - 1].Insert? {
      var rest := Compose(first, second[..|second| - 1]);
      both := rest + [second[|second| - 1]];
      Append(rest, second[|second| - 1]);
    } else if first == [] {
      both := [];
      assert second == [];
    } else {
      var f, s := first[|first| - 1], second[|second| - 1];
      var first', second' := first[..|first| - 1], second[..|second| - 1];
      var m := Target(first);
      assert m[..|m| - 1] == Target(first') == Source(second');
      var rest := Compose(first', second');
      if f.Insert? && s.Delete? {
        both := rest;
      } else {
        var e := Joined(f, s);
        both := rest + [e];
        Append(rest, e);
        assert [e][..0] == [];
      }
    }
  }

  /** Two operations that meet in the same middle character, neither dropping it on both sides. */
  function Joined<T(==)>(f: Edit<T>, s: Edit<T>): Edit<T>
    requires !f.Delete? && !s.Insert? && !(f.Insert? && s.Delete?)
  {
    match (f, s)
    case (Keep(_), _) => s
    case (_, Keep(_)) => f
    case (Replace(x, _), Replace(_, z)) => Replace(x, z)
    case (Replace(x, _), Delete(_)) => Delete(x)
    case (Insert(_), Replace(_, z)) => Insert(z)
  }

  lemma {:induction false} Triangle<T>(a: seq<T>, b: seq<T>, c: seq<T>)
    ensures Distance(a, c) <= Distance(a, b) + Distance(b, c)
  {
    var first := Best(a, b);
    var second := Best(b, c);
    var both := Compose(first, second);
    NoCheaper(both, a, c);
  }

  /** Zero exactly on equal strings; at least the length difference, at most the longer length. */
  lemma {:induction false} Bounds<T>(a: seq<T>, b: seq<T>)
    ensures Distance(a, b) == 0 <==> a == b
    ensures |a| <= |b| + Distance(a, b) && |b| <= |a| + Distance(a, b)
    ensures Distance(a, b) <= if |a| <= |b| then |b| else |a|
  {
    CellBounds(a, b, |a|, |b|);
    assert a[..|a|] == a && b[..|b|] == b;
  }

  lemma {:induction false} CellBounds<T>(a: seq<T>, b: seq<T>, i: nat, j: nat)
    requires i <= |a| && j <= |b|
    ensures Cell(a, b, i, j) == 0 <==> a[..i] == b[..j]
    ensures i <= j + Cell(a, b, i, j) && j <= i + Cell(a, b, i, j)
    ensures Cell(a, b, i, j) <= if i <= j then j else i
  {
    hide Cell;
    CellStep(a, b, i, j);
    if i > 0 && j > 0 {
      CellBounds(a, b, i - 1, j);
      CellBounds(a, b, i, j - 1);
      CellBounds(a, b, i - 1, j - 1);
      assert a[..i] == a[..i - 1] + [a[i - 1]] && b[..j] == b[..j - 1] + [b[j - 1]];
    }
  }
}
