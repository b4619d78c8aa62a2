/** Which predicted speaker is which reference speaker: the assignment of largest overlap. */
module SpeakerMapping {
  import opened Sums
  import opened Segments
  import opened Assignment

  /** Total overlap credited to a pair of speaker labels. */
  function OverlapOf(ref: seq<Segment>, pred: seq<Segment>): Match -> int {
    (q: Match) => Overlap(ref, pred, q.left, q.right)
  }

  /** The cost handed to the solver: rows are reference labels, columns predicted labels, and
      the overlap is negated because the solver minimises. */
  function CostMatrix(ref: seq<Segment>, pred: seq<Segment>): Matrix {
    var rows, cols := Labels(ref), Labels(pred);
    seq(|rows|, i requires 0 <= i < |rows| =>
      seq(|cols|, j requires 0 <= j < |cols| => -Overlap(ref, pred, rows[i], cols[j])))
  }

  /** The solver's row and column indexes read back as labels. */
  function Labelled(ps: seq<Match>, rows: seq<int>, cols: seq<int>): (qs: seq<Match>)
    requires forall p | p in ps :: 0 <= p.left < |rows| && 0 <= p.right < |cols|
    ensures |qs| == |ps| && forall k | 0 <= k < |ps| :: qs[k] == Match(rows[ps[k].left], cols[ps[k].right])
  {
    seq(|ps|, k requires 0 <= k < |ps| => Match(rows[ps[k].left], cols[ps[k].right]))
  }

  /** dict(prediction label -> reference label) */
  function PairMap(qs: seq<Match>): map<int, int> {
    if qs == [] then map[] else PairMap(qs[..|qs| - 1])[qs[|qs| - 1].right := qs[|qs| - 1].left]
  }

  /** A full matching of the labels with the largest total overlap. */
  ghost predicate Best(ref: seq<Segment>, pred: seq<Segment>, qs: seq<Match>) {
    && Matches(qs, Labels(ref), Labels(pred))
    && forall other | Matches(other, Labels(ref), Labels(pred)) ::
         Sum(OverlapOf(ref, pred), other) <= Sum(OverlapOf(ref, pred), qs)
  }

  /** The nested loops of the source: credit the overlap of every two segments to their speakers. */
  method FillOverlap(ref: seq<Segment>, pred: seq<Segment>) returns (overlap: array2<int>)
    ensures fresh(overlap)
    ensures overlap.Length0 == |Labels(ref)| && overlap.Length1 == |Labels(pred)|
    ensures forall i, j | 0 <= i < overlap.Length0 && 0 <= j < overlap.Length1 ::
      overlap[i, j] == Overlap(ref, pred, Labels(ref)[i], Labels(pred)[j])
  {
    var rows, cols := Labels(ref), Labels(pred);
    overlap := new int[|rows|, |cols|]((i, j) => 0);
    assert forall x, y :: Overlap([], pred, x, y) == 0;
    hide Overlap, OverlapWith, SegmentOverlap;
    for a := 0 to |ref|
      invariant forall i, j | 0 <= i < |rows| && 0 <= j < |cols| ::
        overlap[i, j] == Overlap(ref[..a], pred, rows[i], cols[j])
    {
      LabelOf(ref, a);
      var row := IndexOf(ref[a].speaker, rows);
      assert forall y :: OverlapWith(ref[a], [], y) == 0 by { NoneYet(ref[a]); }
      for b := 0 to |pred|
        invariant forall i, j | 0 <= i < |rows| && 0 <= j < |cols| ::
          overlap[i, j] == Overlap(ref[..a], pred, rows[i], cols[j]) +
            if i == row then OverlapWith(ref[a], pred[..b], cols[j]) else 0
      {
        LabelOf(pred, b);
        var column := IndexOf(pred[b].speaker, cols);
        var duration := SegmentOverlap(ref[a], pred[b]);
        OneMorePrediction(ref[a], pred, b);
        if duration > 0 {
          overlap[row, column] := overlap[row, column] + duration;
        }
      }
      assert pred[..|pred|] == pred;
      OneMoreReference(ref, pred, a);
    }
    assert ref[..|ref|] == ref;
  }

  lemma {:induction false} NoneYet(left: Segment)
    ensures forall y :: OverlapWith(left, [], y) == 0
  {}

  lemma {:induction false} OneMorePrediction(left: Segment, pred: seq<Segment>, b: nat)
    requires b < |pred|
    ensures SegmentOverlap(left, pred[b]) >= 0
    ensures forall y ::
      OverlapWith(left, pred[..b + 1], y) == OverlapWith(left, pred[..b], y) +
      if pred[b].speaker == y then SegmentOverlap(left, pred[b]) else 0
  {
    assert pred[..b + 1][..b] == pred[..b];
  }

  lemma {:induction false} OneMoreReference(ref: seq<Segment>, pred: seq<Segment>, a: nat)
    requires a < |ref|
    ensures forall x, y ::
      Overlap(ref[..a + 1], pred, x, y) == Overlap(ref[..a], pred, x, y) +
      if ref[a].speaker == x then OverlapWith(ref[a], pred, y) else 0
  {
    assert ref[..a + 1][..a] == ref[..a];
  }

  lemma {:induction false} LabelOf(segs: seq<Segment>, k: nat)
    requires k < |segs|
    ensures segs[k].speaker in Labels(segs)
    ensures forall i, j | 0 <= i < j < |Labels(segs)| :: Labels(segs)[i] != Labels(segs)[j]
  {}

  /** The negated matrix as a value. */
  method Negated(overlap: array2<int>) returns (cost: Matrix)
    ensures |cost| == overlap.Length0
    ensures forall i | 0 <= i < |cost| :: |cost[i]| == overlap.Length1
    ensures forall i, j | 0 <= i < |cost| && 0 <= j < |cost[i]| :: cost[i][j] == -overlap[i, j]
  {
    cost := [];
    for i := 0 to overlap.Length0
      invariant |cost| == i
      invariant forall k | 0 <= k < i :: |cost[k]| == overlap.Length1
      invariant forall k, j | 0 <= k < i && 0 <= j < |cost[k]| :: cost[k][j] == -overlap[k, j]
    {
      var row: seq<int> := [];
      for j := 0 to overlap.Length1
        invariant |row| == j && forall k | 0 <= k < j :: row[k] == -overlap[i, k]
      {
        row := row + [-overlap[i, j]];
      }
      cost := cost + [row];
    }
  }

  /** The dictionary built from the solver's row and column indexes. */
  method ReadMapping(ps: seq<Match>, rows: seq<int>, cols: seq<int>) returns (mapping: map<int, int>)
    requires forall p | p in ps :: 0 <= p.left < |rows| && 0 <= p.right < |cols|
    ensures mapping == PairMap(Labelled(ps, rows, cols))
  {
    ghost var qs := Labelled(ps, rows, cols);
    mapping := map[];
    for k := 0 to |ps|
      invariant mapping == PairMap(qs[..k])
    {
      assert ps[k] in ps;
      mapping := mapping[cols[ps[k].right] := rows[ps[k].left]];
      assert qs[..k + 1][..k] == qs[..k];
    }
    assert qs[..|ps|] == qs;
  }

  /** From overlaps to the speaker mapping, whatever optimum the solver returns. */
  method BestMapping(ref: seq<Segment>, pred: seq<Segment>, solve: Matrix -> seq<Match>)
    returns (mapping: map<int, int>)
    requires CorrectSolver(solve)
    ensures exists qs :: Best(ref, pred, qs) && mapping == PairMap(qs)
  {
    var rows, cols := Labels(ref), Labels(pred);
    if rows == [] || cols == [] {
      mapping := map[];
      assert Best(ref, pred, []) && mapping == PairMap([]);
      return;
    }
    var overlap := FillOverlap(ref, pred);
    var cost := Negated(overlap);
    assert cost == CostMatrix(ref, pred) by {
      assert forall i | 0 <= i < |cost| :: cost[i] == CostMatrix(ref, pred)[i];
    }
    var ps := solve(cost);
    assert Optimal(cost, ps);
    ghost var qs := Labelled(ps, rows, cols);
    mapping := ReadMapping(ps, rows, cols);
    OptimalIsBest(ref, pred, ps);
  }

  /** Index level to label level: an optimal assignment of the cost matrix is a matching of the
      labels that no other matching of the labels beats. */
  lemma {:induction false} OptimalIsBest(ref: seq<Segment>, pred: seq<Segment>, ps: seq<Match>)
    requires Optimal(CostMatrix(ref, pred), ps)
    requires Labels(ref) != [] && Labels(pred) != []
    ensures Best(ref, pred, Labelled(ps, Labels(ref), Labels(pred)))
  {
    var rows, cols, m := Labels(ref), Labels(pred), CostMatrix(ref, pred);
    assert |m| == |rows| && Width(m) == |cols|;
    var qs := Labelled(ps, rows, cols);
    LabelledMatches(ps, rows, cols);
    LabelledSum(ref, pred, ps);
    forall other | Matches(other, rows, cols)
      ensures Sum(OverlapOf(ref, pred), other) <= Sum(OverlapOf(ref, pred), qs)
    {
      var indexes := Indexed(other, rows, cols);
      assert Assigns(m, indexes);
      LabelledSum(ref, pred, indexes);
      assert Labelled(indexes, rows, cols) == other;
    }
  }

  lemma {:induction false} LabelledMatches(ps: seq<Match>, rows: seq<int>, cols: seq<int>)
    requires Distinct(rows) && Distinct(cols)
    requires Matches(ps, Range(0, |rows|), Range(0, |cols|))
    ensures Matches(Labelled(ps, rows, cols), rows, cols)
  {
    var qs := Labelled(ps, rows, cols);
    forall k | 0 <= k < |ps| ensures qs[k].left in rows && qs[k].right in cols { assert ps[k] in ps; }
    forall i, j | 0 <= i < j < |ps| ensures qs[i].left != qs[j].left && qs[i].right != qs[j].right {
      assert Lefts(ps)[i] != Lefts(ps)[j] && Rights(ps)[i] != Rights(ps)[j];
    }
  }

  lemma {:induction false} LabelledSum(ref: seq<Segment>, pred: seq<Segment>, ps: seq<Match>)
    requires forall p | p in ps :: 0 <= p.left < |Labels(ref)| && 0 <= p.right < |Labels(pred)|
    ensures Sum(Entry(CostMatrix(ref, pred)), ps) ==
            -Sum(OverlapOf(ref, pred), Labelled(ps, Labels(ref), Labels(pred)))
  {
    assert forall k | 0 <= k < |ps| :: ps[k] in ps;
    Mapped(Entry(CostMatrix(ref, pred)), OverlapOf(ref, pred), -1, ps, Labelled(ps, Labels(ref), Labels(pred)));
  }

  lemma {:induction false} Indexed(qs: seq<Match>, rows: seq<int>, cols: seq<int>) returns (ps: seq<Match>)
    requires Matches(qs, rows, cols) && Distinct(rows) && Distinct(cols)
    ensures Matches(ps, Range(0, |rows|), Range(0, |cols|))
    ensures Labelled(ps, rows, cols) == qs
  {
    assert forall k | 0 <= k < |qs| :: qs[k] in qs;
    ps := seq(|qs|, k requires 0 <= k < |qs| => Match(IndexOf(qs[k].left, rows), IndexOf(qs[k].right, cols)));
    assert forall k | 0 <= k < |qs| :: Lefts(qs)[k] == rows[ps[k].left] && Rights(qs)[k] == cols[ps[k].right];
  }
}
