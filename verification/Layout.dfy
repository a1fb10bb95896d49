/** How the dashboard shares out terminal rows by weight (internal/tui/runview/runview.go): a
    largest-remainder apportionment. */
module Layout {
  // ---------------------------------------------------------------- scaledHeights

  function Sum(xs: seq<int>): int
  {
    if xs == [] then 0 else Sum(xs[..|xs| - 1]) + xs[|xs| - 1]
  }

  function Floor(minHeight: int): int { if minHeight < 0 then 0 else minHeight }

  /** What is left to share out after every row got the minimum. */
  function Spare(total: int, rows: nat, minHeight: int): int { total - rows * Floor(minHeight) }

  function Share(spare: int, weight: int, weightSum: int): int
    requires weightSum > 0
  {
    spare * weight / weightSum
  }

  function Remainder(spare: int, weight: int, weightSum: int): int
    requires weightSum > 0
  {
    spare * weight % weightSum
  }

  /** Row `i` comes before row `j` in the handing out of leftovers. */
  predicate Before(rems: seq<int>, i: nat, j: nat)
    requires i < |rems| && j < |rems|
  {
    rems[i] > rems[j] || (rems[i] == rems[j] && i < j)
  }

  predicate Sharable(weights: seq<int>)
  {
    Sum(weights) > 0 && forall i :: 0 <= i < |weights| ==> weights[i] >= 0
  }

  function Remainders(spare: int, weights: seq<int>, weightSum: int): (rems: seq<int>)
    requires weightSum > 0
    ensures |rems| == |weights|
    ensures forall i :: 0 <= i < |rems| ==> rems[i] == Remainder(spare, weights[i], weightSum)
    ensures forall i :: 0 <= i < |rems| ==> 0 <= rems[i] < weightSum
  {
    seq(|weights|, i requires 0 <= i < |weights| => Remainder(spare, weights[i], weightSum))
  }

  function Shares(spare: int, weights: seq<int>, weightSum: int): (shares: seq<int>)
    requires weightSum > 0
    ensures |shares| == |weights|
    ensures forall i :: 0 <= i < |shares| ==> shares[i] == Share(spare, weights[i], weightSum)
  {
    seq(|weights|, i requires 0 <= i < |weights| => Share(spare, weights[i], weightSum))
  }

  function Ones(marks: seq<bool>): (ones: seq<int>)
    ensures |ones| == |marks| && forall i :: 0 <= i < |marks| ==> ones[i] == if marks[i] then 1 else 0
  {
    seq(|marks|, i requires 0 <= i < |marks| => if marks[i] then 1 else 0)
  }

  /** The marked rows have remainders, larger ones than the rows not marked (or equal and earlier). */
  predicate Picked(rems: seq<int>, marks: seq<bool>)
  {
    && |marks| == |rems|
    && (forall i :: 0 <= i < |rems| && marks[i] ==> rems[i] > 0)
    && (forall i, j :: 0 <= i < |rems| && 0 <= j < |rems| && marks[i] && !marks[j] ==> Before(rems, i, j))
  }

  /** `marks` says which rows get one more than their whole share: as many as cells are left over. */
  predicate Bonus(spare: int, weights: seq<int>, marks: seq<bool>)
    requires Sharable(weights)
  {
    && Picked(Remainders(spare, weights, Sum(weights)), marks)
    && Sum(Ones(marks)) == spare - Sum(Shares(spare, weights, Sum(weights)))
  }

  predicate Heights(total: int, weights: seq<int>, minHeight: int, heights: seq<int>, marks: seq<bool>)
    requires Sharable(weights)
  {
    var shares := Shares(Spare(total, |weights|, minHeight), weights, Sum(weights));
    && |heights| == |marks| == |weights|
    && forall i :: 0 <= i < |heights| ==> heights[i] == shares[i] + Ones(marks)[i] + Floor(minHeight)
  }

  ghost predicate Apportioned(total: int, weights: seq<int>, minHeight: int, heights: seq<int>)
    requires Sharable(weights)
  {
    exists marks: seq<bool> ::
      Bonus(Spare(total, |weights|, minHeight), weights, marks) && Heights(total, weights, minHeight, heights, marks)
  }

  // ---------------------------------------------------------------- remainders add up

  lemma {:induction false} SumAdd(a: seq<int>, b: seq<int>, c: seq<int>, k: int, m: int)
    requires |a| == |b| == |c| && forall i :: 0 <= i < |a| ==> c[i] == k * a[i] + b[i] + m
    ensures Sum(c) == k * Sum(a) + Sum(b) + |a| * m
  {
    if a != [] {
      var n := |a| - 1;
      SumAdd(a[..n], b[..n], c[..n], k, m);
      assert k * Sum(a) == k * Sum(a[..n]) + k * a[n];
      assert |a| * m == n * m + m;
    }
  }

  /** The remainders come to the leftover cells times the weight sum. */
  lemma RemaindersAddUp(spare: int, weights: seq<int>)
    requires Sharable(weights)
    ensures var w := Sum(weights);
            Sum(Remainders(spare, weights, w)) == (spare - Sum(Shares(spare, weights, w))) * w
  {
    var w := Sum(weights);
    var shares, rems := Shares(spare, weights, w), Remainders(spare, weights, w);
    var products := seq(|weights|, i requires 0 <= i < |weights| => spare * weights[i]);
    forall i | 0 <= i < |weights| ensures products[i] == w * shares[i] + rems[i] + 0 {
      WholeShare(spare, weights[i], w);
    }
    SumAdd(shares, rems, products, w, 0);
    var zeros := seq(|weights|, i => 0);
    SumZeros(zeros);
    SumAdd(weights, zeros, products, spare, 0);
    Factored(spare, w, Sum(shares));
  }

  lemma WholeShare(spare: int, weight: int, w: int)
    requires w > 0
    ensures spare * weight == w * Share(spare, weight, w) + Remainder(spare, weight, w)
  {
  }

  lemma Factored(a: int, w: int, b: int)
    ensures (a - b) * w == a * w - w * b
  {
  }

  lemma {:induction false} SumZeros(zeros: seq<int>)
    requires forall i :: 0 <= i < |zeros| ==> zeros[i] == 0
    ensures Sum(zeros) == 0
  {
    if zeros != [] { SumZeros(zeros[..|zeros| - 1]); }
  }

  lemma {:induction false} SumUpdate(xs: seq<int>, i: nat, x: int)
    requires i < |xs|
    ensures Sum(xs[i := x]) == Sum(xs) - xs[i] + x
  {
    var n := |xs| - 1;
    if i < n {
      SumUpdate(xs[..n], i, x);
      assert xs[i := x][..n] == xs[..n][i := x];
    } else {
      assert xs[i := x][..n] == xs[..n];
    }
  }

  lemma {:induction false} SumNonNegative(xs: seq<int>)
    requires forall i :: 0 <= i < |xs| ==> xs[i] >= 0
    ensures Sum(xs) >= 0
  {
    if xs != [] { SumNonNegative(xs[..|xs| - 1]); }
  }

  lemma {:induction false} SumPositive(xs: seq<int>)
    requires Sum(xs) > 0
    ensures exists i :: 0 <= i < |xs| && xs[i] > 0
  {
    if xs[|xs| - 1] <= 0 { SumPositive(xs[..|xs| - 1]); }
  }

  // ---------------------------------------------------------------- the allocator

  predicate Beats(rems: seq<int>, best: nat, n: nat)
    requires best < |rems| && n <= |rems|
  {
    forall j: nat :: j < n && j != best ==> rems[best] > rems[j] || (rems[best] == rems[j] && best < j)
  }

  method LargestIndex(rems: array<int>) returns (best: nat)
    requires rems.Length > 0
    ensures best < rems.Length && Beats(rems[..], best, rems.Length)
  {
    best := 0;
    for i := 1 to rems.Length
      invariant best < i && Beats(rems[..], best, i)
    {
      if rems[i] > rems[best] {
        best := i;
      }
    }
  }

  /** The remainders of the rows that got no leftover cell. */
  function Unpicked(rems: seq<int>, marks: seq<bool>): (left: seq<int>)
    requires |marks| == |rems|
    ensures |left| == |rems|
    ensures forall i :: 0 <= i < |rems| ==> left[i] == if marks[i] then 0 else rems[i]
  {
    seq(|rems|, i requires 0 <= i < |rems| => if marks[i] then 0 else rems[i])
  }

  lemma PickOne(rems: seq<int>, marks: seq<bool>, best: nat)
    requires |marks| == |rems| && best < |rems| && !marks[best]
    ensures Sum(Unpicked(rems, marks[best := true])) == Sum(Unpicked(rems, marks)) - rems[best]
    ensures Sum(Ones(marks[best := true])) == Sum(Ones(marks)) + 1
  {
    SumUpdate(Unpicked(rems, marks), best, 0);
    assert Unpicked(rems, marks[best := true]) == Unpicked(rems, marks)[best := 0];
    SumUpdate(Ones(marks), best, 1);
    assert Ones(marks[best := true]) == Ones(marks)[best := 1];
  }

  /** Picked rows are struck out. */
  predicate StruckOut(current: seq<int>, rems: seq<int>, marks: seq<bool>)
  {
    && |current| == |rems| == |marks|
    && forall i :: 0 <= i < |rems| ==> current[i] == if marks[i] then -1 else rems[i]
  }

  /** As long as cells are left the best row is one not picked yet, with a remainder. */
  lemma BestIsUnpicked(rems: seq<int>, current: seq<int>, marks: seq<bool>, best: nat)
    requires StruckOut(current, rems, marks) && Picked(rems, marks)
    requires best < |rems| && Beats(current, best, |rems|)
    requires Sum(Unpicked(rems, marks)) > 0
    ensures !marks[best] && rems[best] > 0
    ensures Picked(rems, marks[best := true])
  {
    SumPositive(Unpicked(rems, marks));
    var k: nat :| k < |rems| && Unpicked(rems, marks)[k] > 0;
    assert current[k] > 0;
    forall j: nat | j < |rems| && !marks[j] && j != best ensures Before(rems, best, j) {
      assert current[j] == rems[j];
    }
  }

  /** `cells` are still to be handed out: what the rows not picked yet are owed covers them. */
  predicate Owing(rems: seq<int>, current: seq<int>, marks: seq<bool>, cells: int, weightSum: int)
  {
    && StruckOut(current, rems, marks) && Picked(rems, marks)
    && cells >= 0 && Sum(Unpicked(rems, marks)) >= cells * weightSum
  }

  lemma StillOwed(rems: seq<int>, current: seq<int>, marks: seq<bool>, cells: int, weightSum: int)
    requires Owing(rems, current, marks, cells, weightSum) && cells > 0 && weightSum > 0
    ensures Sum(Unpicked(rems, marks)) > 0 && rems != []
  {
    OneCellLess(cells, weightSum);
  }

  lemma PickBest(rems: seq<int>, current: seq<int>, marks: seq<bool>, best: nat, cells: int, weightSum: int)
    requires Owing(rems, current, marks, cells, weightSum) && cells > 0 && weightSum > 0
    requires best < |rems| && Beats(current, best, |rems|) && rems[best] < weightSum
    ensures var next := marks[best := true];
            && Owing(rems, current[best := -1], next, cells - 1, weightSum)
            && Sum(Ones(next)) == Sum(Ones(marks)) + 1
            && !marks[best]
  {
    StillOwed(rems, current, marks, cells, weightSum);
    BestIsUnpicked(rems, current, marks, best);
    PickOne(rems, marks, best);
    OneCellLess(cells, weightSum);
  }

  /** Marked rows are one cell higher than before. */
  predicate Raised(heights: seq<int>, before: seq<int>, marks: seq<bool>)
  {
    && |heights| == |before| == |marks|
    && forall i :: 0 <= i < |marks| ==> heights[i] == before[i] + Ones(marks)[i]
  }

  lemma RaiseOne(heights: seq<int>, before: seq<int>, marks: seq<bool>, best: nat)
    requires Raised(heights, before, marks) && best < |marks| && !marks[best]
    ensures Raised(heights[best := heights[best] + 1], before, marks[best := true])
  {
  }

  /** The leftover loop: one cell at a time to the row with the largest remainder, which is then
      struck out, so no row is picked twice. */
  method HandOutLeftovers(out: array<int>, rems: array<int>, cells: int, weightSum: int)
    returns (ghost marks: seq<bool>)
    requires out != rems && out.Length == rems.Length && weightSum > 0
    requires forall i :: 0 <= i < rems.Length ==> 0 <= rems[i] < weightSum
    requires Sum(rems[..]) == cells * weightSum
    modifies out, rems
    ensures Picked(old(rems[..]), marks) && Sum(Ones(marks)) == cells
    ensures forall i :: 0 <= i < out.Length ==> out[i] == old(out[i]) + Ones(marks)[i]
  {
    ghost var first, before := rems[..], out[..];
    marks := seq(rems.Length, _ => false);
    assert Unpicked(first, marks) == first;
    SumNonNegative(first);
    NoCellsOwed(cells, weightSum);
    SumZeros(Ones(marks));
    var remainingCells := cells;
    while remainingCells > 0
      invariant Owing(first, rems[..], marks, remainingCells, weightSum)
      invariant Sum(Ones(marks)) == cells - remainingCells && Raised(out[..], before, marks)
    {
      StillOwed(first, rems[..], marks, remainingCells, weightSum);
      var best := LargestIndex(rems);
      PickBest(first, rems[..], marks, best, remainingCells, weightSum);
      RaiseOne(out[..], before, marks, best);
      out[best] := out[best] + 1;
      rems[best] := -1;
      marks := marks[best := true];
      remainingCells := remainingCells - 1;
    }
  }

  lemma NoCellsOwed(cells: int, weightSum: int)
    requires weightSum > 0 && cells * weightSum >= 0
    ensures cells >= 0
  {
    if cells < 0 {
      assert false;
    }
  }

  lemma OneCellLess(cells: int, weightSum: int)
    requires weightSum > 0 && cells > 0
    ensures cells * weightSum == (cells - 1) * weightSum + weightSum > 0
  {
    assert (cells - 1) * weightSum >= 0;
  }

  method ScaledHeights(total: int, weights: seq<int>, minHeight: int) returns (out: array<int>)
    requires weights != [] && Spare(total, |weights|, minHeight) > 0 ==> Sharable(weights)
    ensures fresh(out) && out.Length == |weights|
    ensures weights != [] && Spare(total, |weights|, minHeight) > 0 ==>
              Apportioned(total, weights, minHeight, out[..])
    ensures Spare(total, |weights|, minHeight) <= 0 ==>
              forall i :: 0 <= i < |weights| ==> out[i] == Floor(minHeight)
  {
    out := new int[|weights|];
    if |weights| == 0 {
      return;
    }
    var minimum := minHeight;
    if minimum < 0 {
      minimum := 0;
    }
    for i := 0 to out.Length
      invariant forall j :: 0 <= j < i ==> out[j] == minimum
    {
      out[i] := minimum;
    }
    var minTotal := |weights| * minimum;
    if total <= minTotal {
      return;
    }
    var remaining := total - minTotal;
    var weightSum := WeightSum(weights);
    var rems, used := GiveShares(out, remaining, weights, weightSum);
    RemaindersAddUp(remaining, weights);
    assert rems[..] == Remainders(remaining, weights, weightSum);
    ghost var marks := HandOutLeftovers(out, rems, remaining - used, weightSum);
    assert Bonus(remaining, weights, marks) && Heights(total, weights, minHeight, out[..], marks);
  }

  method WeightSum(weights: seq<int>) returns (weightSum: int)
    ensures weightSum == Sum(weights)
  {
    weightSum := 0;
    for i := 0 to |weights|
      invariant weightSum == Sum(weights[..i])
    {
      assert weights[..i + 1][..i] == weights[..i];
      weightSum := weightSum + weights[i];
    }
    assert weights[..|weights|] == weights;
  }

  /** Every row gets its whole share; the remainders are kept for the leftover cells. */
  method GiveShares(out: array<int>, remaining: int, weights: seq<int>, weightSum: int)
    returns (rems: array<int>, used: int)
    requires out.Length == |weights| && weightSum > 0
    modifies out
    ensures fresh(rems) && rems.Length == |weights|
    ensures used == Sum(Shares(remaining, weights, weightSum))
    ensures forall i :: 0 <= i < |weights| ==> out[i] == old(out[i]) + Share(remaining, weights[i], weightSum)
    ensures forall i :: 0 <= i < |weights| ==> rems[i] == Remainder(remaining, weights[i], weightSum)
  {
    ghost var shares := Shares(remaining, weights, weightSum);
    rems := new int[|weights|];
    used := 0;
    for i := 0 to |weights|
      invariant used == Sum(shares[..i])
      invariant forall j :: 0 <= j < |weights| ==> out[j] == old(out[j]) + if j < i then shares[j] else 0
      invariant forall j :: 0 <= j < i ==> rems[j] == Remainder(remaining, weights[j], weightSum)
    {
      assert shares[..i + 1][..i] == shares[..i];
      var extra := remaining * weights[i] / weightSum;
      out[i] := out[i] + extra;
      used := used + extra;
      rems[i] := remaining * weights[i] % weightSum;
    }
    assert shares[..|weights|] == shares;
  }

  // ---------------------------------------------------------------- what an apportionment is worth

  /** The heights add up to the total exactly. */
  lemma HeightsAddUp(total: int, weights: seq<int>, minHeight: int, heights: seq<int>)
    requires Sharable(weights) && Apportioned(total, weights, minHeight, heights)
    ensures Sum(heights) == total
  {
    var spare := Spare(total, |weights|, minHeight);
    var marks: seq<bool> :| Bonus(spare, weights, marks) && Heights(total, weights, minHeight, heights, marks);
    SumAdd(Shares(spare, weights, Sum(weights)), Ones(marks), heights, 1, Floor(minHeight));
  }

  /** No row is lower than the minimum, nor negative. */
  lemma EveryRowHasTheMinimum(total: int, weights: seq<int>, minHeight: int, heights: seq<int>, i: nat)
    requires Sharable(weights) && Apportioned(total, weights, minHeight, heights) && i < |weights|
    requires total >= |weights| * minHeight && total >= 0
    ensures heights[i] >= minHeight && heights[i] >= 0
  {
    var spare, w := Spare(total, |weights|, minHeight), Sum(weights);
    var marks: seq<bool> :| Bonus(spare, weights, marks) && Heights(total, weights, minHeight, heights, marks);
    assert heights[i] == Shares(spare, weights, w)[i] + Ones(marks)[i] + Floor(minHeight);
    SpareIsNatural(total, |weights|, minHeight);
    ShareIsNatural(spare, weights[i], w);
  }

  lemma SpareIsNatural(total: int, rows: nat, minHeight: int)
    requires total >= rows * minHeight && total >= 0
    ensures Spare(total, rows, minHeight) >= 0
  {
  }

  lemma ShareIsNatural(spare: int, weight: int, w: int)
    requires spare >= 0 && weight >= 0 && w > 0
    ensures Share(spare, weight, w) >= 0
  {
    assert spare * weight >= 0;
  }

  /** Each row's extra is the floor or the ceiling of its exact share, the ceiling only if that
      share is not whole. */
  lemma ExtraIsFloorOrCeiling(total: int, weights: seq<int>, minHeight: int, heights: seq<int>, i: nat)
    requires Sharable(weights) && Apportioned(total, weights, minHeight, heights) && i < |weights|
    ensures var spare, w := Spare(total, |weights|, minHeight), Sum(weights);
            var extra := heights[i] - Floor(minHeight);
            && (extra == Share(spare, weights[i], w) || extra == Share(spare, weights[i], w) + 1)
            && spare * weights[i] - w < extra * w < spare * weights[i] + w
            && (Remainder(spare, weights[i], w) == 0 ==> extra * w == spare * weights[i])
  {
    var spare, w := Spare(total, |weights|, minHeight), Sum(weights);
    var marks: seq<bool> :| Bonus(spare, weights, marks) && Heights(total, weights, minHeight, heights, marks);
    assert heights[i] - Floor(minHeight) == Shares(spare, weights, w)[i] + Ones(marks)[i];
    assert marks[i] ==> Remainders(spare, weights, w)[i] > 0;
    FloorOrCeiling(spare * weights[i], w, heights[i] - Floor(minHeight));
  }

  lemma FloorOrCeiling(x: int, w: int, extra: int)
    requires w > 0 && (extra == x / w || (extra == x / w + 1 && x % w > 0))
    ensures x - w < extra * w < x + w && (x % w == 0 ==> extra * w == x)
  {
    Whole(x, w);
  }

  lemma Whole(x: int, w: int)
    requires w > 0
    ensures x == (x / w) * w + x % w && 0 <= x % w < w
    ensures (x / w + 1) * w == (x / w) * w + w
  {
  }

  /** A heavier row never ends up lower, and of two equally heavy rows the earlier one does not. */
  lemma HeavierRowsAreNotShorter(
    total: int, weights: seq<int>, minHeight: int, heights: seq<int>, i: nat, j: nat)
    requires Sharable(weights) && Apportioned(total, weights, minHeight, heights)
    requires Spare(total, |weights|, minHeight) >= 0
    requires i < |weights| && j < |weights|
    requires weights[i] > weights[j] || (weights[i] == weights[j] && i < j)
    ensures heights[i] >= heights[j]
  {
    var spare, w := Spare(total, |weights|, minHeight), Sum(weights);
    var marks: seq<bool> :| Bonus(spare, weights, marks) && Heights(total, weights, minHeight, heights, marks);
    HeavierSharesAreNotSmaller(spare, weights, marks, i, j);
  }

  lemma HeavierSharesAreNotSmaller(spare: int, weights: seq<int>, marks: seq<bool>, i: nat, j: nat)
    requires Sharable(weights) && spare >= 0
    requires Picked(Remainders(spare, weights, Sum(weights)), marks)
    requires i < |weights| && j < |weights|
    requires weights[i] > weights[j] || (weights[i] == weights[j] && i < j)
    ensures var shares := Shares(spare, weights, Sum(weights));
            shares[i] + Ones(marks)[i] >= shares[j] + Ones(marks)[j]
  {
    var w := Sum(weights);
    var shares, rems := Shares(spare, weights, w), Remainders(spare, weights, w);
    ShareOrder(spare, weights[i], weights[j], w);
    assert shares[i] == Share(spare, weights[i], w) && shares[j] == Share(spare, weights[j], w);
    assert rems[i] == Remainder(spare, weights[i], w) && rems[j] == Remainder(spare, weights[j], w);
    MarksKeepTheOrder(shares, rems, marks, i, j);
  }

  lemma ShareOrder(spare: int, a: int, b: int, w: int)
    requires w > 0 && spare >= 0 && a >= b
    ensures Share(spare, a, w) >= Share(spare, b, w)
    ensures Share(spare, a, w) == Share(spare, b, w) && a > b ==>
              Remainder(spare, a, w) > Remainder(spare, b, w) || Remainder(spare, b, w) == 0
  {
    if spare > 0 {
      Scale(spare, a, b);
      DivMonotone(spare * a, spare * b, w);
    }
  }

  lemma MarksKeepTheOrder(shares: seq<int>, rems: seq<int>, marks: seq<bool>, i: nat, j: nat)
    requires Picked(rems, marks) && |shares| == |rems| && i < |rems| && j < |rems|
    requires shares[i] >= shares[j] && (shares[i] == shares[j] ==> Before(rems, i, j) || rems[j] == 0)
    ensures shares[i] + Ones(marks)[i] >= shares[j] + Ones(marks)[j]
  {
    assert marks[j] && !marks[i] ==> Before(rems, j, i);
  }

  lemma Scale(spare: int, a: int, b: int)
    requires spare > 0 && a >= b
    ensures spare * a >= spare * b
    ensures a > b ==> spare * a > spare * b
  {
    assert a > b ==> spare * (a - b) > 0;
  }

  lemma DivMonotone(x: int, y: int, w: int)
    requires w > 0 && x >= y
    ensures x / w >= y / w
    ensures x / w == y / w && x > y ==> x % w > y % w
  {
    Whole(x, w);
    Whole(y, w);
    Larger(x / w, y / w, x % w, y % w, w);
  }

  lemma Larger(p: int, q: int, r: int, s: int, w: int)
    requires 0 <= r < w && 0 <= s < w && p * w + r >= q * w + s
    ensures p >= q
  {
    if p + 1 <= q {
      TimesMonotone(p + 1, q, w);
      assert false;
    }
  }

  lemma TimesMonotone(p: int, q: int, w: int)
    requires w > 0 && p <= q
    ensures p * w <= q * w
  {
    assert (q - p) * w >= 0;
  }

  /** The rules leave no choice: any two apportionments of the same total are equal. */
  lemma ApportionmentIsUnique(total: int, weights: seq<int>, minHeight: int, a: seq<int>, b: seq<int>)
    requires Sharable(weights)
    requires Apportioned(total, weights, minHeight, a) && Apportioned(total, weights, minHeight, b)
    ensures a == b
  {
    var spare := Spare(total, |weights|, minHeight);
    var x: seq<bool> :| Bonus(spare, weights, x) && Heights(total, weights, minHeight, a, x);
    var y: seq<bool> :| Bonus(spare, weights, y) && Heights(total, weights, minHeight, b, y);
    SameBonus(Remainders(spare, weights, Sum(weights)), x, y);
    SameHeights(total, weights, minHeight, a, b, x);
  }

  lemma SameHeights(total: int, weights: seq<int>, minHeight: int, a: seq<int>, b: seq<int>, marks: seq<bool>)
    requires Sharable(weights)
    requires Heights(total, weights, minHeight, a, marks) && Heights(total, weights, minHeight, b, marks)
    ensures a == b
  {
  }

  lemma SameBonus(rems: seq<int>, x: seq<bool>, y: seq<bool>)
    requires Picked(rems, x) && Picked(rems, y) && Sum(Ones(x)) == Sum(Ones(y))
    ensures x == y
  {
    if i: nat :| i < |rems| && x[i] && !y[i] {
      var j := MarkedElsewhere(x, y, i);
      NotBoth(rems, i, j);
      assert false;
    } else if i: nat :| i < |rems| && y[i] && !x[i] {
      var j := MarkedElsewhere(y, x, i);
      NotBoth(rems, i, j);
      assert false;
    }
  }

  lemma NotBoth(rems: seq<int>, i: nat, j: nat)
    requires i < |rems| && j < |rems| && i != j
    ensures Before(rems, i, j) != Before(rems, j, i)
  {
  }

  /** With equal counts, a mark missing in `y` is made up for by one missing in `x`. */
  lemma MarkedElsewhere(x: seq<bool>, y: seq<bool>, i: nat) returns (j: nat)
    requires |x| == |y| && Sum(Ones(x)) == Sum(Ones(y)) && i < |x| && x[i] && !y[i]
    ensures j < |x| && y[j] && !x[j]
  {
    if forall k :: 0 <= k < |x| && y[k] ==> x[k] {
      FewerMarks(x, y, i);
      assert false;
    }
    j :| 0 <= j < |x| && y[j] && !x[j];
  }

  lemma FewerMarks(x: seq<bool>, y: seq<bool>, i: nat)
    requires |x| == |y| && i < |x| && x[i] && !y[i]
    requires forall k :: 0 <= k < |x| && y[k] ==> x[k]
    ensures Sum(Ones(y)) < Sum(Ones(x))
  {
    var gaps := seq(|x|, k requires 0 <= k < |x| => if x[k] && !y[k] then 1 else 0);
    SumAdd(Ones(y), gaps, Ones(x), 1, 0);
    SumAtLeast(gaps, i);
  }

  lemma {:induction false} SumAtLeast(xs: seq<int>, i: nat)
    requires i < |xs| && forall k :: 0 <= k < |xs| ==> xs[k] >= 0
    ensures Sum(xs) >= xs[i]
  {
    var n := |xs| - 1;
    if i < n { SumAtLeast(xs[..n], i); } else { SumNonNegative(xs[..n]); }
  }
}
