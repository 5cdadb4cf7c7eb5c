/** generateSelections: the nested subsets of lambda windows, obtained by repeatedly
    keeping the even positions of the previous subset. */
module Planner {
  import opened Sequences

  /** The `range(100)` bound on the splitting loop. */
  const MaxSplitIterations: nat := 100
  /** The smallest selection that is handed to MBAR. */
  const MinSelectionSize: nat := 3

  /** The selections emitted from `indices` on with `budget` loop iterations left. */
  function PlanFrom(indices: seq<nat>, budget: nat): seq<seq<nat>>
    decreases budget
  {
    if budget == 0 || |indices| < MinSelectionSize then []
    else [indices] + PlanFrom(EvenPositions(indices), budget - 1)
  }

  /** Every selection generateSelections writes for `windowCount` windows, in emission order. */
  function Plan(windowCount: nat): seq<seq<nat>> {
    PlanFrom(Range(windowCount), MaxSplitIterations)
  }

  /** The loop of generateSelections; `selections` lists, in order, the index arrays it
      writes to `indices.txt` files. */
  method GenerateSelections(windowCount: nat) returns (selections: seq<seq<nat>>)
    ensures selections == Plan(windowCount)
  {
    var indices := Range(windowCount);
    selections := [];
    for splitIteration := 0 to MaxSplitIterations
      invariant selections + PlanFrom(indices, MaxSplitIterations - splitIteration) == Plan(windowCount)
    {
      if |indices| >= MinSelectionSize {
        ghost var budget := MaxSplitIterations - splitIteration;
        assert PlanFrom(indices, budget) == [indices] + PlanFrom(EvenPositions(indices), budget - 1);
        assert selections + [indices] + PlanFrom(EvenPositions(indices), budget - 1)
            == selections + PlanFrom(indices, budget);
        selections := selections + [indices];
        indices := EvenPositions(indices);
      } else {
        break;
      }
    }
  }

  // ---------------------------------------------------------------------------------
  // str(int) and the selection directory names

  function DigitChar(d: nat): char
    requires d < 10
  {
    "0123456789"[d]
  }

  /** Python's `str` of a non-negative int: its decimal digits, without leading zeros. */
  function DecimalString(n: nat): (s: string)
    ensures |s| >= 1
    ensures n >= 10 ==> |s| >= 2
    decreases n
  {
    if n < 10 then [DigitChar(n)] else DecimalString(n / 10) + [DigitChar(n % 10)]
  }

  lemma {:induction false} DecimalStringInjective(a: nat, b: nat)
    requires DecimalString(a) == DecimalString(b)
    ensures a == b
    decreases a
  {
    var sa, sb := DecimalString(a), DecimalString(b);
    if a >= 10 && b >= 10 {
      assert sa[..|sa| - 1] == DecimalString(a / 10);
      assert sb[..|sb| - 1] == DecimalString(b / 10);
      DecimalStringInjective(a / 10, b / 10);
      assert DigitChar(a % 10) == DigitChar(b % 10);
    } else if a < 10 && b < 10 {
      assert DigitChar(a) == DigitChar(b);
    }
  }

  /** The directory a selection of `size` windows is written to. */
  function SelectionPath(size: nat): string {
    "./mbar_selections/mbar_selection_" + DecimalString(size)
  }

  lemma SelectionPathInjective(a: nat, b: nat)
    ensures SelectionPath(a) == SelectionPath(b) <==> a == b
  {
    if SelectionPath(a) == SelectionPath(b) {
      var p := "./mbar_selections/mbar_selection_";
      assert DecimalString(a) == SelectionPath(a)[|p|..];
      assert DecimalString(b) == SelectionPath(b)[|p|..];
      DecimalStringInjective(a, b);
    }
  }

  // ---------------------------------------------------------------------------------
  // Properties of the plan

  /** Fewer than three windows: nothing is emitted. Otherwise the first selection is the full range. */
  lemma PlanStart(windowCount: nat)
    ensures Plan(windowCount) == [] <==> windowCount < MinSelectionSize
    ensures windowCount >= MinSelectionSize ==> Plan(windowCount)[0] == Range(windowCount)
  {
  }

  /** Decimation compounds: each selection is the even positions of the previous one. */
  lemma {:induction false} PlanFromStep(indices: seq<nat>, budget: nat, k: nat)
    requires 0 < k < |PlanFrom(indices, budget)|
    ensures PlanFrom(indices, budget)[k] == EvenPositions(PlanFrom(indices, budget)[k - 1])
    decreases budget
  {
    if k > 1 {
      PlanFromStep(EvenPositions(indices), budget - 1, k - 1);
    }
  }

  lemma PlanStep(windowCount: nat, k: nat)
    requires 0 < k < |Plan(windowCount)|
    ensures Plan(windowCount)[k] == EvenPositions(Plan(windowCount)[k - 1])
    ensures |Plan(windowCount)[k]| == (|Plan(windowCount)[k - 1]| + 1) / 2
  {
    PlanFromStep(Range(windowCount), MaxSplitIterations, k);
  }

  /** At most one selection per loop iteration. */
  lemma {:induction false} PlanFromLength(indices: seq<nat>, budget: nat)
    ensures |PlanFrom(indices, budget)| <= budget
    decreases budget
  {
    if budget > 0 && |indices| >= MinSelectionSize {
      PlanFromLength(EvenPositions(indices), budget - 1);
    }
  }

  lemma PlanLength(windowCount: nat)
    ensures |Plan(windowCount)| <= MaxSplitIterations
  {
    PlanFromLength(Range(windowCount), MaxSplitIterations);
  }

  /** Every selection has at least three windows, and sizes strictly decrease. */
  lemma {:induction false} PlanFromSizes(indices: seq<nat>, budget: nat)
    ensures forall k :: 0 <= k < |PlanFrom(indices, budget)| ==> |PlanFrom(indices, budget)[k]| >= MinSelectionSize
    ensures forall i, j :: 0 <= i < j < |PlanFrom(indices, budget)| ==>
      |PlanFrom(indices, budget)[i]| > |PlanFrom(indices, budget)[j]|
    ensures |PlanFrom(indices, budget)| > 0 ==> |PlanFrom(indices, budget)[0]| == |indices|
    decreases budget
  {
    if budget > 0 && |indices| >= MinSelectionSize {
      var rest := EvenPositions(indices);
      PlanFromSizes(rest, budget - 1);
      var p := PlanFrom(indices, budget);
      assert p == [indices] + PlanFrom(rest, budget - 1);
      forall i, j | 0 <= i < j < |p| ensures |p[i]| > |p[j]| {
        if i > 0 {
          assert p[i] == PlanFrom(rest, budget - 1)[i - 1];
        }
        assert p[j] == PlanFrom(rest, budget - 1)[j - 1];
      }
    }
  }

  lemma PlanSizes(windowCount: nat)
    ensures forall k :: 0 <= k < |Plan(windowCount)| ==> |Plan(windowCount)[k]| >= MinSelectionSize
    ensures forall i, j :: 0 <= i < j < |Plan(windowCount)| ==> |Plan(windowCount)[i]| > |Plan(windowCount)[j]|
  {
    PlanFromSizes(Range(windowCount), MaxSplitIterations);
  }

  /** No two selections are written to the same directory. */
  lemma PlanPathsDistinct(windowCount: nat)
    ensures forall i, j :: 0 <= i < j < |Plan(windowCount)| ==>
      SelectionPath(|Plan(windowCount)[i]|) != SelectionPath(|Plan(windowCount)[j]|)
  {
    PlanSizes(windowCount);
    forall i, j | 0 <= i < j < |Plan(windowCount)|
      ensures SelectionPath(|Plan(windowCount)[i]|) != SelectionPath(|Plan(windowCount)[j]|)
    {
      SelectionPathInjective(|Plan(windowCount)[i]|, |Plan(windowCount)[j]|);
    }
  }

  /** A window selection: strictly increasing original positions below `n`, starting at 0. */
  predicate IsWindowSet(s: seq<nat>, n: nat) {
    |s| > 0 && s[0] == 0 && StrictlyIncreasing(s) && Bounded(s, n)
  }

  lemma EvenPositionsWindowSet(s: seq<nat>, n: nat)
    requires IsWindowSet(s, n)
    ensures IsWindowSet(EvenPositions(s), n)
  {
    var e := EvenPositions(s);
    forall i, j | 0 <= i < j < |e| ensures e[i] < e[j] {
      assert e[i] == s[2 * i] && e[j] == s[2 * j];
    }
  }

  lemma {:induction false} PlanFromWindowSets(indices: seq<nat>, budget: nat, n: nat)
    requires IsWindowSet(indices, n)
    ensures forall k :: 0 <= k < |PlanFrom(indices, budget)| ==> IsWindowSet(PlanFrom(indices, budget)[k], n)
    decreases budget
  {
    if budget > 0 && |indices| >= MinSelectionSize {
      EvenPositionsWindowSet(indices, n);
      PlanFromWindowSets(EvenPositions(indices), budget - 1, n);
      var p := PlanFrom(indices, budget);
      forall k | 0 < k < |p| ensures IsWindowSet(p[k], n) {
        assert p[k] == PlanFrom(EvenPositions(indices), budget - 1)[k - 1];
      }
    }
  }

  /** Every selection is strictly increasing, begins with window 0 and lies in [0, windowCount). */
  lemma PlanWindowSets(windowCount: nat)
    ensures forall k :: 0 <= k < |Plan(windowCount)| ==> IsWindowSet(Plan(windowCount)[k], windowCount)
  {
    if windowCount > 0 {
      PlanFromWindowSets(Range(windowCount), MaxSplitIterations, windowCount);
    }
  }

  /** The loop ends because the next candidate is too small, unless the iteration cap cut it short. */
  lemma {:induction false} PlanFromStops(indices: seq<nat>, budget: nat)
    requires |PlanFrom(indices, budget)| < budget
    ensures var p := PlanFrom(indices, budget);
      if |p| == 0 then |indices| < MinSelectionSize else |EvenPositions(p[|p| - 1])| < MinSelectionSize
    decreases budget
  {
    if |indices| >= MinSelectionSize {
      var rest := EvenPositions(indices);
      PlanFromStops(rest, budget - 1);
      var p := PlanFrom(indices, budget);
      var q := PlanFrom(rest, budget - 1);
      if |q| > 0 {
        assert p[|p| - 1] == q[|q| - 1];
      }
    }
  }

  lemma PlanStops(windowCount: nat)
    requires |Plan(windowCount)| < MaxSplitIterations
    ensures |Plan(windowCount)| == 0 ==> windowCount < MinSelectionSize
    ensures |Plan(windowCount)| > 0 ==> |EvenPositions(Plan(windowCount)[|Plan(windowCount)| - 1])| < MinSelectionSize
  {
    PlanFromStops(Range(windowCount), MaxSplitIterations);
  }

  // ---------------------------------------------------------------------------------
  // Closed form: the k-th selection keeps the windows whose position is a multiple of 2^k

  function Pow2(k: nat): (p: nat)
    ensures p >= 1
  {
    if k == 0 then 1 else 2 * Pow2(k - 1)
  }

  /** ceil(n / d): the fewest multiples of `d` that reach `n`. */
  function CeilDiv(n: nat, d: nat): (c: nat)
    requires d >= 1
    ensures c * d >= n
    ensures c == 0 || (c - 1) * d < n
  {
    var c := (n + d - 1) / d;
    assert c * d + (n + d - 1) % d == n + d - 1;
    assert c * d - d == (c - 1) * d;
    c
  }

  lemma MulMonotone(d: nat, a: nat, b: nat)
    requires a <= b
    ensures a * d <= b * d
  {
  }

  /** The two bounds determine ceil(n / d). */
  lemma CeilDivUnique(n: nat, d: nat, c: nat)
    requires d >= 1
    requires c * d >= n && (c == 0 || (c - 1) * d < n)
    ensures CeilDiv(n, d) == c
  {
    var e := CeilDiv(n, d);
    if e < c {
      MulMonotone(d, e, c - 1);
    } else if e > c {
      MulMonotone(d, c, e - 1);
    }
  }

  /** The multiples of `step` below `n`, in increasing order. */
  function Multiples(n: nat, step: nat): (r: seq<nat>)
    requires step >= 1
    ensures |r| == CeilDiv(n, step)
  {
    seq(CeilDiv(n, step), j => j * step)
  }

  /** `Multiples` lists exactly the multiples of `step` that are below `n`. */
  lemma MultiplesBelow(n: nat, step: nat)
    requires step >= 1
    ensures forall j :: 0 <= j < |Multiples(n, step)| ==> Multiples(n, step)[j] == j * step < n
  {
    var len := CeilDiv(n, step);
    forall j | 0 <= j < len ensures j * step < n {
      MulMonotone(step, j, len - 1);
    }
  }

  /** Halving the number of multiples of `step` below `n`, rounding up, counts the multiples of
      `2 * step`. */
  lemma CeilHalf(n: nat, step: nat)
    requires step >= 1
    ensures CeilDiv(CeilDiv(n, step), 2) == CeilDiv(n, 2 * step)
  {
    var c := CeilDiv(n, step);
    var h := CeilDiv(c, 2);
    CeilHalfBounds(n, step, c, h);
    CeilDivUnique(n, 2 * step, h);
  }

  lemma CeilHalfBounds(n: nat, s: nat, c: nat, h: nat)
    requires s >= 1
    requires c * s >= n && (c == 0 || (c - 1) * s < n)
    requires h * 2 >= c && (h == 0 || (h - 1) * 2 < c)
    ensures h * (2 * s) >= n && (h == 0 || (h - 1) * (2 * s) < n)
  {
    MulMonotone(s, c, h * 2);
    MulAssoc(h, 2, s);
    if h > 0 {
      MulMonotone(s, (h - 1) * 2, c - 1);
      MulAssoc(h - 1, 2, s);
    }
  }

  lemma MulAssoc(a: nat, b: nat, c: nat)
    ensures (a * b) * c == a * (b * c)
  {
  }

  lemma MultiplesOfOne(n: nat)
    ensures Multiples(n, 1) == Range(n)
  {
    CeilDivUnique(n, 1, n);
  }

  lemma EvenPositionsMultiples(n: nat, step: nat)
    requires step >= 1
    ensures EvenPositions(Multiples(n, step)) == Multiples(n, 2 * step)
  {
    CeilHalf(n, step);
    var s := Multiples(n, step);
    var e, m := EvenPositions(s), Multiples(n, 2 * step);
    assert |e| == |m|;
    forall j | 0 <= j < |e| ensures e[j] == m[j] {
      assert e[j] == s[2 * j] == (2 * j) * step;
      MulAssoc(2, j, step);
      assert 2 * j == j * 2;
      MulAssoc(j, 2, step);
    }
  }

  lemma {:induction false} PlanFromMultiples(indices: seq<nat>, n: nat, m: nat, budget: nat, k: nat)
    requires indices == Multiples(n, Pow2(m))
    requires k < |PlanFrom(indices, budget)|
    ensures PlanFrom(indices, budget)[k] == Multiples(n, Pow2(m + k))
    decreases budget
  {
    if k > 0 {
      var next := EvenPositions(indices);
      var q := PlanFrom(next, budget - 1);
      assert PlanFrom(indices, budget) == [indices] + q;
      assert next == Multiples(n, Pow2(m + 1)) by {
        EvenPositionsMultiples(n, Pow2(m));
        assert Pow2(m + 1) == 2 * Pow2(m);
      }
      PlanFromMultiples(next, n, m + 1, budget - 1, k - 1);
      assert q[k - 1] == Multiples(n, Pow2(m + k));
    }
  }

  lemma PlanMultiples(windowCount: nat, k: nat)
    requires k < |Plan(windowCount)|
    ensures Plan(windowCount)[k] == Multiples(windowCount, Pow2(k))
  {
    var start := Range(windowCount);
    assert start == Multiples(windowCount, Pow2(0)) by {
      assert Pow2(0) == 1;
      MultiplesOfOne(windowCount);
    }
    assert Plan(windowCount) == PlanFrom(start, MaxSplitIterations);
    PlanFromMultiples(start, windowCount, 0, MaxSplitIterations, k);
    assert 0 + k == k;
  }

  /** The k-th emitted selection is exactly the positions below `windowCount` that are
      multiples of 2^k, so it has ceil(windowCount / 2^k) elements. */
  lemma PlanClosedForm(windowCount: nat, k: nat)
    requires k < |Plan(windowCount)|
    ensures |Plan(windowCount)[k]| == CeilDiv(windowCount, Pow2(k))
    ensures forall j :: 0 <= j < |Plan(windowCount)[k]| ==> Plan(windowCount)[k][j] == j * Pow2(k) < windowCount
  {
    PlanMultiples(windowCount, k);
    MultiplesBelow(windowCount, Pow2(k));
  }

  /** Five windows: the full set, then windows 0, 2 and 4; [0, 4] is too small. */
  lemma PlanFiveWindows()
    ensures Plan(5) == [[0, 1, 2, 3, 4], [0, 2, 4]]
  {
    assert Range(5) == [0, 1, 2, 3, 4];
    assert EvenPositions([0, 1, 2, 3, 4]) == [0, 2, 4];
    assert EvenPositions([0, 2, 4]) == [0, 4];
    assert PlanFrom([0, 4], MaxSplitIterations - 2) == [];
  }

  /** Nine windows: the decimation compounds to sizes 9, 5 and 3, the last being [0, 4, 8]. */
  lemma PlanNineWindows()
    ensures |Plan(9)| == 3
    ensures |Plan(9)[0]| == 9 && |Plan(9)[1]| == 5 && Plan(9)[2] == [0, 4, 8]
  {
    assert Range(9) == [0, 1, 2, 3, 4, 5, 6, 7, 8];
    assert EvenPositions([0, 1, 2, 3, 4, 5, 6, 7, 8]) == [0, 2, 4, 6, 8];
    assert EvenPositions([0, 2, 4, 6, 8]) == [0, 4, 8];
    assert EvenPositions([0, 4, 8]) == [0, 8];
    assert PlanFrom([0, 8], MaxSplitIterations - 3) == [];
  }
}
