/**
 * View selection: picking evenly spread camera angles out of the observed
 * ones (`select_evenly`) and splitting a doubled selection into primary and
 * interpolation views (`select_evenly_interpolate`).
 *
 * A view is represented by its azimuthal angle alone; angles are exact
 * reals, so facts about end points and ties hold in exact arithmetic.
 */
module ImageSelection {

  /** `torch.pi / 2`, written out as the double it evaluates to. */
  const HalfPi: real := 1.5707963267948966

  /** `|a - t|`, the distance the selection minimises. */
  function Dist(a: real, t: real): (d: real)
    ensures d >= 0.0
    ensures d == 0.0 <==> a == t
  {
    if a >= t then a - t else t - a
  }

  /** `torch.min` of a non-empty angle list. */
  function MinAngle(angles: seq<real>): (m: real)
    requires |angles| > 0
    ensures m in angles
    ensures forall i :: 0 <= i < |angles| ==> m <= angles[i]
  {
    if |angles| == 1 then angles[0]
    else
      var m := MinAngle(angles[..|angles| - 1]);
      if angles[|angles| - 1] < m then angles[|angles| - 1] else m
  }

  /** `torch.max` of a non-empty angle list. */
  function MaxAngle(angles: seq<real>): (m: real)
    requires |angles| > 0
    ensures m in angles
    ensures forall i :: 0 <= i < |angles| ==> angles[i] <= m
  {
    if |angles| == 1 then angles[0]
    else
      var m := MaxAngle(angles[..|angles| - 1]);
      if angles[|angles| - 1] > m then angles[|angles| - 1] else m
  }

  /**
   * `i` is what `torch.argmin` returns for the distances to `t`: a position
   * of least distance, and the first such position.
   */
  ghost predicate IsFirstArgMin(angles: seq<real>, t: real, i: int) {
    && 0 <= i < |angles|
    && (forall j :: 0 <= j < |angles| ==> Dist(angles[i], t) <= Dist(angles[j], t))
    && (forall j :: 0 <= j < i ==> Dist(angles[i], t) < Dist(angles[j], t))
  }

  /** `torch.argmin(torch.abs(all_angles - t))`. */
  function Nearest(angles: seq<real>, t: real): (i: nat)
    requires |angles| > 0
    ensures i < |angles|
  {
    if |angles| == 1 then 0
    else
      var n := |angles| - 1;
      var i := Nearest(angles[..n], t);
      if Dist(angles[n], t) < Dist(angles[i], t) then n else i
  }

  /** `Nearest` is the first position of least distance to `t`. */
  lemma {:induction false} NearestIsFirstArgMin(angles: seq<real>, t: real)
    requires |angles| > 0
    ensures IsFirstArgMin(angles, t, Nearest(angles, t))
  {
    if |angles| > 1 {
      var n := |angles| - 1;
      NearestIsFirstArgMin(angles[..n], t);
      assert forall j :: 0 <= j < n ==> angles[..n][j] == angles[j];
    }
  }

  /** There is only one first position of least distance. */
  lemma FirstArgMinUnique(angles: seq<real>, t: real, i: int, j: int)
    requires IsFirstArgMin(angles, t, i) && IsFirstArgMin(angles, t, j)
    ensures i == j
  {
    var di, dj := Dist(angles[i], t), Dist(angles[j], t);
    assert di <= dj && dj <= di;
  }

  /** The spacing of `torch.linspace(lo, hi, k)`: `(hi - lo) / (k - 1)`. */
  function Step(lo: real, hi: real, k: nat): real
    requires k >= 2
  {
    (hi - lo) / (k - 1) as real
  }

  /** `k - 1` steps span the whole interval. */
  lemma StepSpans(lo: real, hi: real, k: nat)
    requires k >= 2
    ensures Step(lo, hi, k) * (k - 1) as real == hi - lo
  {
  }

  /** The point `j` steps of size `step` past `lo`, added up one step at a time. */
  function Point(lo: real, step: real, j: nat): real
  {
    if j == 0 then lo else Point(lo, step, j - 1) + step
  }

  lemma {:induction false} PointIsProduct(lo: real, step: real, j: nat)
    ensures Point(lo, step, j) == lo + j as real * step
  {
    if j > 0 {
      PointIsProduct(lo, step, j - 1);
    }
  }

  lemma {:induction false} PointMonotone(lo: real, step: real, i: nat, j: nat)
    requires step >= 0.0 && i <= j
    ensures Point(lo, step, i) <= Point(lo, step, j)
  {
    if i < j {
      PointMonotone(lo, step, i, j - 1);
    }
  }

  /** `2 * j` fine steps reach the same point as `j` steps twice as long. */
  lemma {:induction false} PointDoubled(lo: real, step: real, j: nat)
    ensures Point(lo, step, 2 * j) == Point(lo, 2.0 * step, j)
  {
    if j > 0 {
      PointDoubled(lo, step, j - 1);
      assert 2 * j - 1 == 2 * (j - 1) + 1;
    }
  }

  /** `torch.linspace(lo, hi, k)` for `k >= 2`, in exact arithmetic. */
  function Linspace(lo: real, hi: real, k: nat): (ts: seq<real>)
    requires k >= 2
    ensures |ts| == k
  {
    var step := Step(lo, hi, k);
    seq(k, j requires 0 <= j => Point(lo, step, j))
  }

  /** The linspace starts at `lo` and ends at `hi`. */
  lemma LinspaceEnds(lo: real, hi: real, k: nat)
    requires k >= 2
    ensures Linspace(lo, hi, k)[0] == lo && Linspace(lo, hi, k)[k - 1] == hi
  {
    PointIsProduct(lo, Step(lo, hi, k), k - 1);
    StepSpans(lo, hi, k);
  }

  /** Consecutive linspace points are one equal step apart. */
  lemma LinspaceStep(lo: real, hi: real, k: nat, j: nat)
    requires k >= 2 && j < k - 1
    ensures Linspace(lo, hi, k)[j + 1] - Linspace(lo, hi, k)[j] == Step(lo, hi, k)
  {
  }

  /** The linspace never decreases when `lo <= hi`. */
  lemma LinspaceSorted(lo: real, hi: real, k: nat, i: nat, j: nat)
    requires k >= 2 && lo <= hi && i <= j < k
    ensures Linspace(lo, hi, k)[i] <= Linspace(lo, hi, k)[j]
  {
    var step := Step(lo, hi, k);
    StepNonNegative(lo, hi, k);
    PointMonotone(lo, step, i, j);
  }

  lemma StepNonNegative(lo: real, hi: real, k: nat)
    requires k >= 2 && lo <= hi
    ensures Step(lo, hi, k) >= 0.0
  {
  }

  /**
   * The target angles: the fixed angle pi/2 for one target, otherwise
   * `torch.linspace(min, max, k)` over the observed angles.
   */
  function TargetAngles(angles: seq<real>, k: nat): (ts: seq<real>)
    requires |angles| > 0
    ensures |ts| == k
  {
    if k == 1 then [HalfPi] else if k == 0 then [] else Linspace(MinAngle(angles), MaxAngle(angles), k)
  }

  /**
   * One target is pi/2; two or more run at equal steps from the smallest
   * observed angle to the largest.
   */
  lemma TargetAnglesShape(angles: seq<real>, k: nat)
    requires |angles| > 0
    ensures var ts := TargetAngles(angles, k); var lo := MinAngle(angles); var hi := MaxAngle(angles);
      && (k == 1 ==> ts == [HalfPi])
      && (k >= 2 ==> ts[0] == lo && ts[k - 1] == hi)
      && (k >= 2 ==> forall j :: 0 <= j < k - 1 ==> ts[j + 1] - ts[j] == Step(lo, hi, k))
  {
    if k >= 2 {
      var lo, hi := MinAngle(angles), MaxAngle(angles);
      LinspaceEnds(lo, hi, k);
      forall j | 0 <= j < k - 1
        ensures TargetAngles(angles, k)[j + 1] - TargetAngles(angles, k)[j] == Step(lo, hi, k)
      {
        LinspaceStep(lo, hi, k, j);
      }
    }
  }

  /** The targets never decrease. */
  lemma TargetsSorted(angles: seq<real>, k: nat, i: nat, j: nat)
    requires |angles| > 0 && i <= j < k
    ensures TargetAngles(angles, k)[i] <= TargetAngles(angles, k)[j]
  {
    if k >= 2 {
      LinspaceSorted(MinAngle(angles), MaxAngle(angles), k, i, j);
    }
  }

  /** The nearest view to each of the angles `ts`, in order. */
  function NearestEach(angles: seq<real>, ts: seq<real>): (r: seq<nat>)
    requires |angles| > 0
    ensures |r| == |ts|
    ensures forall j :: 0 <= j < |r| ==> r[j] < |angles|
  {
    if ts == [] then [] else NearestEach(angles, ts[..|ts| - 1]) + [Nearest(angles, ts[|ts| - 1])]
  }

  lemma {:induction false} NearestEachAt(angles: seq<real>, ts: seq<real>, j: nat)
    requires |angles| > 0 && j < |ts|
    ensures NearestEach(angles, ts)[j] == Nearest(angles, ts[j])
  {
    if j < |ts| - 1 {
      NearestEachAt(angles, ts[..|ts| - 1], j);
    }
  }

  /** What `select_evenly(images, k)` returns: the nearest view to each target. */
  function Selection(angles: seq<real>, k: nat): (r: seq<nat>)
    requires |angles| > 0
    ensures |r| == k
    ensures forall j :: 0 <= j < k ==> r[j] < |angles|
  {
    NearestEach(angles, TargetAngles(angles, k))
  }

  lemma SelectionAt(angles: seq<real>, k: nat, j: nat)
    requires |angles| > 0 && j < k
    ensures Selection(angles, k)[j] == Nearest(angles, TargetAngles(angles, k)[j])
  {
    NearestEachAt(angles, TargetAngles(angles, k), j);
  }

  /**
   * Each selected index is the first view of least angular distance to its
   * target angle.
   */
  lemma SelectionIsNearest(angles: seq<real>, k: nat)
    requires |angles| > 0
    ensures var r := Selection(angles, k); var ts := TargetAngles(angles, k);
      forall j :: 0 <= j < k ==> IsFirstArgMin(angles, ts[j], r[j])
  {
    forall j | 0 <= j < k
      ensures IsFirstArgMin(angles, TargetAngles(angles, k)[j], Selection(angles, k)[j])
    {
      SelectionAt(angles, k, j);
      NearestIsFirstArgMin(angles, TargetAngles(angles, k)[j]);
    }
  }

  /** `select_evenly`: one valid view index per target angle, the view nearest to it. */
  method SelectEvenly(angles: seq<real>, k: nat) returns (indices: seq<nat>)
    requires |angles| > 0
    ensures indices == Selection(angles, k)
    ensures |indices| == k
    ensures forall j :: 0 <= j < k ==> indices[j] < |angles|
  {
    var targets := TargetAngles(angles, k);
    indices := [];
    for j := 0 to |targets|
      invariant indices == NearestEach(angles, targets[..j])
    {
      assert targets[..j + 1][..j] == targets[..j];
      indices := indices + [Nearest(angles, targets[j])];
    }
    assert targets[..|targets|] == targets;
  }

  /** With one target the view nearest to pi/2 is chosen, whatever range the angles span. */
  lemma SingleTarget(angles: seq<real>)
    requires |angles| > 0
    ensures Selection(angles, 1) == [Nearest(angles, HalfPi)]
    ensures IsFirstArgMin(angles, HalfPi, Selection(angles, 1)[0])
  {
    SelectionAt(angles, 1, 0);
    NearestIsFirstArgMin(angles, HalfPi);
  }

  /**
   * With one target the choice is not the view nearest to the midpoint
   * of the observed range: for angles 0 and 1 the midpoint 0.5 is equally
   * far from both and picks view 0, while pi/2 picks view 1.
   */
  lemma SingleTargetIsNotMidpoint()
    ensures Selection([0.0, 1.0], 1) == [1]
    ensures Nearest([0.0, 1.0], (MinAngle([0.0, 1.0]) + MaxAngle([0.0, 1.0])) / 2.0) == 0
  {
    var a := [0.0, 1.0];
    assert MinAngle(a) == 0.0 && MaxAngle(a) == 1.0;
    NearestOfTwo(0.0, 1.0, HalfPi);
    NearestOfTwo(0.0, 1.0, 0.5);
    SelectionAt(a, 1, 0);
  }

  /** Between two views the second is chosen only when strictly nearer. */
  lemma NearestOfTwo(a0: real, a1: real, t: real)
    ensures Nearest([a0, a1], t) == if Dist(a1, t) < Dist(a0, t) then 1 else 0
  {
    assert [a0, a1][..1] == [a0];
  }


  /**
   * For two or more targets the first choice is the first view with the
   * smallest angle and the last choice the first view with the largest.
   */
  lemma SelectionEndpoints(angles: seq<real>, k: nat)
    requires |angles| > 0 && k >= 2
    ensures var r := Selection(angles, k); var lo := MinAngle(angles); var hi := MaxAngle(angles);
      && angles[r[0]] == lo && (forall j :: 0 <= j < r[0] ==> angles[j] != lo)
      && angles[r[k - 1]] == hi && (forall j :: 0 <= j < r[k - 1] ==> angles[j] != hi)
  {
    var r := Selection(angles, k);
    var lo, hi := MinAngle(angles), MaxAngle(angles);
    var ts := TargetAngles(angles, k);
    TargetAnglesShape(angles, k);
    SelectionAt(angles, k, 0);
    SelectionAt(angles, k, k - 1);
    NearestIsFirstArgMin(angles, ts[0]);
    NearestIsFirstArgMin(angles, ts[k - 1]);
    var m :| 0 <= m < |angles| && angles[m] == lo;
    assert Dist(angles[r[0]], ts[0]) <= Dist(angles[m], ts[0]);
    var n :| 0 <= n < |angles| && angles[n] == hi;
    assert Dist(angles[r[k - 1]], ts[k - 1]) <= Dist(angles[n], ts[k - 1]);
  }

  /**
   * Any two selections of two or more views begin with the same view and
   * end with the same view.
   */
  lemma SelectionEndsAgree(angles: seq<real>, k1: nat, k2: nat)
    requires |angles| > 0 && k1 >= 2 && k2 >= 2
    ensures Selection(angles, k1)[0] == Selection(angles, k2)[0]
    ensures Selection(angles, k1)[k1 - 1] == Selection(angles, k2)[k2 - 1]
  {
    SelectionEndpoints(angles, k1);
    SelectionEndpoints(angles, k2);
  }

  /** A later target never picks a view with a smaller angle. */
  lemma NearestMonotone(angles: seq<real>, t1: real, t2: real)
    requires |angles| > 0 && t1 <= t2
    ensures angles[Nearest(angles, t1)] <= angles[Nearest(angles, t2)]
  {
    var i1, i2 := Nearest(angles, t1), Nearest(angles, t2);
    var a1, a2 := angles[i1], angles[i2];
    NearestIsFirstArgMin(angles, t1);
    NearestIsFirstArgMin(angles, t2);
    // Were a1 > a2, each view would be as near as the other to both
    // targets, and the first-index rule would prefer each over the other.
    assert Dist(a1, t1) <= Dist(a2, t1);
    assert Dist(a2, t2) <= Dist(a1, t2);
  }

  /** The selected views come in order of non-decreasing angle. */
  lemma SelectionSorted(angles: seq<real>, k: nat)
    requires |angles| > 0
    ensures var r := Selection(angles, k);
      forall i, j :: 0 <= i <= j < k ==> angles[r[i]] <= angles[r[j]]
  {
    var r := Selection(angles, k);
    var ts := TargetAngles(angles, k);
    forall i, j | 0 <= i <= j < k
      ensures angles[r[i]] <= angles[r[j]]
    {
      TargetsSorted(angles, k, i, j);
      SelectionAt(angles, k, i);
      SelectionAt(angles, k, j);
      NearestMonotone(angles, ts[i], ts[j]);
    }
  }

  /** The elements at positions 0, 2, 4, ... */
  function EvenPositions<T>(s: seq<T>): (r: seq<T>)
    ensures |r| == (|s| + 1) / 2
    ensures forall j :: 0 <= j < |r| ==> r[j] == s[2 * j]
  {
    if s == [] then [] else [s[0]] + OddPositions(s[1..])
  }

  /** The elements at positions 1, 3, 5, ... */
  function OddPositions<T>(s: seq<T>): (r: seq<T>)
    ensures |r| == |s| / 2
    ensures forall j :: 0 <= j < |r| ==> r[j] == s[2 * j + 1]
  {
    if s == [] then [] else EvenPositions(s[1..])
  }

  /** Appending one element extends the even positions when it lands on one. */
  lemma {:induction false} EvenPositionsSnoc<T>(s: seq<T>, x: T)
    ensures EvenPositions(s + [x]) == if |s| % 2 == 0 then EvenPositions(s) + [x] else EvenPositions(s)
  {
    var t := s + [x];
    var e, e' := EvenPositions(t), EvenPositions(s);
    forall j | 0 <= j < |e'|
      ensures e[j] == e'[j]
    {
      assert t[2 * j] == s[2 * j];
    }
    if |s| % 2 == 0 {
      assert e[|e'|] == t[|s|] == x;
      assert e == e' + [x];
    } else {
      assert e == e';
    }
  }

  /** Appending one element extends the odd positions when it lands on one. */
  lemma {:induction false} OddPositionsSnoc<T>(s: seq<T>, x: T)
    ensures OddPositions(s + [x]) == if |s| % 2 == 1 then OddPositions(s) + [x] else OddPositions(s)
  {
    var t := s + [x];
    var o, o' := OddPositions(t), OddPositions(s);
    forall j | 0 <= j < |o'|
      ensures o[j] == o'[j]
    {
      assert t[2 * j + 1] == s[2 * j + 1];
    }
    if |s| % 2 == 1 {
      assert o[|o'|] == t[|s|] == x;
      assert o == o' + [x];
    } else {
      assert o == o';
    }
  }

  /** `p[0], q[0], p[1], q[1], ..., p[|p| - 1]`. */
  function Interleave<T>(p: seq<T>, q: seq<T>): (r: seq<T>)
    requires |p| == |q| + 1
    ensures |r| == |p| + |q|
  {
    if q == [] then p else [p[0], q[0]] + Interleave(p[1..], q[1..])
  }

  /** Putting the even and odd positions of an odd-length sequence back together restores it. */
  lemma {:induction false} InterleavePositions<T>(s: seq<T>)
    requires |s| % 2 == 1
    ensures Interleave(EvenPositions(s), OddPositions(s)) == s
  {
    if |s| > 1 {
      var rest := s[2..];
      assert s[1..][1..] == rest;
      assert EvenPositions(s) == [s[0]] + EvenPositions(rest);
      assert OddPositions(s) == [s[1]] + OddPositions(rest);
      InterleavePositions(rest);
      assert [s[0], s[1]] + rest == s;
    }
  }

  /** Splitting an interleaving by position gives back its two parts. */
  lemma {:induction false} PositionsOfInterleave<T>(p: seq<T>, q: seq<T>)
    requires |p| == |q| + 1
    ensures EvenPositions(Interleave(p, q)) == p
    ensures OddPositions(Interleave(p, q)) == q
  {
    if q != [] {
      var r := Interleave(p[1..], q[1..]);
      PositionsOfInterleave(p[1..], q[1..]);
      assert Interleave(p, q) == [p[0], q[0]] + r;
      assert ([p[0], q[0]] + r)[1..][1..] == r;
      assert [p[0]] + p[1..] == p;
      assert [q[0]] + q[1..] == q;
    }
  }

  /**
   * The loop of `select_evenly_interpolate`: even positions, and the last
   * one, go to the primary list; the others to the interpolation list.
   */
  method SplitByPosition(all: seq<nat>) returns (primary: seq<nat>, interpolated: seq<nat>)
    requires |all| % 2 == 1
    ensures primary == EvenPositions(all)
    ensures interpolated == OddPositions(all)
    ensures |primary| == |interpolated| + 1 && |all| == 2 * |interpolated| + 1
    ensures Interleave(primary, interpolated) == all
  {
    primary, interpolated := [], [];
    for i := 0 to |all|
      invariant primary == EvenPositions(all[..i])
      invariant interpolated == OddPositions(all[..i])
    {
      EvenPositionsSnoc(all[..i], all[i]);
      OddPositionsSnoc(all[..i], all[i]);
      assert all[..i + 1] == all[..i] + [all[i]];
      // the last position is even, so the second test adds nothing
      if i % 2 == 0 || i == |all| - 1 {
        primary := primary + [all[i]];
      } else {
        interpolated := interpolated + [all[i]];
      }
    }
    assert all[..|all|] == all;
    InterleavePositions(all);
  }

  /**
   * `select_evenly_interpolate`: selects `2k - 1` views and splits them by
   * position into `k` primary and `k - 1` interpolation views; nothing is
   * deduplicated.
   */
  method SelectEvenlyInterpolate(angles: seq<real>, k: nat) returns (primary: seq<nat>, interpolated: seq<nat>)
    requires |angles| > 0 && k >= 1
    ensures primary == EvenPositions(Selection(angles, 2 * k - 1))
    ensures interpolated == OddPositions(Selection(angles, 2 * k - 1))
    ensures |primary| == k && |interpolated| == k - 1
  {
    var all := SelectEvenly(angles, 2 * k - 1);
    OddLength(k - 1);
    primary, interpolated := SplitByPosition(all);
  }

  lemma OddLength(n: nat)
    ensures (2 * n + 1) % 2 == 1
  {
  }

  /** Even point `2j` of a `2k - 1` point linspace is point `j` of the `k` point one. */
  lemma LinspaceDoubled(lo: real, hi: real, k: nat, j: nat)
    requires k >= 2 && j < k
    ensures Linspace(lo, hi, 2 * k - 1)[2 * j] == Linspace(lo, hi, k)[j]
  {
    var fine, coarse := Step(lo, hi, 2 * k - 1), Step(lo, hi, k);
    StepHalved(lo, hi, k);
    PointDoubled(lo, fine, j);
  }

  /** Twice as many intervals are each half as long. */
  lemma StepHalved(lo: real, hi: real, k: nat)
    requires k >= 2
    ensures 2.0 * Step(lo, hi, 2 * k - 1) == Step(lo, hi, k)
  {
    var m := (k - 1) as real;
    var fine, coarse := Step(lo, hi, 2 * k - 1), Step(lo, hi, k);
    StepSpans(lo, hi, 2 * k - 1);
    StepSpans(lo, hi, k);
    assert fine * (2.0 * m) == hi - lo;
    assert (2.0 * fine - coarse) * m == 0.0;
  }


  /**
   * The primary views of `select_evenly_interpolate(images, k)` are exactly
   * `select_evenly(images, k)`.
   */
  lemma PrimaryIsSelection(angles: seq<real>, k: nat)
    requires |angles| > 0 && k >= 1
    ensures EvenPositions(Selection(angles, 2 * k - 1)) == Selection(angles, k)
  {
    if k >= 2 {
      var fine, coarse := Selection(angles, 2 * k - 1), Selection(angles, k);
      forall j | 0 <= j < k
        ensures EvenPositions(fine)[j] == coarse[j]
      {
        SelectionDoubled(angles, k, j);
      }
    }
  }

  /** Target `2 * j` of `2 * k - 1` is target `j` of `k`, so the same view is chosen. */
  lemma SelectionDoubled(angles: seq<real>, k: nat, j: nat)
    requires |angles| > 0 && k >= 2 && j < k
    ensures Selection(angles, 2 * k - 1)[2 * j] == Selection(angles, k)[j]
  {
    TargetDoubled(angles, k, j);
    NearestEachAgrees(angles, TargetAngles(angles, 2 * k - 1), TargetAngles(angles, k), 2 * j, j);
  }

  /** Equal targets pick equal views. */
  lemma NearestEachAgrees(angles: seq<real>, ts: seq<real>, us: seq<real>, i: nat, j: nat)
    requires |angles| > 0 && i < |ts| && j < |us| && ts[i] == us[j]
    ensures NearestEach(angles, ts)[i] == NearestEach(angles, us)[j]
  {
    NearestEachAt(angles, ts, i);
    NearestEachAt(angles, us, j);
  }

  lemma TargetDoubled(angles: seq<real>, k: nat, j: nat)
    requires |angles| > 0 && k >= 2 && j < k
    ensures TargetAngles(angles, 2 * k - 1)[2 * j] == TargetAngles(angles, k)[j]
  {
    LinspaceDoubled(MinAngle(angles), MaxAngle(angles), k, j);
  }



  /**
   * The same view can be chosen more than once and can be both a primary
   * and an interpolation view: for angles 0 and 1 and three targets the
   * five points 0, 0.25, 0.5, 0.75, 1 pick views 0, 0, 0, 1, 1.
   */
  lemma DuplicatesAreKept()
    ensures Selection([0.0, 1.0], 5) == [0, 0, 0, 1, 1]
    ensures EvenPositions(Selection([0.0, 1.0], 5)) == [0, 0, 1]
    ensures OddPositions(Selection([0.0, 1.0], 5)) == [0, 1]
  {
    var a := [0.0, 1.0];
    var ts := TargetAngles(a, 5);
    assert MinAngle(a) == 0.0 && MaxAngle(a) == 1.0;
    assert Step(0.0, 1.0, 5) == 0.25;
    forall j | 0 <= j < 5
      ensures ts[j] == j as real * 0.25
    {
      PointIsProduct(0.0, 0.25, j);
    }
    assert ts == [0.0, 0.25, 0.5, 0.75, 1.0];
    var expected := [0, 0, 0, 1, 1];
    forall j | 0 <= j < 5
      ensures Selection(a, 5)[j] == expected[j]
    {
      NearestOfTwo(0.0, 1.0, ts[j]);
      SelectionAt(a, 5, j);
    }
  }
}
