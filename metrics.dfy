/**
 * The depth sample table `DepthMetric`: for each of `numTargets` views a
 * row of `numTargets` slots, each holding one 128 x 128 depth image, and a
 * per-view count of the slots filled so far.
 *
 * numpy's float64 entries are exact reals here.
 */
module Metrics {

  /** The side length of a depth image. */
  const DepthSize: nat := 128

  type DepthImage = seq<seq<real>>

  /** A `DepthSize x DepthSize` grid of depth values. */
  ghost predicate IsDepthImage(d: DepthImage) {
    |d| == DepthSize && forall r :: 0 <= r < |d| ==> |d[r]| == DepthSize
  }

  /** The all-zero depth image `np.zeros([128, 128])`. */
  function ZeroDepth(): (d: DepthImage)
    ensures |d| == DepthSize
    ensures forall r :: 0 <= r < |d| ==> |d[r]| == DepthSize && forall c :: 0 <= c < |d[r]| ==> d[r][c] == 0.0
  {
    seq(DepthSize, _ => seq(DepthSize, _ => 0.0))
  }

  /**
   * The position numpy addresses for index `i` along an axis of length `n`:
   * a negative index counts from the end.
   */
  function AxisIndex(i: int, n: nat): (p: nat)
    requires -(n as int) <= i < n
    ensures p < n
    ensures p == i || p == i + n
    ensures i >= 0 ==> p == i
  {
    if i < 0 then i + n else i
  }

  class DepthMetric {
    const numTargets: nat
    /** `depth_array[v, s]`: sample `s` of view `v`. */
    const depthArray: array2<DepthImage>
    /** `counter[v]`: how many samples of view `v` are stored. */
    const counter: array<int>

    /**
     * The table is `numTargets x numTargets`, every slot is a depth image,
     * each count lies between 0 and `numTargets`, and every slot past the
     * count of its view is still zero.
     */
    ghost predicate Valid()
      reads this, depthArray, counter
    {
      && depthArray.Length0 == numTargets && depthArray.Length1 == numTargets
      && counter.Length == numTargets
      && (forall v :: 0 <= v < numTargets ==> 0 <= counter[v] <= numTargets)
      && (forall v, s :: 0 <= v < numTargets && 0 <= s < numTargets ==> IsDepthImage(depthArray[v, s]))
      && (forall v, s :: 0 <= v < numTargets && counter[v] <= s < numTargets ==> depthArray[v, s] == ZeroDepth())
    }

    /** The samples of view `v` stored so far, oldest first. */
    ghost function Samples(v: nat): seq<DepthImage>
      requires Valid() && v < numTargets
      reads this, depthArray, counter
    {
      var filled := counter[v];
      seq(filled, s requires 0 <= s < filled reads depthArray => depthArray[v, s])
    }

    /** `DepthMetric(num_targets)`: an all-zero table and all counts zero. */
    constructor (numTargets: nat)
      ensures Valid()
      ensures fresh(depthArray) && fresh(counter)
      ensures this.numTargets == numTargets
      ensures forall v :: 0 <= v < numTargets ==> counter[v] == 0 && Samples(v) == []
      ensures forall v, s :: 0 <= v < numTargets && 0 <= s < numTargets ==> depthArray[v, s] == ZeroDepth()
    {
      this.numTargets := numTargets;
      depthArray := new DepthImage[numTargets, numTargets]((_, _) => ZeroDepth());
      counter := new int[numTargets](_ => 0);
    }

    /**
     * `update(view_index, depth_image)`: stores `depth_image[0]` in the next
     * free slot of the view and counts it. The view index may be negative,
     * as numpy allows; the view must still have a free slot.
     */
    method Update(viewIndex: int, depthImage: seq<DepthImage>)
      requires Valid()
      requires -(numTargets as int) <= viewIndex < numTargets
      requires |depthImage| > 0 && IsDepthImage(depthImage[0])
      requires counter[AxisIndex(viewIndex, numTargets)] < numTargets
      modifies depthArray, counter
      ensures Valid()
      ensures var v := AxisIndex(viewIndex, numTargets);
        && depthArray[v, old(counter[v])] == depthImage[0]
        && counter[v] == old(counter[v]) + 1
        && Samples(v) == old(Samples(v)) + [depthImage[0]]
      ensures var v := AxisIndex(viewIndex, numTargets);
        forall u :: 0 <= u < numTargets && u != v ==> counter[u] == old(counter[u])
      ensures var v := AxisIndex(viewIndex, numTargets);
        forall u, s :: 0 <= u < numTargets && 0 <= s < numTargets && (u != v || s != old(counter[v])) ==>
          depthArray[u, s] == old(depthArray[u, s])
    {
      var v := AxisIndex(viewIndex, numTargets);
      ghost var before := Samples(v);
      depthArray[v, counter[v]] := depthImage[0];
      counter[v] := counter[v] + 1;
      assert Samples(v) == before + [depthImage[0]];
    }
  }
}
