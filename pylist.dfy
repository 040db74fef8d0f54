/**
 * The two ways the entry scripts take the end of a Python list: the
 * element `xs[-1]`, which fails on an empty list, and the slice `xs[-n:]`,
 * which never fails and holds at most `n` elements.
 */
module PyList {

  /** `xs[-1]`. */
  function Last<T>(xs: seq<T>): (x: T)
    requires |xs| > 0
    ensures x in xs
  {
    xs[|xs| - 1]
  }

  /** `xs[-n:]` for `n > 0`: the last `n` elements, or all of them when there are fewer. */
  function TailSlice<T>(xs: seq<T>, n: nat): (r: seq<T>)
    requires n > 0
    ensures |r| == if |xs| < n then |xs| else n
    ensures xs[|xs| - |r|..] == r
  {
    if |xs| < n then xs else xs[|xs| - n..]
  }

  /** `xs[-1:]` is empty for an empty list and the one-element list `[xs[-1]]` otherwise. */
  lemma LastSlice<T>(xs: seq<T>)
    ensures |xs| == 0 ==> TailSlice(xs, 1) == []
    ensures |xs| > 0 ==> TailSlice(xs, 1) == [Last(xs)]
  {
    if |xs| > 0 {
      assert TailSlice(xs, 1)[0] == Last(xs);
    }
  }
}
