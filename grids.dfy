/** The intensity grid shared by both grid producers, the codec and the emitters. */
module Grids {
  import opened Numbers

  /** `number[][]`: rows of intensity values. */
  type Grid = seq<seq<real>>

  /** `grid[0]?.length ?? 0`: the width the emitters and the serialiser read. */
  function Width(g: Grid): nat
  {
    if |g| == 0 then 0 else |g[0]|
  }

  predicate IsRectangular(g: Grid)
  {
    forall r :: 0 <= r < |g| ==> |g[r]| == Width(g)
  }

  /** Concatenation of rows, first row first (row-major order). */
  function Flatten<T>(s: seq<seq<T>>): seq<T>
  {
    if s == [] then [] else Flatten(s[..|s| - 1]) + s[|s| - 1]
  }

  lemma FlattenSnoc<T>(s: seq<seq<T>>, k: nat)
    requires k < |s|
    ensures Flatten(s[..k + 1]) == Flatten(s[..k]) + s[k]
  {
    assert s[..k + 1][..k] == s[..k];
  }

  lemma {:induction false} FlattenLength<T>(s: seq<seq<T>>, w: nat)
    requires forall r :: 0 <= r < |s| ==> |s[r]| == w
    ensures |Flatten(s)| == |s| * w
  {
    if s != [] {
      var n := |s| - 1;
      FlattenLength(s[..n], w);
      assert |Flatten(s)| == n * w + w;
      assert (n + 1) * w == n * w + w;
    }
  }

  /** In a flattened table of rows of width `w`, cell (r, c) sits at `r * w + c`. */
  lemma {:induction false} FlattenAt<T>(s: seq<seq<T>>, w: nat, r: nat, c: nat)
    requires forall i :: 0 <= i < |s| ==> |s[i]| == w
    requires r < |s| && c < w
    ensures r * w + c < |Flatten(s)| && Flatten(s)[r * w + c] == s[r][c]
  {
    var n := |s| - 1;
    var front := s[..n];
    FlattenLength(front, w);
    FlattenLength(s, w);
    if r < n {
      FlattenAt(front, w, r, c);
      MulMonotone(r + 1, n, w);
    } else {
      assert r * w + c == |Flatten(front)| + c;
    }
  }
}
