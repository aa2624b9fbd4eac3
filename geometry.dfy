/** Canvas geometry shared by the PNG and SVG emitters: cells of side `cell`
    separated and framed by `gap`. */
module Geometry {
  import opened Numbers

  /** `n * (cellSize + gap) + gap`: the canvas extent for `n` cells. */
  function CanvasExtent(n: nat, cell: nat, gap: nat): nat
  {
    n * (cell + gap) + gap
  }

  /** `i * (cellSize + gap) + gap`: where cell `i` starts. */
  function CellOrigin(i: nat, cell: nat, gap: nat): nat
  {
    i * (cell + gap) + gap
  }

  /** Every cell square lies inside the canvas, with at least `gap` left
      before it and after it. */
  lemma CellInsideCanvas(i: nat, n: nat, cell: nat, gap: nat)
    requires i < n
    ensures gap <= CellOrigin(i, cell, gap)
    ensures CellOrigin(i, cell, gap) + cell + gap <= CanvasExtent(n, cell, gap)
  {
    MulMonotone(i + 1, n, cell + gap);
  }

  /** Consecutive cells are `gap` apart and later cells start further on, so
      no two cell squares overlap. */
  lemma CellsDisjoint(i: nat, j: nat, cell: nat, gap: nat)
    requires i < j
    ensures CellOrigin(i, cell, gap) + cell + gap <= CellOrigin(j, cell, gap)
  {
    MulMonotone(i + 1, j, cell + gap);
  }
}
