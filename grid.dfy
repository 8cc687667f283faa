/** The pixel grid: creation, painting one cell, and the finishing transform applied before export. */
module Grid {
  import opened Colors

  /** Rows of cells, addressed `g[row][column]`; the transforms below do not assume it is rectangular. */
  type Grid = seq<seq<Color>>

  predicate IsRect(g: Grid, w: nat, h: nat) {
    |g| == h && forall i | 0 <= i < |g| :: |g[i]| == w
  }

  predicate SameShape(a: Grid, b: Grid) {
    |a| == |b| && forall i | 0 <= i < |a| :: |a[i]| == |b[i]|
  }

  predicate InBounds(g: Grid, x: int, y: int) {
    0 <= x < |g| && 0 <= y < |g[x]|
  }

  /** No cell holds the unpainted placeholder. */
  predicate NoSentinel(g: Grid) {
    forall i, j | 0 <= i < |g| && 0 <= j < |g[i]| :: g[i][j] != Sentinel
  }

  /** loadScreen: `height` rows of `width` cells, each the unpainted placeholder. */
  function LoadScreen(width: nat, height: nat): (g: Grid)
    ensures IsRect(g, width, height)
    ensures forall i, j | 0 <= i < height && 0 <= j < width :: g[i][j] == Sentinel
  {
    seq(height, _ => seq(width, _ => Sentinel))
  }

  /**
   * The matrix rebuilt by a click: the cell at row `x`, column `y` becomes `c` and every other cell is
   * kept; a position outside the grid matches no cell, so nothing changes.
   */
  function Paint(g: Grid, x: int, y: int, c: Color): (r: Grid)
    ensures SameShape(r, g)
    ensures forall i, j | 0 <= i < |g| && 0 <= j < |g[i]| && (i != x || j != y) :: r[i][j] == g[i][j]
    ensures InBounds(g, x, y) ==> r[x][y] == c
    ensures !InBounds(g, x, y) ==> r == g
  {
    var r := seq(|g|, i requires 0 <= i < |g| =>
      seq(|g[i]|, j requires 0 <= j < |g[i]| => if i == x && j == y then c else g[i][j]));
    assert !InBounds(g, x, y) ==> forall i | 0 <= i < |g| :: r[i] == g[i];
    r
  }

  /** The per-cell rule of handleFinish: the placeholder (on all four channels) becomes transparent. */
  function FinishPixel(c: Color): (d: Color)
    ensures d != Sentinel
    ensures c == Sentinel ==> d == Transparent
    ensures c != Sentinel ==> d == c
  {
    if c.r == 100 && c.g == 100 && c.b == 100 && c.a == 100 then Transparent else c
  }

  /** handleFinish's nested map: every placeholder cell becomes transparent, every other cell is copied. */
  function Finish(g: Grid): (r: Grid)
    ensures SameShape(r, g)
    ensures NoSentinel(r)
    ensures forall i, j | 0 <= i < |g| && 0 <= j < |g[i]| ::
      (g[i][j] == Sentinel ==> r[i][j] == Transparent) && (g[i][j] != Sentinel ==> r[i][j] == g[i][j])
  {
    seq(|g|, i requires 0 <= i < |g| => seq(|g[i]|, j requires 0 <= j < |g[i]| => FinishPixel(g[i][j])))
  }

  /** A grid without placeholders is left exactly as it is. */
  lemma FinishKeepsFinished(g: Grid)
    requires NoSentinel(g)
    ensures Finish(g) == g
  {
    var r := Finish(g);
    assert |r| == |g|;
    forall i | 0 <= i < |g| ensures r[i] == g[i] {
      assert |r[i]| == |g[i]|;
    }
  }

  /** Finishing twice is finishing once. */
  lemma FinishIdempotent(g: Grid)
    ensures Finish(Finish(g)) == Finish(g)
  {
    FinishKeepsFinished(Finish(g));
  }

  /** Painting then finishing: the painted cell survives unless it was painted with the placeholder. */
  lemma FinishAfterPaint(g: Grid, x: int, y: int, c: Color)
    requires InBounds(g, x, y)
    ensures Finish(Paint(g, x, y, c))[x][y] == if c == Sentinel then Transparent else c
  {
  }
}
