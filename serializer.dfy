/** The export text built by handleFinish, and the merge of an imported array done by handleLoadArray. */
module Serializer {
  import opened Wrappers
  import opened Colors
  import opened Grid
  import opened Json

  function Header(name: string): string { "const " + name + "Icon = " }

  function Footer(name: string): string { ";\n\nexport default " + name + "Icon;" }

  /** Takes apart a text exported under `name`: header, grid literal, footer. */
  function DecodeExport(name: string, text: string): Option<Grid> {
    var h, f := Header(name), Footer(name);
    if |text| >= |h| + |f| && text[..|h|] == h && text[|text| - |f|..] == f then
      ParseGridText(text[|h|..|text| - |f|])
    else None
  }

  /**
   * The text handleFinish shows for copying: the finished grid as a JSON literal bound to
   * `<name>Icon`, a blank line, and the default export of that identifier. The name is used verbatim.
   */
  function ExportText(name: string, finished: Grid): (text: string)
    ensures |text| == |Header(name)| + |GridText(finished)| + |Footer(name)|
    ensures DecodeExport(name, text) == Some(finished)
  {
    var text := "const " + name + "Icon = " + GridText(finished) + ";\n\nexport default " + name + "Icon;";
    var h, body, f := Header(name), GridText(finished), Footer(name);
    assert text == h + body + f;
    assert text[..|h|] == h && text[|text| - |f|..] == f && text[|h|..|text| - |f|] == body;
    ParseGridTextInverse(finished);
    text
  }

  /** What the export of a session's grid carries: the finished grid, with no placeholder left in it. */
  lemma ExportCarriesFinished(name: string, g: Grid)
    ensures var m := DecodeExport(name, ExportText(name, Finish(g)));
      m == Some(Finish(g)) && SameShape(m.value, g) && NoSentinel(m.value)
  {
  }

  datatype ImportError = MissingFirstRow

  /** A committed import: the new grid and the width and height to track with it. */
  datatype Loaded = Loaded(grid: Grid, width: nat, height: nat)

  function Max(a: nat, b: nat): nat { if a >= b then a else b }

  /** One imported cell: the imported pixel if there is one, the placeholder if it is missing or has alpha 0. */
  function ImportPixel(raw: Grid, r: nat, c: nat): (p: Color)
    ensures p.a != 0
    ensures p == (if r < |raw| && c < |raw[r]| && raw[r][c].a != 0 then raw[r][c] else Sentinel)
  {
    var pixel := if r < |raw| && c < |raw[r]| then raw[r][c] else Sentinel;
    if pixel.a == 0 then Sentinel else pixel
  }

  /**
   * The merge of handleLoadArray. An empty outer array has no first row and is an error. Otherwise the
   * grid is at least as wide as the first imported row and the current width, at least as tall as the
   * import and the current height; imported cells land at their own position, and every other position,
   * like every fully transparent imported pixel, holds the placeholder. The previous grid is not consulted.
   */
  function Reconcile(raw: Grid, width: nat, height: nat): (res: Result<Loaded, ImportError>)
    ensures res.Err? <==> raw == []
    ensures res.Ok? ==>
      var l := res.value;
      l.width == Max(|raw[0]|, width) && l.height == Max(|raw|, height) &&
      l.width >= width && l.height >= height && l.width >= |raw[0]| && l.height >= |raw| &&
      IsRect(l.grid, l.width, l.height) &&
      (forall r, c | 0 <= r < l.height && 0 <= c < l.width ::
        l.grid[r][c] == (if r < |raw| && c < |raw[r]| && raw[r][c].a != 0 then raw[r][c] else Sentinel))
  {
    if |raw| == 0 then Err(MissingFirstRow)
    else
      var maxWidth := Max(|raw[0]|, width);
      var maxHeight := Max(|raw|, height);
      var grid := seq(maxHeight, r requires 0 <= r < maxHeight =>
        seq(maxWidth, c requires 0 <= c < maxWidth => ImportPixel(raw, r, c)));
      Ok(Loaded(grid, maxWidth, maxHeight))
  }

  /** The grid the editor shows for `g` after an export and a re-import: fully transparent cells become placeholders. */
  function Reopened(g: Grid): (r: Grid)
    ensures SameShape(r, g)
  {
    seq(|g|, i requires 0 <= i < |g| =>
      seq(|g[i]|, j requires 0 <= j < |g[i]| => if g[i][j].a == 0 then Sentinel else g[i][j]))
  }

  /**
   * Finishing and importing apply inverse conventions: the placeholder goes out as transparent black and
   * comes back as the placeholder. Importing a finished grid into a session of its size gives its cells
   * back, except that a fully transparent painted cell comes back as the placeholder.
   */
  lemma ImportOfFinished(g: Grid, w: nat, h: nat)
    requires IsRect(g, w, h) && h > 0
    ensures Reconcile(Finish(g), w, h) == Ok(Loaded(Reopened(g), w, h))
  {
    var f := Finish(g);
    var l := Reconcile(f, w, h).value;
    assert |f[0]| == w;
    assert l.grid == Reopened(g) by {
      forall r | 0 <= r < h ensures l.grid[r] == Reopened(g)[r] {
        assert |l.grid[r]| == |Reopened(g)[r]|;
      }
    }
  }

  /** A grid with no fully transparent painted cell survives export and re-import exactly. */
  lemma ExportImportRoundTrip(name: string, g: Grid, w: nat, h: nat)
    requires IsRect(g, w, h) && h > 0
    requires forall i, j | 0 <= i < h && 0 <= j < w :: g[i][j].a != 0
    ensures var m := DecodeExport(name, ExportText(name, Finish(g)));
      m.Some? && Reconcile(m.value, w, h) == Ok(Loaded(g, w, h))
  {
    ImportOfFinished(g, w, h);
    assert Reopened(g) == g by {
      forall i | 0 <= i < h ensures Reopened(g)[i] == g[i] {
        assert |Reopened(g)[i]| == |g[i]|;
      }
    }
  }

  /** Importing a small array into a bigger session keeps the session's size and fills the rest with placeholders. */
  lemma ImportNeverShrinks(raw: Grid, w: nat, h: nat)
    requires IsRect(raw, 4, 4) && w == 16 && h == 16
    ensures var l := Reconcile(raw, w, h).value;
      l.width == 16 && l.height == 16 &&
      forall r, c | 0 <= r < 16 && 0 <= c < 16 && (r >= 4 || c >= 4) :: l.grid[r][c] == Sentinel
  {
  }
}
