/** The tool state machine: keyboard shortcuts, and what a click on a cell does under each tool. */
module Tools {
  import opened Wrappers
  import opened Colors
  import opened Grid

  /** The rectangle tool has no two-point behaviour: a click paints like the brush. */
  datatype Tool = Brush | Eraser | Eyedropper | Rectangle

  /**
   * The active tool, the paint colour, and the colour put aside when the eraser was chosen
   * (`None` stands for the session's initial empty string).
   */
  datatype ToolState = ToolState(tool: Tool, current: Color, saved: Option<Color>)

  /** The state a session starts in: brush, opaque black, nothing saved. */
  const InitialTools: ToolState := ToolState(Brush, Color(0, 0, 0, 100), None)

  /** The eraser always has a colour to give back when the brush is chosen again. */
  predicate EraserHasSaved(s: ToolState) {
    s.tool == Eraser ==> s.saved.Some?
  }

  /** The shortcut table: which tool each key selects, if any. */
  function KeyTool(key: string): Option<Tool> {
    if key == "e" then Some(Eraser)
    else if key == "b" then Some(Brush)
    else if key == "i" then Some(Eyedropper)
    else if key == "r" then Some(Rectangle)
    else None
  }

  /**
   * handleKeyDown. 'e' puts the paint colour aside (always, even when the eraser is already active)
   * and paints with the placeholder; 'b' takes the put-aside colour back when there is one.
   */
  function OnKey(s: ToolState, key: string): (t: ToolState)
    ensures t.tool == (if KeyTool(key).Some? then KeyTool(key).value else s.tool)
    ensures t.saved == (if key == "e" then Some(s.current) else s.saved)
    ensures t.current == (if key == "e" then Sentinel else if key == "b" && s.saved.Some? then s.saved.value else s.current)
    ensures KeyTool(key).None? ==> t == s
    ensures EraserHasSaved(s) ==> EraserHasSaved(t)
  {
    if key == "e" then ToolState(Eraser, Sentinel, Some(s.current))
    else if key == "b" then ToolState(Brush, if s.saved != None then s.saved.value else s.current, s.saved)
    else if key == "i" then s.(tool := Eyedropper)
    else if key == "r" then s.(tool := Rectangle)
    else s
  }

  /** Choosing the eraser and then the brush gives the paint colour back. */
  lemma EraseThenBrushRestores(s: ToolState)
    ensures OnKey(OnKey(s, "e"), "b") == ToolState(Brush, s.current, Some(s.current))
  {
  }

  /** Because the save is unconditional, pressing 'e' twice puts the placeholder aside, and 'b' paints with it. */
  lemma EraseTwiceLosesColour(s: ToolState)
    ensures OnKey(OnKey(OnKey(s, "e"), "e"), "b") == ToolState(Brush, Sentinel, Some(Sentinel))
  {
  }

  /** What one click leaves behind: the rebuilt grid and the tool state. */
  datatype Step = Step(grid: Grid, tools: ToolState)

  /**
   * handlePixelClick at row `x`, column `y`: the eraser writes the placeholder, the eyedropper copies
   * the cell into the paint colour and returns to the brush, brush and rectangle write the paint colour.
   */
  function Click(g: Grid, s: ToolState, x: int, y: int): (r: Step)
    ensures SameShape(r.grid, g)
    ensures forall i, j | 0 <= i < |g| && 0 <= j < |g[i]| && (i != x || j != y) :: r.grid[i][j] == g[i][j]
    ensures !InBounds(g, x, y) ==> r == Step(g, s)
    ensures InBounds(g, x, y) ==>
      r.grid[x][y] == (if s.tool == Eraser then Sentinel else if s.tool == Eyedropper then g[x][y] else s.current)
    ensures InBounds(g, x, y) && s.tool == Eyedropper ==> r.tools == ToolState(Brush, g[x][y], s.saved)
    ensures s.tool != Eyedropper ==> r.tools == s
    ensures EraserHasSaved(s) ==> EraserHasSaved(r.tools)
  {
    match s.tool
    case Eraser => Step(Paint(g, x, y, Sentinel), s)
    case Eyedropper =>
      if InBounds(g, x, y) then Step(g, s.(current := g[x][y], tool := Brush)) else Step(g, s)
    case _ => Step(Paint(g, x, y, s.current), s)
  }

  /** Picking a colour with the eyedropper and clicking another cell copies the picked colour there. */
  lemma EyedropperRoundTrip(g: Grid, s: ToolState, x: int, y: int, x2: int, y2: int)
    requires s.tool == Eyedropper && InBounds(g, x, y) && InBounds(g, x2, y2)
    ensures var first := Click(g, s, x, y);
      first.tools.tool == Brush && first.grid == g &&
      Click(first.grid, first.tools, x2, y2).grid[x2][y2] == g[x][y]
  {
  }

  /** Erasing a cell always leaves the placeholder there, and erasing it again changes nothing. */
  lemma EraseIdempotent(g: Grid, s: ToolState, x: int, y: int)
    requires s.tool == Eraser && InBounds(g, x, y)
    ensures var once := Click(g, s, x, y);
      once.grid[x][y] == Sentinel && Click(once.grid, once.tools, x, y) == once
  {
    var once := Click(g, s, x, y);
    var twice := Click(once.grid, once.tools, x, y);
    assert twice.grid == once.grid by {
      forall i | 0 <= i < |once.grid| ensures twice.grid[i] == once.grid[i] {
        assert |twice.grid[i]| == |once.grid[i]|;
      }
    }
  }
}
