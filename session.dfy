/** The editing session: the state the editor component keeps, and its event handlers. */
module Session {
  import opened Wrappers
  import opened Colors
  import opened Grid
  import opened Tools
  import History
  import opened Serializer

  class Editor {
    var tool: Tool
    var currentColor: Color
    /** The colour put aside by the eraser shortcut; `None` is the initial empty string. */
    var savedColor: Option<Color>
    var pixelMatrix: Grid
    var gridWidth: nat
    var gridHeight: nat
    var recentColors: seq<Color>
    var resultMatrix: Grid
    var formattedText: string

    /** The tracked size is the size of the grid, and the eraser always has a colour to give back. */
    ghost predicate Valid()
      reads this
    {
      IsRect(pixelMatrix, gridWidth, gridHeight) && EraserHasSaved(ToolView())
    }

    function ToolView(): ToolState
      reads this
    {
      ToolState(tool, currentColor, savedColor)
    }

    /**
     * The session once mounted: a 16 by 16 unpainted grid, brush, opaque black, nothing saved, and the
     * history read from the store (`stored` is what the store held, already decoded; empty when absent).
     */
    constructor (stored: seq<Color>)
      ensures Valid()
      ensures ToolView() == InitialTools
      ensures gridWidth == 16 && gridHeight == 16 && pixelMatrix == LoadScreen(16, 16)
      ensures recentColors == stored && resultMatrix == [] && formattedText == ""
    {
      tool := Brush;
      currentColor := Color(0, 0, 0, 100);
      savedColor := None;
      gridWidth, gridHeight := 16, 16;
      pixelMatrix := LoadScreen(16, 16);
      recentColors := stored;
      resultMatrix := [];
      formattedText := "";
    }

    /** handleKeyDown, evaluated against the current state. */
    method KeyDown(key: string)
      requires Valid()
      modifies this`tool, this`currentColor, this`savedColor
      ensures Valid()
      ensures ToolView() == OnKey(old(ToolView()), key)
    {
      if key == "e" {
        tool := Eraser;
        savedColor := Some(currentColor);
        currentColor := Sentinel;
      } else if key == "b" {
        if savedColor != None {
          currentColor := savedColor.value;
        }
        tool := Brush;
      } else if key == "i" {
        tool := Eyedropper;
      } else if key == "r" {
        tool := Rectangle;
      }
    }

    /** handlePixelClick on row `x`, column `y`. */
    method PixelClick(x: int, y: int)
      requires Valid()
      modifies this`pixelMatrix, this`tool, this`currentColor
      ensures Valid()
      ensures Step(pixelMatrix, ToolView()) == Click(old(pixelMatrix), old(ToolView()), x, y)
    {
      if tool == Eraser {
        pixelMatrix := Paint(pixelMatrix, x, y, Sentinel);
      } else if tool == Eyedropper {
        if InBounds(pixelMatrix, x, y) {
          currentColor := pixelMatrix[x][y];
          tool := Brush;
        }
      } else {
        pixelMatrix := Paint(pixelMatrix, x, y, currentColor);
      }
    }

    /** handleFinish: keeps the finished grid and the export text built from it under `objectName`. */
    method FinishDrawing(objectName: string)
      requires Valid()
      modifies this`resultMatrix, this`formattedText
      ensures Valid()
      ensures resultMatrix == Finish(pixelMatrix)
      ensures formattedText == ExportText(objectName, resultMatrix)
      ensures DecodeExport(objectName, formattedText) == Some(resultMatrix) && NoSentinel(resultMatrix)
    {
      resultMatrix := Finish(pixelMatrix);
      formattedText := ExportText(objectName, resultMatrix);
    }

    /** handleColorPick: the picker's `#RRGGBB` value becomes the paint colour. */
    method ColorPick(hex: string)
      requires Valid()
      requires HasHexShape(hex) ==> AllHex(hex[1..])
      modifies this`currentColor
      ensures Valid()
      ensures currentColor == HexToRgb(hex) && ValidColor(currentColor)
    {
      currentColor := HexToRgb(hex);
    }

    /** handleRecentColorClick: a swatch of the history becomes the paint colour. */
    method RecentColorClick(color: Color)
      requires Valid()
      modifies this`currentColor
      ensures Valid()
      ensures currentColor == color
    {
      currentColor := color;
    }

    /** updateRecentColors; the write to the store is not part of this model. */
    method UpdateRecentColors(newColor: Color)
      requires Valid()
      modifies this`recentColors
      ensures Valid()
      ensures recentColors == History.Record(old(recentColors), newColor)
      ensures |recentColors| <= History.Capacity && recentColors[0] == newColor
    {
      recentColors := History.Record(recentColors, newColor);
    }

    /** handleSaveColor: records the paint colour. */
    method SaveColor()
      requires Valid()
      modifies this`recentColors
      ensures Valid()
      ensures recentColors == History.Record(old(recentColors), currentColor)
    {
      UpdateRecentColors(currentColor);
    }

    /** handleClearLastColor; the write to the store is not part of this model. */
    method ClearLastColor()
      requires Valid()
      modifies this`recentColors
      ensures Valid()
      ensures recentColors == History.ClearLast(old(recentColors))
    {
      if |recentColors| > 0 {
        recentColors := recentColors[1..];
      }
    }

    /** handleGridSizeChange, with the reload the component then performs: a fresh unpainted grid. */
    method GridSizeChange(width: nat, height: nat)
      requires Valid()
      modifies this`gridWidth, this`gridHeight, this`pixelMatrix
      ensures Valid()
      ensures gridWidth == width && gridHeight == height && pixelMatrix == LoadScreen(width, height)
    {
      gridWidth := width;
      gridHeight := height;
      pixelMatrix := LoadScreen(gridWidth, gridHeight);
    }

    /** handleStart: the grid is reloaded, unpainted, at the tracked size. */
    method Start()
      requires Valid()
      modifies this`pixelMatrix
      ensures Valid()
      ensures pixelMatrix == LoadScreen(gridWidth, gridHeight)
    {
      pixelMatrix := LoadScreen(gridWidth, gridHeight);
    }

    /**
     * handleLoadArray on an already parsed array. On success the grid and its width and height are
     * committed together; an array without a first row is refused and nothing changes.
     */
    method LoadArray(raw: Grid) returns (ok: bool)
      requires Valid()
      modifies this`pixelMatrix, this`gridWidth, this`gridHeight
      ensures Valid()
      ensures ok <==> raw != []
      ensures ok ==> Reconcile(raw, old(gridWidth), old(gridHeight)) == Ok(Loaded(pixelMatrix, gridWidth, gridHeight))
      ensures !ok ==> pixelMatrix == old(pixelMatrix) && gridWidth == old(gridWidth) && gridHeight == old(gridHeight)
    {
      var res := Reconcile(raw, gridWidth, gridHeight);
      if res.Err? {
        return false;
      }
      gridWidth := res.value.width;
      gridHeight := res.value.height;
      pixelMatrix := res.value.grid;
      ok := true;
    }
  }

  /**
   * A session from start to export: an 8 by 8 grid, red chosen, cell (2, 3) painted, finished. Only the
   * contracts above are used.
   */
  method PaintOneCellAndExport()
  {
    var e := new Editor([]);
    e.GridSizeChange(8, 8);
    e.RecentColorClick(Color(255, 0, 0, 100));
    e.PixelClick(2, 3);
    e.FinishDrawing("heart");
    assert e.resultMatrix[2][3] == Color(255, 0, 0, 100);
    assert forall i, j | 0 <= i < 8 && 0 <= j < 8 && (i != 2 || j != 3) :: e.resultMatrix[i][j] == Transparent;
    assert DecodeExport("heart", e.formattedText) == Some(e.resultMatrix);
  }
}
