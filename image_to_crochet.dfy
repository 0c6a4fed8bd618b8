/** The image converter of the crochet tools: it decides which side of a
    grey-level threshold is the figure, checks the requested grid layout,
    and lays the thresholded, resized image out on the grid between blank
    header and footer rows, optionally on odd rows only.  The result is a
    pattern the Tk editor loads.

    The image itself is not modelled: the grey levels of the whole image are
    the sequence `gray`, the resized image is the function `pixel` (its
    `getpixel((c, ru))`), and the Otsu threshold is the parameter `otsu`. */
module ImageToGrid {
  import opened Wrappers
  import opened Json
  import opened Hex
  import opened Grid
  import opened TkEditor

  // ---- figure or ground ----

  /** `sum(1 for p in pixels if p < t)`: the dark pixels. */
  function CountBelow(pixels: seq<int>, t: int): (n: nat)
    ensures n <= |pixels|
    decreases |pixels|
  {
    if pixels == [] then 0
    else (if pixels[0] < t then 1 else 0) + CountBelow(pixels[1..], t)
  }

  /** The pixels at or above `t`: the light ones. */
  function CountAtLeast(pixels: seq<int>, t: int): (n: nat)
    decreases |pixels|
  {
    if pixels == [] then 0
    else (if pixels[0] >= t then 1 else 0) + CountAtLeast(pixels[1..], t)
  }

  /** Every pixel is dark or light, so `len(pixels) - dark` counts the light
      ones. */
  lemma {:induction false} DarkAndLightPartition(pixels: seq<int>, t: int)
    ensures CountBelow(pixels, t) + CountAtLeast(pixels, t) == |pixels|
    decreases |pixels|
  {
    if pixels != [] {
      DarkAndLightPartition(pixels[1..], t);
    }
  }

  /** Counting splits over concatenation. */
  lemma {:induction false} CountBelowAppend(a: seq<int>, b: seq<int>, t: int)
    ensures CountBelow(a + b, t) == CountBelow(a, t) + CountBelow(b, t)
    decreases |a|
  {
    if a != [] {
      assert (a + b)[1..] == a[1..] + b;
      CountBelowAppend(a[1..], b, t);
    } else {
      assert a + b == b;
    }
  }

  /** A higher threshold makes no pixel light that was dark. */
  lemma {:induction false} CountBelowMonotone(pixels: seq<int>, t: int, u: int)
    requires t <= u
    ensures CountBelow(pixels, t) <= CountBelow(pixels, u)
    decreases |pixels|
  {
    if pixels != [] {
      CountBelowMonotone(pixels[1..], t, u);
    }
  }

  /** `infer_figure_is_dark`: the figure is dark unless dark pixels are the
      majority. */
  function InferFigureIsDark(gray: seq<int>, t: int): (dark: bool)
    ensures dark <==> 2 * CountBelow(gray, t) <= |gray|
  {
    var dark := CountBelow(gray, t);
    var light := |gray| - dark;
    dark <= light
  }

  /** The pixels that count as figure when the figure is dark (or light). */
  function CountFigure(gray: seq<int>, t: int, figureIsDark: bool): nat {
    if figureIsDark then CountBelow(gray, t) else CountAtLeast(gray, t)
  }

  /** The inferred figure is the smaller side, the dark one on a tie: it is
      never more than half the image, and the other choice never has fewer
      pixels. */
  lemma FigureIsMinority(gray: seq<int>, t: int)
    ensures var d := InferFigureIsDark(gray, t);
      && (d <==> CountBelow(gray, t) <= CountAtLeast(gray, t))
      && 2 * CountFigure(gray, t, d) <= |gray|
      && CountFigure(gray, t, d) <= CountFigure(gray, t, !d)
  {
    DarkAndLightPartition(gray, t);
  }

  /** Whether a resized pixel is painted: dark pixels are figure when the
      figure is dark, light ones otherwise, and `invert` swaps the two. */
  predicate IsFigure(p: int, t: int, figureIsDark: bool, invert: bool) {
    var isDark := p < t;
    var isFigure := if figureIsDark then isDark else !isDark;
    if invert then !isFigure else isFigure
  }

  /** Inverting paints exactly the pixels that were not painted, and
      inverting a light figure paints what a dark figure paints. */
  lemma InvertSwaps(p: int, t: int, figureIsDark: bool)
    ensures IsFigure(p, t, figureIsDark, true) == !IsFigure(p, t, figureIsDark, false)
    ensures IsFigure(p, t, !figureIsDark, true) == IsFigure(p, t, figureIsDark, false)
    ensures IsFigure(p, t, true, false) == (p < t)
  {
  }

  // ---- the layout ----

  /** The three `ValueError`s `image_to_grid_json` raises before it reads
      the image. */
  datatype LayoutError = TooSmall | NegativeMargin | MarginsTooLarge

  /** The checks of `image_to_grid_json`, in their order. */
  function CheckLayout(rows: int, cols: int, header: int, footer: int): (r: Option<LayoutError>)
    ensures r.None? <==> 1 <= rows && 1 <= cols && 0 <= header && 0 <= footer && header + footer < rows
    ensures r == Some(TooSmall) <==> rows <= 0 || cols <= 0
    ensures r == Some(NegativeMargin) <==> 1 <= rows && 1 <= cols && (header < 0 || footer < 0)
  {
    if rows <= 0 || cols <= 0 then Some(TooSmall)
    else if header < 0 || footer < 0 then Some(NegativeMargin)
    else if header + footer >= rows then Some(MarginsTooLarge)
    else None
  }

  /** The choices that decide every cell of the grid. */
  datatype Layout = Layout(rows: int, cols: int, header: int, footer: int, oddRowsOnly: bool,
                           t: int, figureIsDark: bool, invert: bool, fg: string)

  predicate ValidLayout(l: Layout) {
    CheckLayout(l.rows, l.cols, l.header, l.footer).None?
  }

  /** Row `r` is blank because of the odd-rows-only rule: its number counted
      from 1 at the bottom is even. */
  predicate SkippedRow(l: Layout, r: int) {
    l.oddRowsOnly && (l.rows - r) % 2 == 0
  }

  /** Row `r` lies between the header and the footer. */
  predicate UsableRow(l: Layout, r: int) {
    l.header <= r < l.rows - l.footer
  }

  /** What the loops of `image_to_grid_json` store at row `r`, column `c`:
      nothing outside the usable rows or on a skipped row, otherwise the
      figure colour where the resized pixel is figure. */
  function LayoutCell(l: Layout, pixel: (int, int) -> int, r: int, c: int): Cell {
    if !UsableRow(l, r) || SkippedRow(l, r) then None
    else if IsFigure(pixel(c, r - l.header), l.t, l.figureIsDark, l.invert) then Some(l.fg)
    else None
  }

  /** The grid `image_to_grid_json` builds. */
  function LayoutGrid(l: Layout, pixel: (int, int) -> int): (g: Cells)
    ensures Shaped(g, l.rows, l.cols)
    ensures forall r, c :: 0 <= r < |g| && 0 <= c < |g[r]| ==> g[r][c] == LayoutCell(l, pixel, r, c)
  {
    seq(Size(l.rows), r => seq(Size(l.cols), c => LayoutCell(l, pixel, r, c)))
  }

  /** The header rows and the footer rows are blank, as is every row whose
      number from the bottom is even when only odd rows are filled. */
  lemma BlankRows(l: Layout, pixel: (int, int) -> int, r: int)
    requires 0 <= r < l.rows && (r < l.header || l.rows - l.footer <= r || SkippedRow(l, r))
    ensures forall c :: 0 <= c < l.cols ==> LayoutGrid(l, pixel)[r][c] == None
  {
  }

  /** On a filled row, a cell holds the figure colour exactly where the
      resized pixel below it is figure, and is empty everywhere else. */
  lemma FilledRow(l: Layout, pixel: (int, int) -> int, r: int, c: int)
    requires ValidLayout(l) && UsableRow(l, r) && !SkippedRow(l, r) && 0 <= c < l.cols
    ensures var cell := LayoutGrid(l, pixel)[r][c];
      && (cell == Some(l.fg) <==> IsFigure(pixel(c, r - l.header), l.t, l.figureIsDark, l.invert))
      && (cell == None <==> !IsFigure(pixel(c, r - l.header), l.t, l.figureIsDark, l.invert))
  {
  }

  /** With a normalised figure colour the grid is a rectangle of normalised
      colours, as the editor keeps its grids. */
  lemma LayoutWellFormed(l: Layout, pixel: (int, int) -> int)
    requires ValidLayout(l) && IsCanonicalColor(l.fg)
    ensures var g := LayoutGrid(l, pixel);
      |g| == l.rows && Width(g) == l.cols && Rectangular(g) && Canonical(g)
  {
    var g := LayoutGrid(l, pixel);
    assert |g[0]| == l.cols;
  }

  // ---- the nested loops ----

  /** The grid after the loops have visited every cell before row `r`,
      column `c`: those cells as the layout has them, the rest still
      `None` from the preallocated grid. */
  ghost predicate FilledBefore(l: Layout, pixel: (int, int) -> int, cells: Cells, r: int, c: int) {
    && Shaped(cells, l.rows, l.cols)
    && forall p :: InBounds(l.rows, l.cols, p) ==>
         At(cells, p) == if Before(p, r, c) then LayoutCell(l, pixel, p.r, p.c) else None
  }

  /** Once the loops have passed the usable rows, the grid is the layout. */
  lemma FilledAll(l: Layout, pixel: (int, int) -> int, cells: Cells)
    requires ValidLayout(l)
    requires FilledBefore(l, pixel, cells, l.rows - l.footer, 0)
    ensures cells == LayoutGrid(l, pixel)
  {
    var g := LayoutGrid(l, pixel);
    forall r | 0 <= r < |cells|
      ensures cells[r] == g[r]
    {
      forall c | 0 <= c < |cells[r]|
        ensures cells[r][c] == g[r][c]
      {
        assert InBounds(l.rows, l.cols, Pos(r, c));
      }
    }
  }

  /** Rows above the header are already as the layout has them. */
  lemma FilledStart(l: Layout, pixel: (int, int) -> int)
    requires ValidLayout(l)
    ensures FilledBefore(l, pixel, Blank(l.rows, l.cols), l.header, 0)
  {
  }

  /** The cell loop: fills row `gridR` from column 0 to the last. */
  method FillRow(l: Layout, pixel: (int, int) -> int, cells: Cells, ru: int) returns (out: Cells)
    requires ValidLayout(l) && 0 <= ru < l.rows - l.header - l.footer
    requires FilledBefore(l, pixel, cells, l.header + ru, 0)
    ensures FilledBefore(l, pixel, out, l.header + ru + 1, 0)
  {
    var gridR := l.header + ru;
    var rowNumFromBottom := l.rows - gridR;
    var fillThisRow := true;
    if l.oddRowsOnly && rowNumFromBottom % 2 == 0 {
      fillThisRow := false;
    }
    out := cells;
    var c := 0;
    while c < l.cols
      invariant 0 <= c <= l.cols
      invariant FilledBefore(l, pixel, out, gridR, c)
    {
      var v: Cell;
      if !fillThisRow {
        v := None;
      } else {
        var p := pixel(c, ru);
        var isDark := p < l.t;
        var isFigure := if l.figureIsDark then isDark else !isDark;
        if l.invert {
          isFigure := !isFigure;
        }
        v := if isFigure then Some(l.fg) else None;
      }
      assert v == LayoutCell(l, pixel, gridR, c);
      ShapedHolds(out, l.rows, l.cols, Pos(gridR, c));
      PutKeepsShape(out, Pos(gridR, c), v, l.rows, l.cols);
      out := Put(out, Pos(gridR, c), v);
      c := c + 1;
    }
  }

  /** The row loop of `image_to_grid_json` over the preallocated grid. */
  method FillCells(l: Layout, pixel: (int, int) -> int) returns (cells: Cells)
    requires ValidLayout(l)
    ensures cells == LayoutGrid(l, pixel)
  {
    var usableRows := l.rows - l.header - l.footer;
    cells := Blank(l.rows, l.cols);
    FilledStart(l, pixel);
    var ru := 0;
    while ru < usableRows
      invariant 0 <= ru <= usableRows
      invariant FilledBefore(l, pixel, cells, l.header + ru, 0)
    {
      cells := FillRow(l, pixel, cells, ru);
      ru := ru + 1;
    }
    FilledAll(l, pixel, cells);
  }

  // ---- the converter ----

  /** The `"source"` entry: where the pattern came from and how. */
  function SourceJson(imagePath: string, l: Layout): Json {
    JObj([
      Field("image", JStr(imagePath)),
      Field("threshold", JNum(l.t)),
      Field("figure_is_dark", JBool(l.figureIsDark)),
      Field("invert", JBool(l.invert)),
      Field("header_rows", JNum(l.header)),
      Field("footer_rows", JNum(l.footer)),
      Field("odd_rows_only", JBool(l.oddRowsOnly))
    ])
  }

  /** The dictionary `image_to_grid_json` returns: the editor's saved fields
      followed by the `"source"` entry. */
  function GridObject(imagePath: string, l: Layout, bg: string, cells: Cells): Json {
    JObj(SavedFields(l.rows, l.cols, bg, GridJson(cells)) + [Field("source", SourceJson(imagePath, l))])
  }

  /** `image_to_grid_json`; `thresholdOverride` is `threshold_override`, and
      `otsu` is what `otsu_threshold` gives for the image. */
  method ImageToGridJson(imagePath: string, rows: int, cols: int, header: int, footer: int,
                         bgHex: string, figureHex: string, oddRowsOnly: bool, forceInvert: bool,
                         thresholdOverride: Option<int>, otsu: int,
                         gray: seq<int>, pixel: (int, int) -> int) returns (r: Result<Json, LayoutError>)
    ensures CheckLayout(rows, cols, header, footer).Some? ==>
      r == Err(CheckLayout(rows, cols, header, footer).value)
    ensures CheckLayout(rows, cols, header, footer).None? ==>
      var t := if thresholdOverride.Some? then thresholdOverride.value else otsu;
      var l := Layout(rows, cols, header, footer, oddRowsOnly, t, InferFigureIsDark(gray, t), forceInvert,
                      ColorOr(figureHex, "#000000"));
      r == Ok(GridObject(imagePath, l, ColorOr(bgHex, "#FFFFFF"), LayoutGrid(l, pixel)))
    ensures r.Ok? ==>
      && LoadPattern(r.value).Ok? && LoadPattern(r.value).value.rows == rows
      && LoadPattern(r.value).value.cols == cols && LoadPattern(r.value).value.background == ColorOr(bgHex, "#FFFFFF")
  {
    if rows <= 0 || cols <= 0 {
      return Err(TooSmall);
    }
    if header < 0 || footer < 0 {
      return Err(NegativeMargin);
    }
    if header + footer >= rows {
      return Err(MarginsTooLarge);
    }
    var bg := ColorOr(bgHex, "#FFFFFF");
    var fg := ColorOr(figureHex, "#000000");
    assert IsCanonicalColor(bg) && IsCanonicalColor(fg) by {
      FallbacksCanonical();
    }
    var t := if thresholdOverride.Some? then thresholdOverride.value else otsu;
    var figureIsDark := InferFigureIsDark(gray, t);
    var invert := forceInvert;
    var l := Layout(rows, cols, header, footer, oddRowsOnly, t, figureIsDark, invert, fg);
    var cells := FillCells(l, pixel);
    r := Ok(GridObject(imagePath, l, bg, cells));
    GridObjectLoads(imagePath, l, bg, pixel);
  }

  // ---- loading the result in the editor ----

  /** Fields appended after the first field named `key` do not change what
      `dict.get(key)` finds. */
  lemma {:induction false} GetBeforeExtra(fields: seq<Field>, extra: seq<Field>, key: string)
    requires Get(fields, key).Some?
    ensures Get(fields + extra, key) == Get(fields, key)
    decreases |fields|
  {
    assert (fields + extra)[0] == fields[0];
    if fields[0].key != key {
      assert (fields + extra)[1..] == fields[1..] + extra;
      GetBeforeExtra(fields[1..], extra, key);
    }
  }

  /** The converter's output passes every check of `load_json`. */
  lemma GridObjectHeader(imagePath: string, l: Layout, bg: string, g: Cells)
    requires IsCanonicalColor(bg) && Rectangular(g) && |g| == l.rows && Width(g) == l.cols
    ensures LoadHeader(GridObject(imagePath, l, bg, g)) == Ok(Head(l.rows, l.cols, bg, GridJson(g)))
  {
    var fs := SavedFields(l.rows, l.cols, bg, GridJson(g));
    var extra := [Field("source", SourceJson(imagePath, l))];
    var all := fs + extra;
    SavedFieldsGet(l.rows, l.cols, bg, GridJson(g));
    assert VersionField(all) == Some(2) by {
      GetBeforeExtra(fs, extra, "version");
    }
    assert IntField(all, "rows") == Some(l.rows) by {
      GetBeforeExtra(fs, extra, "rows");
    }
    assert IntField(all, "cols") == Some(l.cols) by {
      GetBeforeExtra(fs, extra, "cols");
    }
    assert Get(all, "cells") == Some(GridJson(g)) by {
      GetBeforeExtra(fs, extra, "cells");
    }
    assert BackgroundField(all) == Some(bg) by {
      GetBeforeExtra(fs, extra, "background");
      CanonicalFixed(bg);
    }
    GridJsonShape(g);
  }

  /** The converter writes a pattern the editor loads: opening it gives
      back the size, the normalised background and exactly the laid-out
      grid. */
  lemma GridObjectLoads(imagePath: string, l: Layout, bg: string, pixel: (int, int) -> int)
    requires ValidLayout(l) && IsCanonicalColor(l.fg) && IsCanonicalColor(bg)
    ensures LoadPattern(GridObject(imagePath, l, bg, LayoutGrid(l, pixel)))
         == Ok(Loaded(l.rows, l.cols, bg, LayoutGrid(l, pixel)))
  {
    var g := LayoutGrid(l, pixel);
    LayoutWellFormed(l, pixel);
    GridObjectHeader(imagePath, l, bg, g);
    SavedCells(g);
  }
}
