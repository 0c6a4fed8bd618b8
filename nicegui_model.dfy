/** The state behind the NiceGUI crochet editor: a grid of cells, the
    background and paint colours, the current tool, and undo/redo history in
    which one mouse stroke is one step. */
module NiceGui {
  import opened Wrappers
  import opened Json
  import opened Hex
  import opened Grid
  import opened UndoHistory

  /** The undo stack never holds more entries than this. */
  const MaxUndo := 50

  /** What undo and redo save and bring back: the cells and the background. */
  datatype Snapshot = Snapshot(grid: Cells, bgColor: string)

  /** The tool a mouse press applies; any other mode name does nothing. */
  datatype Mode = Paint | Erase | Fill | Eyedropper | OtherMode(name: string)

  // ---- undo history as values ----

  /** `push_undo`: append, then drop the oldest entry when over the cap. */
  function Pushed(stack: seq<Snapshot>, snap: Snapshot): (r: seq<Snapshot>)
    ensures |stack| <= MaxUndo ==> |r| <= MaxUndo
    ensures |r| == if |stack| + 1 > MaxUndo then |stack| else |stack| + 1
    ensures r == (stack + [snap])[|stack| + 1 - |r|..]
  {
    var s := stack + [snap];
    if |s| > MaxUndo then s[1..] else s
  }

  /** The history after `end_action` closes an action that began at
      `before`: one undo entry, and no redo, when something changed. */
  function Ended(h: History<Snapshot>, before: Snapshot): (r: History<Snapshot>)
    ensures r.now == h.now
    ensures before == h.now ==> r == h
    ensures before != h.now ==> r.redo == [] && |r.undo| > 0 && r.undo[|r.undo| - 1] == before
    ensures |h.undo| <= MaxUndo ==> |r.undo| <= MaxUndo
  {
    if before == h.now then h else History(h.now, Pushed(h.undo, before), [])
  }

  /** A whole stroke is one undo step: undoing right after an action that
      changed something returns to the state before the action, and redo
      can bring the stroke back. */
  lemma EndedThenUndone(h: History<Snapshot>, before: Snapshot)
    requires before != h.now
    ensures Undone(Ended(h, before)).now == before
    ensures Undone(Ended(h, before)).redo == [h.now]
  {
  }

  // ---- loading a saved pattern ----

  /** Why `load_json_obj` raised. */
  datatype LoadError = BadRows | BadCols | BadBackground | BadGrid | BadCell(r: int, c: int)

  /** `int(obj.get(key, current))`. */
  function IntOr(obj: seq<Field>, key: string, current: int): Option<int> {
    match Get(obj, key)
    case Some(v) => PyInt(v)
    case None => Some(current)
  }

  /** `obj.get("background", obj.get("bg_color", current))`. */
  function BackgroundValue(obj: seq<Field>, current: string): Json {
    match Get(obj, "background")
    case Some(v) => v
    case None =>
      match Get(obj, "bg_color")
      case Some(v) => v
      case None => JStr(current)
  }

  /** `obj.get("cells", obj.get("grid"))`. */
  function GridValue(obj: seq<Field>): Option<Json> {
    match Get(obj, "cells")
    case Some(v) => Some(v)
    case None => Get(obj, "grid")
  }

  /** `normalize_hex(val) if val else None` for one saved cell; `None` when
      it raises. */
  function LoadedCell(val: Json): (r: Option<Cell>)
    ensures !Truthy(val) ==> r == Some(None)
    ensures val.JStr? && val.s != [] ==> r == Some(Some(NormalizeLoose(val.s)))
    ensures Truthy(val) && !val.JStr? ==> r == None
  {
    if !Truthy(val) then Some(None)
    else
      match NormalizeLooseValue(val)
      case Some(h) => Some(Some(h))
      case None => None
  }

  /** What the loaded grid holds at `p`: the saved cell where the saved
      grid has a list row long enough, and nothing elsewhere. */
  function CellFrom(rows: seq<Json>, p: Pos): Option<Cell>
    requires 0 <= p.r && 0 <= p.c
  {
    if p.r < |rows| && rows[p.r].JArr? && p.c < |rows[p.r].items| then LoadedCell(rows[p.r].items[p.c])
    else Some(None)
  }

  // ---- the bucket fill's region ----

  /** The cells in bounds that hold `target`. */
  function Region(g: Cells, rows: int, cols: int, target: Cell): Pos -> bool {
    q => InBounds(rows, cols, q) && Holds(g, q) && At(g, q) == target
  }

  function OpenCells(g: Cells, target: Cell): set<Pos> {
    set r, c | 0 <= r < |g| && 0 <= c < |g[r]| && g[r][c] == target :: Pos(r, c)
  }

  lemma OpenCellsPut(g: Cells, q: Pos, v: Cell, target: Cell)
    requires Holds(g, q) && At(g, q) == target && v != target
    ensures q in OpenCells(g, target)
    ensures OpenCells(Put(g, q, v), target) == OpenCells(g, target) - {q}
  {
    var h := Put(g, q, v);
    forall x | x in OpenCells(h, target)
      ensures x in OpenCells(g, target) - {q}
    {
      assert Holds(h, x) && At(h, x) == target;
    }
    forall x | x in OpenCells(g, target) - {q}
      ensures x in OpenCells(h, target)
    {
      assert Holds(g, x) && At(h, x) == At(g, x);
    }
  }

  /** Painting an open cell with another value closes exactly that cell. */
  lemma RegionAfterPut(g: Cells, rows: int, cols: int, target: Cell, q: Pos, v: Cell)
    requires Holds(g, q) && v != target
    ensures forall x :: Region(Put(g, q, v), rows, cols, target)(x) == (Region(g, rows, cols, target)(x) && x != q)
  {
  }

  /** The four cells `bucket_fill` pushes, in its order. */
  function Neighbours(q: Pos): (r: seq<Pos>)
    ensures forall m :: m in r <==> Adjacent(q, m)
  {
    [Pos(q.r - 1, q.c), Pos(q.r + 1, q.c), Pos(q.r, q.c - 1), Pos(q.r, q.c + 1)]
  }

  /** One painting step of `bucket_fill` keeps the frontier. */
  lemma FillStep(region: Pos -> bool, start: Pos, g: Cells, rows: int, cols: int, target: Cell, v: Cell, stack: seq<Pos>)
    requires stack != [] && Holds(g, stack[|stack| - 1]) && v != target
    requires Frontier(region, start, Region(g, rows, cols, target), stack)
    ensures Frontier(region, start, Region(Put(g, stack[|stack| - 1], v), rows, cols, target),
                     stack[..|stack| - 1] + Neighbours(stack[|stack| - 1]))
  {
    var q := stack[|stack| - 1];
    RegionAfterPut(g, rows, cols, target, q, v);
    FrontierPopFilled(region, start, Region(g, rows, cols, target), Region(Put(g, q, v), rows, cols, target),
                      stack, Neighbours(q));
  }

  /** What `load_json_obj` reads before it changes anything. */
  datatype Header = Header(rows: int, cols: int, bg: string, saved: seq<Json>)

  /** The checks `load_json_obj` makes before it changes anything: `rows`
      and `cols` (defaulting to the current ones) must convert with `int()`,
      the background must normalise, and the grid must be a list. */
  function ReadHeader(obj: seq<Field>, rows: int, cols: int, bg: string): (r: Result<Header, LoadError>)
    ensures r.Err? ==> !r.error.BadCell?
    ensures r.Ok? ==> r.value.bg != [] && r.value.bg[0] == '#'
  {
    var nr := IntOr(obj, "rows", rows);
    var nc := IntOr(obj, "cols", cols);
    var nb := NormalizeLooseValue(BackgroundValue(obj, bg));
    var saved := GridValue(obj);
    if nr.None? then Err(BadRows)
    else if nc.None? then Err(BadCols)
    else if nb.None? then Err(BadBackground)
    else if saved.None? || !saved.value.JArr? then Err(BadGrid)
    else Ok(Header(nr.value, nc.value, nb.value, saved.value.items))
  }

  /** The checks come in order, and each one fails exactly when its value
      does not convert; past them the header holds the converted values. */
  lemma ReadHeaderChecks(obj: seq<Field>, rows: int, cols: int, bg: string)
    ensures var r := ReadHeader(obj, rows, cols, bg);
      && (r == Err(BadRows) <==> IntOr(obj, "rows", rows).None?)
      && (r == Err(BadCols) <==> IntOr(obj, "rows", rows).Some? && IntOr(obj, "cols", cols).None?)
      && (r == Err(BadBackground) <==>
            IntOr(obj, "rows", rows).Some? && IntOr(obj, "cols", cols).Some?
            && NormalizeLooseValue(BackgroundValue(obj, bg)).None?)
      && (r.Ok? <==>
            && IntOr(obj, "rows", rows).Some? && IntOr(obj, "cols", cols).Some?
            && NormalizeLooseValue(BackgroundValue(obj, bg)).Some?
            && GridValue(obj).Some? && GridValue(obj).value.JArr?)
      && (r.Ok? ==>
            && r.value.rows == IntOr(obj, "rows", rows).value && r.value.cols == IntOr(obj, "cols", cols).value
            && r.value.bg == NormalizeLooseValue(BackgroundValue(obj, bg)).value
            && JArr(r.value.saved) == GridValue(obj).value)
  {
  }

  /** A pattern that names only its cells keeps the current size, and the
      current background normalised; the background is never the empty
      text, so the white fallback after `normalize_hex` never applies. */
  lemma ReadHeaderDefaults(obj: seq<Field>, rows: int, cols: int, bg: string, saved: seq<Json>)
    requires obj == [Field("cells", JArr(saved))]
    ensures ReadHeader(obj, rows, cols, bg) == Ok(Header(rows, cols, NormalizeLoose(bg), saved))
  {
    assert obj[0].key == "cells" && obj[1..] == [];
    assert "cells" != "rows" && "cells" != "cols" && "cells" != "background" && "cells" != "bg_color";
    assert Get(obj, "rows") == None && Get(obj, "cols") == None;
    assert Get(obj, "background") == None && Get(obj, "bg_color") == None;
    assert GridValue(obj) == Some(JArr(saved));
  }

  /** `g` is the grid loading `saved` produces: `rows` by `cols`, the saved
      cell where a saved list row covers it and nothing elsewhere.  When the
      load stopped at `stop` (a cell whose value raises), the cells before
      it are loaded and the rest are still empty. */
  ghost predicate LoadedAs(g: Cells, saved: seq<Json>, rows: int, cols: int, stop: Option<Pos>) {
    && Shaped(g, rows, cols)
    && (stop.None? ==> forall p :: InBounds(rows, cols, p) ==> CellFrom(saved, p) == Some(At(g, p)))
    && (stop.Some? ==>
          && InBounds(rows, cols, stop.value) && CellFrom(saved, stop.value).None?
          && (forall p :: InBounds(rows, cols, p) && Before(p, stop.value.r, stop.value.c) ==>
                CellFrom(saved, p) == Some(At(g, p)))
          && (forall p :: InBounds(rows, cols, p) && !Before(p, stop.value.r, stop.value.c) ==> At(g, p) == None))
  }

  /** A grid that loaded completely holds a cell for every position, so no
      position would have stopped it. */
  lemma LoadedAsComplete(g: Cells, saved: seq<Json>, rows: int, cols: int)
    requires LoadedAs(g, saved, rows, cols, None)
    ensures forall p :: InBounds(rows, cols, p) ==> CellFrom(saved, p).Some?
  {
  }

  /** The copying loops of `load_json_obj`: start from an empty grid and
      copy the overlap of `saved` row by row, stopping at the first cell
      whose value raises. */
  method LoadCells(saved: seq<Json>, rows: int, cols: int) returns (g: Cells, stop: Option<Pos>)
    ensures LoadedAs(g, saved, rows, cols, stop)
  {
    g := Blank(rows, cols);
    var last := if rows < |saved| then rows else |saved|;
    var r := 0;
    while r < last
      invariant 0 <= r && (last >= 0 ==> r <= last)
      invariant Shaped(g, rows, cols)
      invariant forall p :: InBounds(rows, cols, p) && Before(p, r, 0) ==> CellFrom(saved, p) == Some(At(g, p))
      invariant forall p :: InBounds(rows, cols, p) && !Before(p, r, 0) ==> At(g, p) == None
    {
      var row := saved[r];
      if !row.JArr? {
        r := r + 1;
        continue;
      }
      var width := if cols < |row.items| then cols else |row.items|;
      var c := 0;
      while c < width
        invariant 0 <= c && (width >= 0 ==> c <= width)
        invariant Shaped(g, rows, cols)
        invariant forall p :: InBounds(rows, cols, p) && Before(p, r, c) ==> CellFrom(saved, p) == Some(At(g, p))
        invariant forall p :: InBounds(rows, cols, p) && !Before(p, r, c) ==> At(g, p) == None
      {
        var cell := LoadedCell(row.items[c]);
        if cell.None? {
          return g, Some(Pos(r, c));
        }
        g := Put(g, Pos(r, c), cell.value);
        c := c + 1;
      }
      r := r + 1;
    }
    return g, None;
  }

  /** Every saved grid in `stack` is `rows` by `cols`. */
  predicate Fit(stack: seq<Snapshot>, rows: int, cols: int) {
    forall s :: s in stack ==> Shaped(s.grid, rows, cols)
  }

  lemma FitPushed(stack: seq<Snapshot>, snap: Snapshot, rows: int, cols: int)
    requires Fit(stack, rows, cols) && Shaped(snap.grid, rows, cols)
    ensures Fit(Pushed(stack, snap), rows, cols)
    ensures Fit(stack + [snap], rows, cols)
  {
    var s := stack + [snap];
    assert forall x :: x in s ==> x in stack || x == snap;
    if |s| > MaxUndo {
      assert forall x :: x in s[1..] ==> x in s;
    }
  }

  lemma FitPop(stack: seq<Snapshot>, rows: int, cols: int)
    requires stack != [] && Fit(stack, rows, cols)
    ensures Fit(stack[..|stack| - 1], rows, cols)
    ensures Shaped(stack[|stack| - 1].grid, rows, cols)
  {
    assert forall x :: x in stack[..|stack| - 1] ==> x in stack;
  }

  /** What the flood fill of `g` from `start` keeps true while it runs on
      `h`: cells outside the target colour are untouched, painted cells are
      connected to the start, and the stack still reaches every unpainted
      connected cell. */
  ghost predicate Flooding(g: Cells, h: Cells, rows: int, cols: int, start: Pos, target: Cell, replacement: string,
                           stack: seq<Pos>)
  {
    var region := Region(g, rows, cols, target);
    && Shaped(g, rows, cols) && Shaped(h, rows, cols)
    && (forall q :: InBounds(rows, cols, q) ==>
          if At(g, q) != target then At(h, q) == At(g, q)
          else At(h, q) == target || (At(h, q) == Some(replacement) && Connected(region, start, q)))
    && Reached(region, start, stack)
    && Frontier(region, start, Region(h, rows, cols, target), stack)
  }

  /** Popping a cell the fill skips keeps `Flooding`. */
  lemma FloodingSkip(g: Cells, h: Cells, rows: int, cols: int, start: Pos, target: Cell, replacement: string,
                     stack: seq<Pos>)
    requires stack != [] && Flooding(g, h, rows, cols, start, target, replacement, stack)
    requires !Region(h, rows, cols, target)(stack[|stack| - 1])
    ensures Flooding(g, h, rows, cols, start, target, replacement, stack[..|stack| - 1])
  {
    FrontierPopClosed(Region(g, rows, cols, target), start, Region(h, rows, cols, target), stack);
    assert forall s :: s in stack[..|stack| - 1] ==> s in stack;
  }

  /** Painting the popped cell and pushing its neighbours keeps `Flooding`. */
  lemma FloodingPaint(g: Cells, h: Cells, rows: int, cols: int, start: Pos, target: Cell, replacement: string,
                      stack: seq<Pos>)
    requires stack != [] && Flooding(g, h, rows, cols, start, target, replacement, stack)
    requires Region(h, rows, cols, target)(stack[|stack| - 1]) && target != Some(replacement)
    ensures var q := stack[|stack| - 1];
            && q in OpenCells(h, target)
            && OpenCells(Put(h, q, Some(replacement)), target) == OpenCells(h, target) - {q}
            && Flooding(g, Put(h, q, Some(replacement)), rows, cols, start, target, replacement,
                        stack[..|stack| - 1] + Neighbours(q))
  {
    var q := stack[|stack| - 1];
    var region := Region(g, rows, cols, target);
    var rest := stack[..|stack| - 1];
    assert q in stack;
    assert At(g, q) == target;
    assert Connected(region, start, q);
    OpenCellsPut(h, q, Some(replacement), target);
    FillStep(region, start, h, rows, cols, target, Some(replacement), stack);
    assert Reached(region, start, rest) by {
      assert forall s :: s in rest ==> s in stack;
    }
    ReachedPush(region, start, rest, q, Neighbours(q));
  }

  /** When the stack is empty, every connected cell has been painted. */
  lemma FloodingDone(g: Cells, h: Cells, rows: int, cols: int, start: Pos, target: Cell, replacement: string)
    requires Flooding(g, h, rows, cols, start, target, replacement, [])
    ensures forall q :: InBounds(rows, cols, q) ==>
      At(h, q) == if Connected(Region(g, rows, cols, target), start, q) then Some(replacement) else At(g, q)
  {
    var region := Region(g, rows, cols, target);
    forall q | InBounds(rows, cols, q) && Connected(region, start, q)
      ensures At(h, q) == Some(replacement)
    {
      ConnectedEnds(region, start, q);
    }
  }

  /** The work-stack loop of `bucket_fill` on the grid `g`: pop a cell;
      skip it when it is out of bounds or no longer holds `target`;
      otherwise paint it and push its four neighbours.  Exactly the cells
      4-connected to `start` through `target` cells come out painted. */
  method FloodFill(g: Cells, rows: int, cols: int, start: Pos, target: Cell, replacement: string) returns (h: Cells)
    requires Shaped(g, rows, cols)
    requires Region(g, rows, cols, target)(start) ==> target != Some(replacement)
    ensures Shaped(h, rows, cols)
    ensures forall q :: InBounds(rows, cols, q) ==>
      At(h, q) == if Connected(Region(g, rows, cols, target), start, q) then Some(replacement) else At(g, q)
  {
    h := g;
    if !InBounds(rows, cols, start) || At(h, start) != target {
      forall q | Connected(Region(g, rows, cols, target), start, q)
        ensures false
      {
        ConnectedEnds(Region(g, rows, cols, target), start, q);
      }
      return;
    }
    ConnectedStart(Region(g, rows, cols, target), start);
    var stack := [start];
    while stack != []
      invariant Flooding(g, h, rows, cols, start, target, replacement, stack)
      decreases |OpenCells(h, target)|, |stack|
    {
      var q := stack[|stack| - 1];
      if !InBounds(rows, cols, q) || At(h, q) != target {
        FloodingSkip(g, h, rows, cols, start, target, replacement, stack);
        stack := stack[..|stack| - 1];
        continue;
      }
      FloodingPaint(g, h, rows, cols, start, target, replacement, stack);
      h := Put(h, q, Some(replacement));
      stack := stack[..|stack| - 1] + Neighbours(q);
    }
    FloodingDone(g, h, rows, cols, start, target, replacement);
  }

  class CrochetModel {
    var rows: int
    var cols: int
    var bgColor: string
    var activeColor: string
    var mode: Mode
    var grid: Cells
    var undoStack: seq<Snapshot>
    var redoStack: seq<Snapshot>
    var pending: Option<Snapshot>

    /** The grid and every saved grid are `rows` by `cols`, and the two
        stacks together hold at most `MaxUndo` entries (so the undo stack
        alone does too). */
    predicate Valid()
      reads this
    {
      && Shaped(grid, rows, cols)
      && Fit(undoStack, rows, cols)
      && Fit(redoStack, rows, cols)
      && (pending.Some? ==> Shaped(pending.value.grid, rows, cols))
      && |undoStack| + |redoStack| <= MaxUndo
    }

    /** `snapshot()`. */
    function TakeSnapshot(): (snap: Snapshot)
      reads this
      ensures snap.grid == grid && snap.bgColor == bgColor
      ensures Valid() ==> Shaped(snap.grid, rows, cols)
    {
      Snapshot(grid, bgColor)
    }

    function CurrentHistory(): History<Snapshot>
      reads this
    {
      History(TakeSnapshot(), undoStack, redoStack)
    }

    /** A new editor: an empty `rows` by `cols` grid on white, painting
        black. */
    constructor(rows: int, cols: int)
      ensures Valid()
      ensures this.rows == rows && this.cols == cols
      ensures grid == Blank(rows, cols)
      ensures bgColor == "#ffffff" && activeColor == "#000000" && mode == Paint
      ensures undoStack == [] && redoStack == [] && pending == None
    {
      this.rows := rows;
      this.cols := cols;
      bgColor := "#ffffff";
      activeColor := "#000000";
      mode := Paint;
      grid := Blank(rows, cols);
      undoStack := [];
      redoStack := [];
      pending := None;
    }

    /** `push_undo(snap)`: the newest `MaxUndo` entries are kept. */
    method PushUndo(snap: Snapshot)
      modifies this
      ensures undoStack == Pushed(old(undoStack), snap)
      ensures rows == old(rows) && cols == old(cols) && bgColor == old(bgColor) && activeColor == old(activeColor)
      ensures mode == old(mode) && grid == old(grid) && redoStack == old(redoStack) && pending == old(pending)
    {
      undoStack := undoStack + [snap];
      if |undoStack| > MaxUndo {
        undoStack := undoStack[1..];
      }
    }

    /** `begin_action()`: remember the state an action starts from, unless
        an action is already open. */
    method BeginAction()
      requires Valid()
      modifies this
      ensures Valid()
      ensures pending == if old(pending).None? then Some(old(TakeSnapshot())) else old(pending)
      ensures rows == old(rows) && cols == old(cols) && bgColor == old(bgColor) && activeColor == old(activeColor)
      ensures mode == old(mode) && grid == old(grid) && undoStack == old(undoStack) && redoStack == old(redoStack)
    {
      if pending.None? {
        pending := Some(TakeSnapshot());
      }
    }

    /** `end_action()`: close the open action; when it changed the grid or
        the background, its starting state becomes one undo entry and redo
        is forgotten. */
    method EndAction()
      requires Valid()
      modifies this
      ensures Valid()
      ensures old(pending).None? ==> pending == None && undoStack == old(undoStack) && redoStack == old(redoStack)
      ensures old(pending).Some? ==> pending == None && CurrentHistory() == Ended(old(CurrentHistory()), old(pending).value)
      ensures rows == old(rows) && cols == old(cols) && bgColor == old(bgColor) && activeColor == old(activeColor)
      ensures mode == old(mode) && grid == old(grid)
    {
      if pending.None? {
        return;
      }
      var before := pending.value;
      var after := TakeSnapshot();
      pending := None;
      if before.grid != after.grid || before.bgColor != after.bgColor {
        PushUndo(before);
        redoStack := [];
      }
    }

    /** `restore(snap)`. */
    method Restore(snap: Snapshot)
      modifies this
      ensures TakeSnapshot() == snap
      ensures rows == old(rows) && cols == old(cols) && activeColor == old(activeColor) && mode == old(mode)
      ensures undoStack == old(undoStack) && redoStack == old(redoStack) && pending == old(pending)
    {
      grid := snap.grid;
      bgColor := snap.bgColor;
    }

    /** `undo()`: false, changing nothing, when there is nothing to undo. */
    method Undo() returns (done: bool)
      requires Valid()
      modifies this
      ensures Valid()
      ensures done == (old(undoStack) != [])
      ensures CurrentHistory() == Undone(old(CurrentHistory()))
      ensures rows == old(rows) && cols == old(cols) && activeColor == old(activeColor) && mode == old(mode)
      ensures pending == old(pending)
    {
      if undoStack == [] {
        return false;
      }
      var current := TakeSnapshot();
      var snap := undoStack[|undoStack| - 1];
      undoStack := undoStack[..|undoStack| - 1];
      redoStack := redoStack + [current];
      Restore(snap);
      return true;
    }

    /** `redo()`: false, changing nothing, when there is nothing to redo. */
    method Redo() returns (done: bool)
      requires Valid()
      modifies this
      ensures Valid()
      ensures done == (old(redoStack) != [])
      ensures CurrentHistory() == Redone(old(CurrentHistory()))
      ensures rows == old(rows) && cols == old(cols) && activeColor == old(activeColor) && mode == old(mode)
      ensures pending == old(pending)
    {
      if redoStack == [] {
        return false;
      }
      var current := TakeSnapshot();
      var snap := redoStack[|redoStack| - 1];
      redoStack := redoStack[..|redoStack| - 1];
      undoStack := undoStack + [current];
      Restore(snap);
      return true;
    }

    /** `bucket_fill(r0, c0, target, replacement)`: paint `replacement` on
        exactly the cells 4-connected to the start through cells holding
        `target`.  The caller must not ask to repaint a region with its own
        colour, for that would never end. */
    method BucketFill(r0: int, c0: int, target: Cell, replacement: string)
      requires Valid()
      requires Region(grid, rows, cols, target)(Pos(r0, c0)) ==> target != Some(replacement)
      modifies this
      ensures Valid()
      ensures rows == old(rows) && cols == old(cols) && bgColor == old(bgColor) && activeColor == old(activeColor)
      ensures mode == old(mode) && undoStack == old(undoStack) && redoStack == old(redoStack) && pending == old(pending)
      ensures forall q :: InBounds(rows, cols, q) ==>
        At(grid, q) == if Connected(Region(old(grid), rows, cols, target), Pos(r0, c0), q) then Some(replacement) else At(old(grid), q)
    {
      grid := FloodFill(grid, rows, cols, Pos(r0, c0), target, replacement);
    }

    /** `apply_tool_at(r, c)`: use the current tool on one cell; true when
        the press did something. */
    method ApplyToolAt(r: int, c: int) returns (changed: bool)
      requires Valid()
      modifies this
      ensures Valid()
      ensures rows == old(rows) && cols == old(cols) && bgColor == old(bgColor) && mode == old(mode)
      ensures undoStack == old(undoStack) && redoStack == old(redoStack) && pending == old(pending)
      ensures !InBounds(rows, cols, Pos(r, c)) ==> !changed && grid == old(grid) && activeColor == old(activeColor)
      ensures InBounds(rows, cols, Pos(r, c)) && mode == Paint ==>
        var paint := Some(NormalizeLoose(old(activeColor)));
        && changed == (At(old(grid), Pos(r, c)) != paint)
        && grid == Put(old(grid), Pos(r, c), paint) && activeColor == old(activeColor)
      ensures InBounds(rows, cols, Pos(r, c)) && mode == Erase ==>
        && changed == (At(old(grid), Pos(r, c)) != None)
        && grid == Put(old(grid), Pos(r, c), None) && activeColor == old(activeColor)
      ensures InBounds(rows, cols, Pos(r, c)) && mode == Eyedropper ==>
        var picked := At(old(grid), Pos(r, c));
        && changed == (picked.Some? && picked.value != [])
        && activeColor == (if changed then picked.value else old(activeColor))
        && grid == old(grid)
      ensures InBounds(rows, cols, Pos(r, c)) && mode == Fill ==>
        var target := At(old(grid), Pos(r, c));
        var paint := NormalizeLoose(old(activeColor));
        && changed == (target != Some(paint))
        && activeColor == old(activeColor)
        && forall q :: InBounds(rows, cols, q) ==>
          At(grid, q) == if changed && Connected(Region(old(grid), rows, cols, target), Pos(r, c), q) then Some(paint) else At(old(grid), q)
      ensures mode.OtherMode? ==> !changed && grid == old(grid) && activeColor == old(activeColor)
    {
      var p := Pos(r, c);
      if !InBounds(rows, cols, p) {
        return false;
      }
      match mode
      case Paint =>
        var paint := Some(NormalizeLoose(activeColor));
        if At(grid, p) != paint {
          grid := Put(grid, p, paint);
          return true;
        }
        PutSame(grid, p);
        return false;
      case Erase =>
        if At(grid, p) != None {
          grid := Put(grid, p, None);
          return true;
        }
        PutSame(grid, p);
        return false;
      case Eyedropper =>
        var picked := At(grid, p);
        if picked.Some? && picked.value != [] {
          activeColor := picked.value;
          return true;
        }
        return false;
      case Fill =>
        var target := At(grid, p);
        var paint := NormalizeLoose(activeColor);
        if target == Some(paint) {
          return false;
        }
        BucketFill(r, c, target, paint);
        return true;
      case OtherMode(_) =>
        return false;
    }

    /** `load_json_obj(obj)`: read a saved pattern in either schema.  Bad
        `rows`, `cols`, background or grid raise before anything changes.
        Otherwise the size and background are replaced and the grid is
        rebuilt from the saved cells; a cell that raises stops the load
        half-way, keeping the history, and a complete load forgets the
        history and any open action. */
    method LoadJsonObj(obj: seq<Field>) returns (err: Option<LoadError>)
      modifies this
      ensures activeColor == old(activeColor) && mode == old(mode)
      ensures ReadHeader(obj, old(rows), old(cols), old(bgColor)).Err? ==>
        && err == Some(ReadHeader(obj, old(rows), old(cols), old(bgColor)).error)
        && rows == old(rows) && cols == old(cols) && bgColor == old(bgColor) && grid == old(grid)
        && undoStack == old(undoStack) && redoStack == old(redoStack) && pending == old(pending)
      ensures ReadHeader(obj, old(rows), old(cols), old(bgColor)).Ok? ==>
        var hd := ReadHeader(obj, old(rows), old(cols), old(bgColor)).value;
        && rows == hd.rows && cols == hd.cols && bgColor == hd.bg
        && (err.None? || err.value.BadCell?)
        && LoadedAs(grid, hd.saved, rows, cols, if err.None? then None else Some(Pos(err.value.r, err.value.c)))
        && (err.None? ==> undoStack == [] && redoStack == [] && pending == None && Valid())
        && (err.Some? ==> undoStack == old(undoStack) && redoStack == old(redoStack) && pending == old(pending))
    {
      var header := ReadHeader(obj, rows, cols, bgColor);
      if header.Err? {
        return Some(header.error);
      }
      var hd := header.value;
      rows, cols := hd.rows, hd.cols;
      bgColor := hd.bg;
      var stop;
      grid, stop := LoadCells(hd.saved, rows, cols);
      if stop.Some? {
        return Some(BadCell(stop.value.r, stop.value.c));
      }
      undoStack := [];
      redoStack := [];
      pending := None;
      return None;
    }
  }
}
