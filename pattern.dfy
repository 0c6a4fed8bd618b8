/** The model behind the Tk crochet pattern editor: a grid of cells painted
    with normalised colours over a background colour, undo and redo of up to
    sixty steps, resizing and clearing, a bucket fill that compares the
    colours cells show, the mapping from canvas pixels to cells, the row and
    column numbers printed around the grid, and loading a saved pattern. */
module TkEditor {
  import opened Wrappers
  import opened Json
  import opened Hex
  import opened Grid
  import opened UndoHistory

  /** `self.max_undo`. */
  const MaxUndo := 60

  // ---- grids ----

  /** `len(g[0]) if g else 0`: the column count the editor reads off a grid. */
  function Width(g: Cells): nat {
    if g == [] then 0 else |g[0]|
  }

  /** Every row is as long as the first. */
  predicate Rectangular(g: Cells) {
    forall r :: 0 <= r < |g| ==> |g[r]| == Width(g)
  }

  /** Every painted cell holds a colour as `normalize_hex` hands it out. */
  predicate Canonical(g: Cells) {
    forall r, c :: 0 <= r < |g| && 0 <= c < |g[r]| && g[r][c].Some? ==> IsCanonicalColor(g[r][c].value)
  }

  /** `h` has the rows and row lengths of `g`. */
  predicate SameShape(g: Cells, h: Cells) {
    |h| == |g| && forall r :: 0 <= r < |g| ==> |h[r]| == |g[r]|
  }

  function Min(a: int, b: int): int {
    if a < b then a else b
  }

  // ---- snapshots and the undo history ----

  /** What `_snapshot` records: the size, the normalised background and a
      copy of the cells. */
  datatype Snap = Snap(rows: int, cols: int, background: string, cells: Cells)

  /** A snapshot of a valid editor: its size is its cells' size, and its
      background and cells are normalised. */
  predicate GoodSnap(s: Snap) {
    && Rectangular(s.cells) && Canonical(s.cells)
    && s.rows == |s.cells| && s.cols == Width(s.cells)
    && IsCanonicalColor(s.background)
  }

  predicate AllGood(stack: seq<Snap>) {
    forall s :: s in stack ==> GoodSnap(s)
  }

  /** `_snapshot()` of the cells `g` under the background text `bgText`. */
  function SnapOf(g: Cells, bgText: string): (s: Snap)
    ensures Rectangular(g) && Canonical(g) ==> GoodSnap(s)
    ensures s.cells == g
  {
    Snap(|g|, Width(g), ColorOr(bgText, "#FFFFFF"), g)
  }

  /** `_restore(s)` followed by `_snapshot()` gives `s` back: restoring sets
      the background to `normalize_hex(s.background) or "#FFFFFF"`, which
      is the saved background itself. */
  lemma SnapOfRestored(s: Snap)
    requires GoodSnap(s)
    ensures ColorOr(s.background, "#FFFFFF") == s.background
    ensures SnapOf(s.cells, ColorOr(s.background, "#FFFFFF")) == s
  {
    CanonicalFixed(s.background);
  }

  /** `stack[-n:]` when the stack is longer than `n`. */
  function Newest(stack: seq<Snap>, n: nat): (r: seq<Snap>)
    ensures |r| == Min(|stack|, n)
    ensures r == stack[|stack| - |r|..]
  {
    if |stack| > n then stack[|stack| - n..] else stack
  }

  /** The history after `_push_undo`: the present goes onto the undo stack,
      only the newest `MaxUndo` entries are kept, and redo is forgotten. */
  function Pushed(h: History<Snap>): History<Snap> {
    History(h.now, Newest(h.undo + [h.now], MaxUndo), [])
  }

  /** A push keeps the present, forgets redo, and leaves the present on top
      of the newest earlier entries, at most `MaxUndo` in all. */
  lemma PushedKeepsNewest(h: History<Snap>)
    ensures var r := Pushed(h);
      && r.now == h.now && r.redo == []
      && |r.undo| == Min(|h.undo| + 1, MaxUndo)
      && r.undo[|r.undo| - 1] == h.now
      && r.undo[..|r.undo| - 1] == h.undo[|h.undo| + 1 - |r.undo|..]
  {
    var r := Pushed(h);
    assert r.undo[..|r.undo| - 1] == h.undo[|h.undo| + 1 - |r.undo|..];
  }

  /** A stroke is one undo step: whatever the present became after the push
      that opened the action, undo brings back the state before it, and redo
      holds only the stroke's result. */
  lemma StrokeIsOneStep(h: History<Snap>, later: Snap)
    ensures var pushed := Pushed(h);
            var undone := Undone(History(later, pushed.undo, pushed.redo));
            undone.now == h.now && undone.redo == [later]
  {
  }

  lemma AllGoodPop(stack: seq<Snap>)
    requires stack != [] && AllGood(stack)
    ensures AllGood(stack[..|stack| - 1]) && GoodSnap(stack[|stack| - 1])
  {
    assert forall s :: s in stack[..|stack| - 1] ==> s in stack;
  }

  lemma AllGoodPush(stack: seq<Snap>, s: Snap)
    requires AllGood(stack) && GoodSnap(s)
    ensures AllGood(stack + [s])
    ensures AllGood(Newest(stack + [s], MaxUndo))
  {
    var t := stack + [s];
    assert forall x :: x in t ==> x in stack || x == s;
    assert forall x :: x in Newest(t, MaxUndo) ==> x in t;
  }

  // ---- resizing ----

  /** What `on_new_grid` puts at `p`: the old cell inside the overlap of the
      old and the new grid, nothing elsewhere. */
  function Kept(prev: Cells, p: Pos): Cell
    requires Rectangular(prev) && 0 <= p.r && 0 <= p.c
  {
    if p.r < |prev| && p.c < Width(prev) then prev[p.r][p.c] else None
  }

  /** The copying loops of `on_new_grid`: a blank `rows` by `cols` grid
      with the overlap of `prev` copied in. */
  method Resized(prev: Cells, rows: int, cols: int) returns (g: Cells)
    requires Rectangular(prev)
    ensures Shaped(g, rows, cols)
    ensures forall p :: InBounds(rows, cols, p) ==> At(g, p) == Kept(prev, p)
  {
    g := Blank(rows, cols);
    var lastR := Min(Size(rows), |prev|);
    var lastC := Min(Size(cols), Width(prev));
    var rr := 0;
    while rr < lastR
      invariant 0 <= rr <= lastR
      invariant Shaped(g, rows, cols)
      invariant forall p :: InBounds(rows, cols, p) ==> At(g, p) == if p.r < rr then Kept(prev, p) else None
    {
      var cc := 0;
      while cc < lastC
        invariant 0 <= cc <= lastC
        invariant Shaped(g, rows, cols)
        invariant forall p :: InBounds(rows, cols, p) ==> At(g, p) == if Before(p, rr, cc) then Kept(prev, p) else None
      {
        g := Put(g, Pos(rr, cc), prev[rr][cc]);
        cc := cc + 1;
      }
      rr := rr + 1;
    }
  }

  /** Every cell of a resized grid holds a cell of the old one or nothing,
      so a resized grid is as well formed as the old one. */
  lemma ResizedWellFormed(prev: Cells, g: Cells, rows: int, cols: int)
    requires Rectangular(prev) && Canonical(prev)
    requires Shaped(g, rows, cols)
    requires forall p :: InBounds(rows, cols, p) ==> At(g, p) == Kept(prev, p)
    ensures Rectangular(g) && Canonical(g)
  {
    forall r, c | 0 <= r < |g| && 0 <= c < |g[r]| && g[r][c].Some?
      ensures IsCanonicalColor(g[r][c].value)
    {
      assert At(g, Pos(r, c)) == Kept(prev, Pos(r, c));
    }
  }

  /** The loops of `on_clear`: every cell of every row set to nothing. */
  method Cleared(g: Cells) returns (h: Cells)
    requires Rectangular(g)
    ensures h == Blank(|g|, Width(g))
  {
    h := g;
    ghost var n, w := |g|, Width(g);
    var r := 0;
    while r < |h|
      invariant 0 <= r <= n && Shaped(h, n, w)
      invariant forall p :: InBounds(n, w, p) && p.r < r ==> At(h, p) == None
    {
      var c := 0;
      while c < |h[0]|
        invariant 0 <= c <= w && Shaped(h, n, w)
        invariant forall p :: InBounds(n, w, p) && Before(p, r, c) ==> At(h, p) == None
      {
        h := Put(h, Pos(r, c), None);
        c := c + 1;
      }
      r := r + 1;
    }
    BlankUnique(h, n, w);
  }

  // ---- the bucket fill ----

  /** `_get_cell_color`: the colour a cell shows, its own or else `bg`, the
      normalised background `normalize_hex(bg_color) or "#FFFFFF"`. */
  function Effective(cell: Cell, bg: string): (r: string)
    ensures cell.Some? && cell.value != [] ==> r == cell.value
    ensures (cell.None? || cell.value == []) ==> r == bg
  {
    if cell.Some? && cell.value != [] then cell.value else bg
  }

  /** `new_color or bg`: the colour the fill paints. */
  function Replacement(newColor: string, bg: string): string {
    if newColor != [] then newColor else bg
  }

  /** What the fill writes: nothing where the replacement is the background
      colour, so that the cell shows the replacement either way. */
  function Stored(replacement: string, bg: string): (r: Cell)
    ensures replacement != [] ==> Effective(r, bg) == replacement
    ensures r.Some? ==> r.value == replacement
  {
    if replacement == bg then None else Some(replacement)
  }

  /** The cells of `g` that show `target`. */
  function Matching(g: Cells, bg: string, target: string): Pos -> bool {
    q => Holds(g, q) && Effective(At(g, q), bg) == target
  }

  function AllPos(g: Cells): set<Pos> {
    set r, c | 0 <= r < |g| && 0 <= c < |g[r]| :: Pos(r, c)
  }

  /** The neighbours `_bucket_fill` pushes, in its order: above, below, left,
      right, each only when it lies on the grid. */
  function Pushes(q: Pos, rows: int, cols: int): (r: seq<Pos>)
    requires InBounds(rows, cols, q)
    ensures forall m :: m in r <==> Adjacent(q, m) && InBounds(rows, cols, m)
  {
    (if q.r > 0 then [Pos(q.r - 1, q.c)] else [])
    + (if q.r < rows - 1 then [Pos(q.r + 1, q.c)] else [])
    + (if q.c > 0 then [Pos(q.r, q.c - 1)] else [])
    + (if q.c < cols - 1 then [Pos(q.r, q.c + 1)] else [])
  }

  /** Painting one cell with a value that does not show `target` takes
      exactly that cell out of the matching cells. */
  lemma MatchingAfterPut(h: Cells, bg: string, target: string, q: Pos, v: Cell)
    requires Holds(h, q) && Effective(v, bg) != target
    ensures forall x :: Matching(Put(h, q, v), bg, target)(x) == (Matching(h, bg, target)(x) && x != q)
  {
  }

  /** What the fill of `g` from `start` keeps true while it runs on `h`:
      every cell is unchanged or holds `stored` and is connected to the start
      through cells showing `target`; the stack stays on the grid; no cell
      already seen still shows `target`; and the stack still reaches every
      connected cell that shows it. */
  ghost predicate Filling(g: Cells, h: Cells, bg: string, start: Pos, target: string, stored: Cell,
                          stack: seq<Pos>, seen: set<Pos>)
  {
    var region := Matching(g, bg, target);
    && Rectangular(g) && SameShape(g, h)
    && (forall q :: Holds(g, q) ==> At(h, q) == At(g, q) || (At(h, q) == stored && Connected(region, start, q)))
    && (forall q :: q in stack ==> Holds(g, q))
    && (forall q :: q in seen ==> Holds(g, q) && !Matching(h, bg, target)(q))
    && Reached(region, start, stack)
    && Frontier(region, start, Matching(h, bg, target), stack)
  }

  /** The fill starts with nothing seen and only the start on the stack. */
  lemma FillingStart(g: Cells, bg: string, start: Pos, target: string, stored: Cell)
    requires Rectangular(g) && Holds(g, start) && target == Effective(At(g, start), bg)
    ensures Filling(g, g, bg, start, target, stored, [start], {})
  {
    var region := Matching(g, bg, target);
    ConnectedStart(region, start);
    assert Frontier(region, start, region, [start]) by {
      assert start in [start];
    }
  }

  /** Popping a cell already seen keeps `Filling`. */
  lemma FillingSeen(g: Cells, h: Cells, bg: string, start: Pos, target: string, stored: Cell,
                    stack: seq<Pos>, seen: set<Pos>)
    requires stack != [] && stack[|stack| - 1] in seen
    requires Filling(g, h, bg, start, target, stored, stack, seen)
    ensures Filling(g, h, bg, start, target, stored, stack[..|stack| - 1], seen)
  {
    FrontierPopClosed(Matching(g, bg, target), start, Matching(h, bg, target), stack);
    PopKeeps(stack);
  }

  /** Popping an unseen cell that does not show `target` marks it seen and
      keeps `Filling`. */
  lemma FillingSkip(g: Cells, h: Cells, bg: string, start: Pos, target: string, stored: Cell,
                    stack: seq<Pos>, seen: set<Pos>)
    requires stack != [] && !Matching(h, bg, target)(stack[|stack| - 1])
    requires Filling(g, h, bg, start, target, stored, stack, seen)
    ensures Filling(g, h, bg, start, target, stored, stack[..|stack| - 1], seen + {stack[|stack| - 1]})
  {
    FrontierPopClosed(Matching(g, bg, target), start, Matching(h, bg, target), stack);
    PopKeeps(stack);
    assert stack[|stack| - 1] in stack;
  }

  /** Painting a popped cell that shows `target` and pushing its neighbours
      keeps `Filling`. */
  lemma FillingPaint(g: Cells, h: Cells, bg: string, start: Pos, target: string, stored: Cell,
                     stack: seq<Pos>, seen: set<Pos>)
    requires stack != [] && Matching(h, bg, target)(stack[|stack| - 1])
    requires Effective(stored, bg) != target
    requires Filling(g, h, bg, start, target, stored, stack, seen)
    ensures var q := stack[|stack| - 1];
            InBounds(|g|, Width(g), q)
            && Filling(g, Put(h, q, stored), bg, start, target, stored,
                       stack[..|stack| - 1] + Pushes(q, |g|, Width(g)), seen + {q})
  {
    var q := stack[|stack| - 1];
    var region := Matching(g, bg, target);
    var h' := Put(h, q, stored);
    var next := stack[..|stack| - 1] + Pushes(q, |g|, Width(g));
    PaintKeepsReach(g, h, bg, start, target, stored, stack, seen);
    assert forall x :: Holds(g, x) ==> At(h', x) == At(g, x) || (At(h', x) == stored && Connected(region, start, x));
    assert forall x :: x in seen + {q} ==> Holds(g, x) && !Matching(h', bg, target)(x);
    FillingIntro(g, h', bg, start, target, stored, next, seen + {q});
  }

  /** `Filling` from its parts. */
  lemma FillingIntro(g: Cells, h: Cells, bg: string, start: Pos, target: string, stored: Cell,
                     stack: seq<Pos>, seen: set<Pos>)
    requires Rectangular(g) && SameShape(g, h)
    requires forall q :: Holds(g, q) ==> At(h, q) == At(g, q) || (At(h, q) == stored && Connected(Matching(g, bg, target), start, q))
    requires forall q :: q in stack ==> Holds(g, q)
    requires forall q :: q in seen ==> Holds(g, q) && !Matching(h, bg, target)(q)
    requires Reached(Matching(g, bg, target), start, stack)
    requires Frontier(Matching(g, bg, target), start, Matching(h, bg, target), stack)
    ensures Filling(g, h, bg, start, target, stored, stack, seen)
  {
  }

  /** The stack part of `FillingPaint`: the painted cell is reached, and the
      shorter stack with its neighbours pushed still reaches every
      connected cell that shows `target`. */
  lemma PaintKeepsReach(g: Cells, h: Cells, bg: string, start: Pos, target: string, stored: Cell,
                        stack: seq<Pos>, seen: set<Pos>)
    requires stack != [] && Matching(h, bg, target)(stack[|stack| - 1])
    requires Effective(stored, bg) != target
    requires Filling(g, h, bg, start, target, stored, stack, seen)
    ensures var q := stack[|stack| - 1];
            var region := Matching(g, bg, target);
            var next := stack[..|stack| - 1] + Pushes(q, |g|, Width(g));
            && InBounds(|g|, Width(g), q) && Connected(region, start, q)
            && (forall x :: Matching(Put(h, q, stored), bg, target)(x) == (Matching(h, bg, target)(x) && x != q))
            && (forall s :: s in next ==> Holds(g, s))
            && Reached(region, start, next)
            && Frontier(region, start, Matching(Put(h, q, stored), bg, target), next)
  {
    var q := stack[|stack| - 1];
    var rest := stack[..|stack| - 1];
    var region := Matching(g, bg, target);
    var h' := Put(h, q, stored);
    var pushed := Pushes(q, |g|, Width(g));
    assert q in stack;
    assert At(h, q) == At(g, q);
    MatchingAfterPut(h, bg, target, q, stored);
    FrontierPopFilled(region, start, Matching(h, bg, target), Matching(h', bg, target), stack, pushed);
    PopKeeps(stack);
    ReachedPush(region, start, rest, q, pushed);
  }


  /** With the stack empty, the cells connected to the start hold `stored`
      and all others are unchanged. */
  lemma FillingDone(g: Cells, h: Cells, bg: string, start: Pos, target: string, stored: Cell, seen: set<Pos>)
    requires Effective(stored, bg) != target
    requires Filling(g, h, bg, start, target, stored, [], seen)
    ensures forall q :: Holds(g, q) ==>
      At(h, q) == if Connected(Matching(g, bg, target), start, q) then stored else At(g, q)
  {
    var region := Matching(g, bg, target);
    forall q | Holds(g, q) && Connected(region, start, q)
      ensures At(h, q) == stored
    {
      ConnectedEnds(region, start, q);
    }
  }

  /** Marking an unseen cell of the grid seen leaves fewer cells unseen. */
  lemma SeenShrinks(g: Cells, seen: set<Pos>, q: Pos)
    requires Holds(g, q) && q !in seen
    ensures |AllPos(g) - (seen + {q})| < |AllPos(g) - seen|
  {
    var all := AllPos(g);
    assert q in all - seen;
    assert all - (seen + {q}) == (all - seen) - {q};
  }

  /** The work-stack loop of `_bucket_fill`: pop a cell; skip it when seen,
      else mark it seen; skip it when it does not show `target`; otherwise
      store the replacement and push its neighbours on the grid.  Exactly the
      cells 4-connected to the start through cells showing `target` end up
      showing the replacement. */
  method FillEffective(g: Cells, bg: string, start: Pos, target: string, replacement: string) returns (h: Cells)
    requires Rectangular(g) && Holds(g, start)
    requires target == Effective(At(g, start), bg) && target != replacement && replacement != []
    ensures SameShape(g, h)
    ensures forall q :: Holds(g, q) ==>
      At(h, q) == if Connected(Matching(g, bg, target), start, q) then Stored(replacement, bg) else At(g, q)
  {
    var rcount, ccount := |g|, Width(g);
    ghost var stored := Stored(replacement, bg);
    h := g;
    var stack := [start];
    var seen: set<Pos> := {};
    FillingStart(g, bg, start, target, stored);
    ghost var all := AllPos(g);
    while stack != []
      invariant Filling(g, h, bg, start, target, stored, stack, seen)
      decreases |all - seen|, |stack|
    {
      var q := stack[|stack| - 1];
      if q in seen {
        FillingSeen(g, h, bg, start, target, stored, stack, seen);
        stack := stack[..|stack| - 1];
        continue;
      }
      assert |all - (seen + {q})| < |all - seen| by {
        assert q in stack;
        SeenShrinks(g, seen, q);
      }
      if Effective(At(h, q), bg) != target {
        FillingSkip(g, h, bg, start, target, stored, stack, seen);
        stack := stack[..|stack| - 1];
        seen := seen + {q};
        continue;
      }
      FillingPaint(g, h, bg, start, target, stored, stack, seen);
      stack := stack[..|stack| - 1];
      seen := seen + {q};
      h := Put(h, q, if replacement == bg then None else Some(replacement));
      stack := stack + Pushes(q, rcount, ccount);
    }
    FillingDone(g, h, bg, start, target, stored, seen);
  }

  /** A fill with a normalised colour leaves every painted cell normalised. */
  lemma FillKeepsCanonical(g: Cells, h: Cells, stored: Cell)
    requires Canonical(g) && SameShape(g, h)
    requires stored.None? || IsCanonicalColor(stored.value)
    requires forall q :: Holds(g, q) ==> At(h, q) == At(g, q) || At(h, q) == stored
    ensures Canonical(h)
  {
    forall r, c | 0 <= r < |h| && 0 <= c < |h[r]| && h[r][c].Some?
      ensures IsCanonicalColor(h[r][c].value)
    {
      assert Holds(g, Pos(r, c));
    }
  }

  // ---- canvas coordinates and numbering ----

  /** The square `redraw` paints for cell `p` when the grid starts at
      `(x0, y0)` and cells are `cell` pixels wide holds the point `(x, y)`. */
  predicate InSquare(x: int, y: int, x0: int, y0: int, cell: int, p: Pos) {
    && x0 + p.c * cell <= x < x0 + p.c * cell + cell
    && y0 + p.r * cell <= y < y0 + p.r * cell + cell
  }

  /** Floor division by a positive cell size stays below `n` exactly when
      the dividend stays below `n` cells. */
  lemma DivBelow(a: int, d: int, n: int)
    requires a >= 0 && d > 0
    ensures a / d < n <==> a < n * d
    ensures (a / d) * d <= a < (a / d) * d + d
  {
    var q := a / d;
    assert a == d * q + a % d;
    if q < n {
      assert d * q + d == d * (q + 1) <= d * n;
    } else {
      assert d * q >= d * n;
    }
  }

  /** `list(range(1, n + 1))`. */
  function Ascending(n: nat): (r: seq<int>)
    ensures |r| == n
  {
    seq(n, i => i + 1)
  }

  /** `list(range(n, 0, -1))`. */
  function Descending(n: nat): (r: seq<int>)
    ensures |r| == n
  {
    seq(n, i => n - i)
  }

  /** The numbers `1..|s|`, each exactly once. */
  predicate IsNumbering(s: seq<int>) {
    && (forall i :: 0 <= i < |s| ==> 1 <= s[i] <= |s|)
    && (forall i, j :: 0 <= i < j < |s| ==> s[i] != s[j])
    && (forall k :: 1 <= k <= |s| ==> k in s)
  }

  /** `_get_numbering_maps`: row labels `1..rows` (placed bottom to top),
      and column labels `1..cols` left to right from the bottom-left origin,
      `cols..1` otherwise. */
  function NumberingMaps(g: Cells, origin: string): (maps: (seq<int>, seq<int>))
    ensures |maps.0| == |g| && |maps.1| == Width(g)
  {
    (Ascending(|g|), if origin == "bottom_left" then Ascending(Width(g)) else Descending(Width(g)))
  }

  /** Both label lists number their rows or columns `1..n`, each once; row
      labels and bottom-left column labels count up, the others count down. */
  lemma NumberingMapsArePermutations(g: Cells, origin: string)
    ensures IsNumbering(NumberingMaps(g, origin).0) && IsNumbering(NumberingMaps(g, origin).1)
    ensures forall i :: 0 <= i < |g| ==> NumberingMaps(g, origin).0[i] == i + 1
    ensures origin == "bottom_left" ==> forall i :: 0 <= i < Width(g) ==> NumberingMaps(g, origin).1[i] == i + 1
    ensures origin != "bottom_left" ==> forall i :: 0 <= i < Width(g) ==> NumberingMaps(g, origin).1[i] == Width(g) - i
  {
    AscendingIsNumbering(|g|);
    AscendingIsNumbering(Width(g));
    DescendingIsNumbering(Width(g));
  }

  lemma AscendingIsNumbering(n: nat)
    ensures IsNumbering(Ascending(n))
  {
    var s := Ascending(n);
    forall k | 1 <= k <= n
      ensures k in s
    {
      assert s[k - 1] == k;
    }
  }

  lemma DescendingIsNumbering(n: nat)
    ensures IsNumbering(Descending(n))
  {
    var s := Descending(n);
    forall k | 1 <= k <= n
      ensures k in s
    {
      assert s[n - k] == k;
    }
  }

  /** The row and column numbers the status line shows for cell `p`: the
      top row is the highest row number, and columns count from the
      origin's side. */
  function MotionNumbers(g: Cells, origin: string, p: Pos): (n: (int, int))
    ensures InBounds(|g|, Width(g), p) ==> 1 <= n.0 <= |g| && 1 <= n.1 <= Width(g)
    ensures n.0 == 1 <==> p.r == |g| - 1
  {
    (|g| - p.r, if origin == "bottom_left" then p.c + 1 else Width(g) - p.c)
  }

  /** The status line agrees with the labels drawn beside the grid: row `r`
      carries `row_nums[rows - 1 - r]` and column `c` carries `col_nums[c]`. */
  lemma MotionMatchesLabels(g: Cells, origin: string, p: Pos)
    requires InBounds(|g|, Width(g), p)
    ensures MotionNumbers(g, origin, p).0 == NumberingMaps(g, origin).0[|g| - 1 - p.r]
    ensures MotionNumbers(g, origin, p).1 == NumberingMaps(g, origin).1[p.c]
  {
  }

  // ---- saving and loading ----

  /** Why `load_json` fails; it changes nothing when it does. */
  datatype LoadFailure = NotAnObject | BadVersion | BadRows | BadCols | BadBackground | NoCells | BadShape | BadCell

  /** What `load_json` has read once its checks pass. */
  datatype Head = Head(rows: int, cols: int, background: string, cells: Json)

  /** `int(obj.get("version", 1))`; `None` where `int` raises. */
  function VersionField(fields: seq<Field>): Option<int> {
    match Get(fields, "version")
    case None => Some(1)
    case Some(v) => PyInt(v)
  }

  /** `int(obj[key])`; `None` where the key is missing or `int` raises. */
  function IntField(fields: seq<Field>, key: string): Option<int> {
    match Get(fields, key)
    case None => None
    case Some(v) => PyInt(v)
  }

  /** `normalize_hex(obj.get("background", "#FFFFFF")) or "#FFFFFF"`;
      `None` where `normalize_hex` raises. */
  function BackgroundField(fields: seq<Field>): (r: Option<string>)
    ensures r.Some? ==> IsCanonicalColor(r.value)
  {
    var v := if Get(fields, "background").Some? then Get(fields, "background").value else JStr("#FFFFFF");
    if v.JStr? then Some(ColorOr(v.s, "#FFFFFF"))
    else if Truthy(v) then None
    else Some("#FFFFFF")
  }

  /** The items `for row in v` visits: list elements, the one-character
      strings of a string, or the keys of a dict; `None` where `v` has no
      `len`. */
  function Rows(v: Json): (r: Option<seq<Json>>)
    ensures r.Some? <==> PyLen(v).Some?
    ensures r.Some? ==> |r.value| == PyLen(v).value
  {
    match v
    case JArr(xs) => Some(xs)
    case JStr(s) => Some(seq(|s|, i requires 0 <= i < |s| => JStr([s[i]])))
    case JObj(fs) => Some(seq(|fs|, i requires 0 <= i < |fs| => JStr(fs[i].key)))
    case _ => None
  }

  /** `len(cells) == rows` and every row has `len(row) == cols`. */
  predicate ShapeMatches(cells: Json, rows: int, cols: int) {
    match Rows(cells)
    case None => false
    case Some(rs) => |rs| == rows && forall i :: 0 <= i < |rs| ==> PyLen(rs[i]).Some? && PyLen(rs[i]).value == cols
  }

  /** The checks `load_json` makes before it converts any cell. */
  function LoadHeader(obj: Json): Result<Head, LoadFailure> {
    if !obj.JObj? then Err(NotAnObject)
    else
      var fs := obj.fields;
      var ver := VersionField(fs);
      if ver.None? || (ver.value != 1 && ver.value != 2) then Err(BadVersion)
      else if IntField(fs, "rows").None? then Err(BadRows)
      else if IntField(fs, "cols").None? then Err(BadCols)
      else if BackgroundField(fs).None? then Err(BadBackground)
      else if Get(fs, "cells").None? then Err(NoCells)
      else
        var rows := IntField(fs, "rows").value;
        var cols := IntField(fs, "cols").value;
        var cells := Get(fs, "cells").value;
        if !ShapeMatches(cells, rows, cols) then Err(BadShape)
        else Ok(Head(rows, cols, BackgroundField(fs).value, cells))
  }

  /** `load_json` accepts only versions 1 and 2 (1 when the version is
      missing) and only cells whose shape is exactly `rows` by `cols`;
      whatever passes carries the converted size and background. */
  lemma LoadHeaderChecks(obj: Json)
    ensures var r := LoadHeader(obj);
      && (r == Err(NotAnObject) <==> !obj.JObj?)
      && (obj.JObj? ==>
            && (r == Err(BadVersion) <==> VersionField(obj.fields) != Some(1) && VersionField(obj.fields) != Some(2))
            && (r.Ok? <==>
                  && (VersionField(obj.fields) == Some(1) || VersionField(obj.fields) == Some(2))
                  && IntField(obj.fields, "rows").Some? && IntField(obj.fields, "cols").Some?
                  && BackgroundField(obj.fields).Some? && Get(obj.fields, "cells").Some?
                  && ShapeMatches(Get(obj.fields, "cells").value, IntField(obj.fields, "rows").value,
                                  IntField(obj.fields, "cols").value))
            && (r.Ok? ==>
                  && r.value.rows == IntField(obj.fields, "rows").value
                  && r.value.cols == IntField(obj.fields, "cols").value
                  && r.value.background == BackgroundField(obj.fields).value
                  && r.value.cells == Get(obj.fields, "cells").value))
  {
    if obj.JObj? {
      var fs := obj.fields;
      var ver := VersionField(fs);
      var rows := IntField(fs, "rows");
      var cols := IntField(fs, "cols");
      var bg := BackgroundField(fs);
      var cells := Get(fs, "cells");
      if ver.None? || (ver.value != 1 && ver.value != 2) {
        assert LoadHeader(obj) == Err(BadVersion);
      } else if rows.None? || cols.None? || bg.None? || cells.None? {
        assert LoadHeader(obj).Err? && LoadHeader(obj) != Err(BadVersion);
      } else if !ShapeMatches(cells.value, rows.value, cols.value) {
        assert LoadHeader(obj) == Err(BadShape);
      } else {
        assert LoadHeader(obj) == Ok(Head(rows.value, cols.value, bg.value, cells.value));
      }
    }
  }

  /** One saved cell: `None` stays empty, anything else goes through
      `normalize_hex` and a colour it rejects becomes empty; `None` where
      `normalize_hex` raises. */
  function CellOf(v: Json): (r: Option<Cell>)
    ensures v == JNull ==> r == Some(None)
    ensures v.JStr? ==> r == Some(NormalizeStrict(v.s))
    ensures !v.JStr? && !v.JNull? ==> (r.None? <==> Truthy(v)) && (r.Some? ==> r.value == None)
    ensures r.Some? && r.value.Some? ==> IsCanonicalColor(r.value.value)
  {
    if v.JNull? then Some(None) else NormalizeStrictValue(v)
  }

  /** `cells[r][c]` converted; `None` where indexing or `normalize_hex`
      raises. */
  function CellAt(cells: Json, p: Pos): Option<Cell> {
    match PyIndex(cells, p.r)
    case None => None
    case Some(row) =>
      match PyIndex(row, p.c)
      case None => None
      case Some(v) => CellOf(v)
  }

  /** `CellAt` as a function of the position, the conversion the loops of
      `load_json` apply to each cell in turn. */
  function CellsAt(cells: Json): Pos -> Option<Cell> {
    p => CellAt(cells, p)
  }

  /** The first `n` cells of row `r`, each converted by `at` as the inner
      loop of `load_json` converts them; `None` once one of them raises. */
  function ConvertedRow(at: Pos -> Option<Cell>, r: int, n: nat): Option<seq<Cell>> {
    if n == 0 then Some([])
    else
      match ConvertedRow(at, r, n - 1)
      case None => None
      case Some(prefix) =>
        match at(Pos(r, n - 1))
        case None => None
        case Some(cell) => Some(prefix + [cell])
  }

  /** The first `n` rows of `cols` cells, converted as the outer loop of
      `load_json` converts them. */
  function ConvertedRows(at: Pos -> Option<Cell>, n: nat, cols: int): Option<Cells> {
    if n == 0 then Some([])
    else
      match ConvertedRows(at, n - 1, cols)
      case None => None
      case Some(prefix) =>
        match ConvertedRow(at, n - 1, Size(cols))
        case None => None
        case Some(row) => Some(prefix + [row])
  }

  /** A row converts exactly when each of its cells does, and then holds
      each converted cell in its place. */
  lemma {:induction false} ConvertedRowCells(at: Pos -> Option<Cell>, r: int, n: nat)
    ensures ConvertedRow(at, r, n).Some? <==> forall c :: 0 <= c < n ==> at(Pos(r, c)).Some?
    ensures ConvertedRow(at, r, n).Some? ==>
      && |ConvertedRow(at, r, n).value| == n
      && forall c :: 0 <= c < n ==> at(Pos(r, c)) == Some(ConvertedRow(at, r, n).value[c])
  {
    if n > 0 {
      ConvertedRowCells(at, r, n - 1);
    }
  }

  /** The rows convert exactly when every cell does, and then form an `n`
      by `cols` grid holding each converted cell in its place. */
  lemma {:induction false} ConvertedRowsCells(at: Pos -> Option<Cell>, n: nat, cols: int)
    ensures ConvertedRows(at, n, cols).Some? <==>
      forall p :: InBounds(n, cols, p) ==> at(p).Some?
    ensures ConvertedRows(at, n, cols).Some? ==>
      && Shaped(ConvertedRows(at, n, cols).value, n, cols)
      && forall p :: InBounds(n, cols, p) ==> at(p) == Some(At(ConvertedRows(at, n, cols).value, p))
  {
    if n > 0 {
      ConvertedRowsCells(at, n - 1, cols);
      ConvertedRowCells(at, n - 1, Size(cols));
      if ConvertedRows(at, n, cols).None? && ConvertedRows(at, n - 1, cols).Some? {
        var c :| 0 <= c < Size(cols) && at(Pos(n - 1, c)).None?;
        assert InBounds(n, cols, Pos(n - 1, c));
      }
    }
  }

  /** A conversion that has failed stays failed as the loops go on. */
  lemma {:induction false} ConvertedRowFails(at: Pos -> Option<Cell>, r: int, k: nat, n: nat)
    requires k <= n && ConvertedRow(at, r, k).None?
    ensures ConvertedRow(at, r, n).None?
    decreases n
  {
    if k < n {
      ConvertedRowFails(at, r, k, n - 1);
    }
  }

  lemma {:induction false} ConvertedRowsFail(at: Pos -> Option<Cell>, k: nat, n: nat, cols: int)
    requires k <= n && ConvertedRows(at, k, cols).None?
    ensures ConvertedRows(at, n, cols).None?
    decreases n
  {
    if k < n {
      ConvertedRowsFail(at, k, n - 1, cols);
    }
  }

  /** What `load_json` loads: the header, then every cell converted. */
  datatype Loaded = Loaded(rows: int, cols: int, background: string, cells: Cells)

  function LoadPattern(obj: Json): (r: Result<Loaded, LoadFailure>)
    ensures LoadHeader(obj).Err? ==> r == Err(LoadHeader(obj).error)
    ensures LoadHeader(obj).Ok? && r.Err? ==> r.error == BadCell
    ensures r.Ok? ==> var hd := LoadHeader(obj).value;
      r.value.rows == hd.rows && r.value.cols == hd.cols && r.value.background == hd.background
  {
    match LoadHeader(obj)
    case Err(e) => Err(e)
    case Ok(hd) =>
      match ConvertedRows(CellsAt(hd.cells), Size(hd.rows), hd.cols)
      case None => Err(BadCell)
      case Some(g) => Ok(Loaded(hd.rows, hd.cols, hd.background, g))
  }

  /** A loaded pattern is `rows` by `cols`, rectangular, and holds only
      normalised colours on a normalised background, each cell the
      conversion of the saved one; a cell that raises fails the whole load. */
  lemma LoadedWellFormed(obj: Json)
    ensures LoadPattern(obj).Ok? ==>
      var l := LoadPattern(obj).value;
      && Shaped(l.cells, l.rows, l.cols) && l.rows == |l.cells|
      && Rectangular(l.cells) && Canonical(l.cells) && IsCanonicalColor(l.background)
      && forall p :: InBounds(l.rows, l.cols, p) ==> CellAt(LoadHeader(obj).value.cells, p) == Some(At(l.cells, p))
    ensures LoadHeader(obj).Ok? ==>
      (LoadPattern(obj) == Err(BadCell) <==>
        exists p :: InBounds(LoadHeader(obj).value.rows, LoadHeader(obj).value.cols, p) &&
          CellAt(LoadHeader(obj).value.cells, p).None?)
  {
    if LoadHeader(obj).Ok? {
      var hd := LoadHeader(obj).value;
      var at := CellsAt(hd.cells);
      ConvertedRowsCells(at, Size(hd.rows), hd.cols);
      if LoadPattern(obj).Ok? {
        assert hd.rows >= 0 by {
          assert ShapeMatches(hd.cells, hd.rows, hd.cols);
        }
        CellsAtCanonical(hd.cells);
        ConvertedRowsCanonical(at, Size(hd.rows), hd.cols);
      }
    }
  }

  /** Every colour a saved cell converts to is normalised. */
  lemma CellsAtCanonical(cells: Json)
    ensures forall p :: CellsAt(cells)(p).Some? && CellsAt(cells)(p).value.Some? ==>
      IsCanonicalColor(CellsAt(cells)(p).value.value)
  {
  }

  /** Cells that convert to normalised colours make a rectangular grid of
      normalised colours. */
  lemma ConvertedRowsCanonical(at: Pos -> Option<Cell>, n: nat, cols: int)
    requires forall p :: at(p).Some? && at(p).value.Some? ==> IsCanonicalColor(at(p).value.value)
    requires ConvertedRows(at, n, cols).Some?
    ensures Rectangular(ConvertedRows(at, n, cols).value) && Canonical(ConvertedRows(at, n, cols).value)
  {
    ConvertedRowsCells(at, n, cols);
    var g: Cells := ConvertedRows(at, n, cols).value;
    forall r, c | 0 <= r < |g| && 0 <= c < |g[r]| && g[r][c].Some?
      ensures IsCanonicalColor(g[r][c].value)
    {
      assert InBounds(n, cols, Pos(r, c));
      assert at(Pos(r, c)) == Some(g[r][c]);
    }
  }

  /** The loops of `load_json` that convert the cells row by row, each
      cell by `at` (`CellsAt` of the saved cells); `None` as soon as a cell
      raises. */
  method NormalizeCells(at: Pos -> Option<Cell>, rows: int, cols: int) returns (res: Option<Cells>)
    ensures res == ConvertedRows(at, Size(rows), cols)
  {
    var norm: Cells := [];
    var r := 0;
    while r < rows
      invariant 0 <= r <= Size(rows)
      invariant ConvertedRows(at, r, cols) == Some(norm)
    {
      var outRow: seq<Cell> := [];
      var c := 0;
      while c < cols
        invariant 0 <= c <= Size(cols)
        invariant ConvertedRow(at, r, c) == Some(outRow)
      {
        var cell := at(Pos(r, c));
        if cell.None? {
          assert ConvertedRows(at, Size(rows), cols).None? by {
            assert ConvertedRow(at, r, c + 1).None?;
            ConvertedRowFails(at, r, c + 1, Size(cols));
            ConvertedRowsFail(at, r + 1, Size(rows), cols);
          }
          return None;
        }
        assert ConvertedRow(at, r, c + 1) == Some(outRow + [cell.value]);
        outRow := outRow + [cell.value];
        c := c + 1;
      }
      assert ConvertedRows(at, r + 1, cols) == Some(norm + [outRow]) by {
        assert c == Size(cols);
      }
      norm := norm + [outRow];
      r := r + 1;
    }
    return Some(norm);
  }

  /** `json.dump` of one cell: `null` or the colour text. */
  function CellJson(cell: Cell): Json {
    match cell
    case None => JNull
    case Some(h) => JStr(h)
  }

  /** A saved cell loads back as itself. */
  lemma CellRoundTrip(cell: Cell)
    requires cell.None? || IsCanonicalColor(cell.value)
    ensures CellOf(CellJson(cell)) == Some(cell)
  {
    if cell.Some? {
      CanonicalFixed(cell.value);
    }
  }

  function RowJson(row: seq<Cell>): Json {
    JArr(seq(|row|, c requires 0 <= c < |row| => CellJson(row[c])))
  }

  function GridJson(g: Cells): Json {
    JArr(seq(|g|, r requires 0 <= r < |g| => RowJson(g[r])))
  }

  /** The fields `_to_json_obj` writes, in its order. */
  function SavedFields(rows: int, cols: int, background: string, cells: Json): seq<Field> {
    [
      Field("version", JNum(2)),
      Field("rows", JNum(rows)),
      Field("cols", JNum(cols)),
      Field("background", JStr(background)),
      Field("cells", cells)
    ]
  }

  /** `_to_json_obj`: version 2, the grid's size, the normalised background
      and the cells. */
  function ToJsonObj(g: Cells, bgText: string): (j: Json)
    ensures j.JObj?
    ensures Get(j.fields, "version") == Some(JNum(2))
    ensures Get(j.fields, "rows") == Some(JNum(|g|)) && Get(j.fields, "cols") == Some(JNum(Width(g)))
    ensures Get(j.fields, "background") == Some(JStr(ColorOr(bgText, "#FFFFFF")))
    ensures Get(j.fields, "cells") == Some(GridJson(g))
  {
    SavedFieldsGet(|g|, Width(g), ColorOr(bgText, "#FFFFFF"), GridJson(g));
    JObj(SavedFields(|g|, Width(g), ColorOr(bgText, "#FFFFFF"), GridJson(g)))
  }

  /** Each saved field is found under its own key. */
  lemma SavedFieldsGet(rows: int, cols: int, background: string, cells: Json)
    ensures var fs := SavedFields(rows, cols, background, cells);
      && Get(fs, "version") == Some(JNum(2))
      && Get(fs, "rows") == Some(JNum(rows))
      && Get(fs, "cols") == Some(JNum(cols))
      && Get(fs, "background") == Some(JStr(background))
      && Get(fs, "cells") == Some(cells)
  {
    var f0 := SavedFields(rows, cols, background, cells);
    var f1 := f0[1..];
    var f2 := f1[1..];
    var f3 := f2[1..];
    var f4 := f3[1..];
    assert f4 == [Field("cells", cells)];
    assert f3 == [Field("background", JStr(background))] + f4;
    assert f2 == [Field("cols", JNum(cols))] + f3;
    assert f1 == [Field("rows", JNum(rows))] + f2;
    assert "rows" != "version" && "cols" != "version" && "background" != "version" && "cells" != "version";
    assert "cols" != "rows" && "background" != "rows" && "cells" != "rows";
    assert "background" != "cols" && "cells" != "cols";
    assert "cells" != "background";
    assert Get(f0, "cells") == Get(f1, "cells") == Get(f2, "cells") == Get(f3, "cells") == Get(f4, "cells");
    assert Get(f0, "background") == Get(f1, "background") == Get(f2, "background") == Get(f3, "background");
    assert Get(f0, "cols") == Get(f1, "cols") == Get(f2, "cols");
    assert Get(f0, "rows") == Get(f1, "rows");
  }

  /** Saving and loading again gives back the grid and the normalised
      background: a rectangular grid of normalised colours survives the
      round trip unchanged. */
  lemma SaveLoadRoundTrip(g: Cells, bgText: string)
    requires Rectangular(g) && Canonical(g)
    ensures LoadPattern(ToJsonObj(g, bgText)) == Ok(Loaded(|g|, Width(g), ColorOr(bgText, "#FFFFFF"), g))
  {
    SavedHeader(g, bgText);
    SavedCells(g);
  }

  /** Fields as `_to_json_obj` writes them pass every check of `load_json`
      when the background is normalised and the cells have the size the
      fields give. */
  lemma SavedFieldsLoad(rows: nat, cols: nat, background: string, cells: Json)
    requires IsCanonicalColor(background) && ShapeMatches(cells, rows, cols)
    ensures LoadHeader(JObj(SavedFields(rows, cols, background, cells))) == Ok(Head(rows, cols, background, cells))
  {
    var fs := SavedFields(rows, cols, background, cells);
    assert VersionField(fs) == Some(2) && IntField(fs, "rows") == Some(rows) && IntField(fs, "cols") == Some(cols)
        && Get(fs, "cells") == Some(cells) by {
      SavedFieldsGet(rows, cols, background, cells);
    }
    assert BackgroundField(fs) == Some(background) by {
      SavedFieldsGet(rows, cols, background, cells);
      CanonicalFixed(background);
    }
  }

  /** The saved cells are a list of `|g|` rows of `Width(g)` cells. */
  lemma GridJsonShape(g: Cells)
    requires Rectangular(g)
    ensures ShapeMatches(GridJson(g), |g|, Width(g))
  {
  }

  /** The saved header passes every check of `load_json` and gives back the
      size and the normalised background. */
  lemma SavedHeader(g: Cells, bgText: string)
    requires Rectangular(g)
    ensures LoadHeader(ToJsonObj(g, bgText)) == Ok(Head(|g|, Width(g), ColorOr(bgText, "#FFFFFF"), GridJson(g)))
  {
    GridJsonShape(g);
    SavedFieldsLoad(|g|, Width(g), ColorOr(bgText, "#FFFFFF"), GridJson(g));
  }

  /** Conversions that give back each cell of a rectangular grid give back
      the grid. */
  lemma ConvertedRowsExact(at: Pos -> Option<Cell>, g: Cells)
    requires Rectangular(g)
    requires forall p :: InBounds(|g|, Width(g), p) ==> at(p) == Some(At(g, p))
    ensures ConvertedRows(at, |g|, Width(g)) == Some(g)
  {
    ConvertedRowsCells(at, |g|, Width(g));
    var h := ConvertedRows(at, |g|, Width(g)).value;
    assert Shaped(h, |g|, Width(g));
    forall r | 0 <= r < |g|
      ensures h[r] == g[r]
    {
      assert |h[r]| == |g[r]| == Width(g);
      forall c | 0 <= c < |g[r]|
        ensures h[r][c] == g[r][c]
      {
        var p := Pos(r, c);
        assert InBounds(|g|, Width(g), p);
        assert at(p) == Some(At(h, p)) && at(p) == Some(At(g, p));
      }
    }
    assert h == g;
  }

  /** A saved cell is found in its place and converts back to itself. */
  lemma SavedCellAt(g: Cells, p: Pos)
    requires Rectangular(g) && Canonical(g) && InBounds(|g|, Width(g), p)
    ensures CellAt(GridJson(g), p) == Some(At(g, p))
  {
    var row := RowJson(g[p.r]);
    assert PyIndex(GridJson(g), p.r) == Some(row);
    assert |g[p.r]| == Width(g);
    assert PyIndex(row, p.c) == Some(CellJson(At(g, p)));
    CellRoundTrip(At(g, p));
  }

  /** Every saved cell converts back to itself. */
  lemma SavedCells(g: Cells)
    requires Rectangular(g) && Canonical(g)
    ensures ConvertedRows(CellsAt(GridJson(g)), |g|, Width(g)) == Some(g)
  {
    var at := CellsAt(GridJson(g));
    forall p | InBounds(|g|, Width(g), p)
      ensures at(p) == Some(At(g, p))
    {
      SavedCellAt(g, p);
    }
    ConvertedRowsExact(at, g);
  }


  // ---- the editor ----

  class CrochetGridApp {
    /** The values of the rows and columns spin boxes. */
    var rows: int
    var cols: int
    /** The background and paint colour entries, as typed. */
    var bgColor: string
    var activeColor: string
    /** `"bottom_left"` or `"bottom_right"`. */
    var origin: string
    var grid: Cells
    var undoStack: seq<Snap>
    var redoStack: seq<Snap>
    var actionOpen: bool

    /** The grid is rectangular and holds only normalised colours, every
        saved snapshot is consistent, and the two stacks together hold at
        most `MaxUndo` entries. */
    predicate Valid()
      reads this`grid, this`undoStack, this`redoStack
    {
      && Rectangular(grid) && Canonical(grid)
      && AllGood(undoStack) && AllGood(redoStack)
      && |undoStack| + |redoStack| <= MaxUndo
    }

    /** `_snapshot()`. */
    function Snapshot(): Snap
      reads this`grid, this`bgColor
    {
      SnapOf(grid, bgColor)
    }

    function CurrentHistory(): History<Snap>
      reads this`grid, this`bgColor, this`undoStack, this`redoStack
    {
      History(Snapshot(), undoStack, redoStack)
    }

    /** A new editor: a blank 32 by 29 grid on white, painting black, numbered
        from the bottom left, with no history. */
    constructor()
      ensures Valid()
      ensures rows == 32 && cols == 29 && grid == Blank(32, 29)
      ensures bgColor == "#FFFFFF" && activeColor == "#000000" && origin == "bottom_left"
      ensures undoStack == [] && redoStack == [] && !actionOpen
    {
      rows := 32;
      cols := 29;
      bgColor := "#FFFFFF";
      activeColor := "#000000";
      origin := "bottom_left";
      grid := Blank(32, 29);
      undoStack := [];
      redoStack := [];
      actionOpen := false;
    }

    /** `_push_undo()`. */
    method PushUndo()
      requires Valid()
      modifies this
      ensures Valid()
      ensures CurrentHistory() == Pushed(old(CurrentHistory()))
      ensures rows == old(rows) && cols == old(cols) && bgColor == old(bgColor) && activeColor == old(activeColor)
      ensures origin == old(origin) && grid == old(grid) && actionOpen == old(actionOpen)
    {
      ghost var h := CurrentHistory();
      var snap := Snapshot();
      AllGoodPush(undoStack, snap);
      var stack := undoStack + [snap];
      if |stack| > MaxUndo {
        stack := stack[|stack| - MaxUndo..];
      }
      assert stack == Pushed(h).undo;
      undoStack := stack;
      redoStack := [];
      assert Snapshot() == h.now;
    }

    /** `_restore(snap)`: the size boxes, the background and a copy of the
        cells come from the snapshot. */
    method Restore(snap: Snap)
      modifies this
      ensures rows == snap.rows && cols == snap.cols && bgColor == ColorOr(snap.background, "#FFFFFF") && grid == snap.cells
      ensures activeColor == old(activeColor) && origin == old(origin) && actionOpen == old(actionOpen)
      ensures undoStack == old(undoStack) && redoStack == old(redoStack)
    {
      rows := snap.rows;
      cols := snap.cols;
      bgColor := ColorOr(snap.background, "#FFFFFF");
      grid := snap.cells;
    }

    /** `undo()`: nothing happens when there is nothing to undo. */
    method Undo()
      requires Valid()
      modifies this
      ensures Valid()
      ensures CurrentHistory() == Undone(old(CurrentHistory()))
      ensures old(undoStack) == [] ==> rows == old(rows) && cols == old(cols) && bgColor == old(bgColor) && grid == old(grid)
      ensures old(undoStack) != [] ==>
        var snap := old(undoStack)[|old(undoStack)| - 1];
        rows == snap.rows && cols == snap.cols && bgColor == snap.background && grid == snap.cells
      ensures activeColor == old(activeColor) && origin == old(origin) && actionOpen == old(actionOpen)
    {
      if undoStack == [] {
        return;
      }
      var current := Snapshot();
      redoStack := redoStack + [current];
      var snap := undoStack[|undoStack| - 1];
      AllGoodPop(undoStack);
      AllGoodPush(old(redoStack), current);
      undoStack := undoStack[..|undoStack| - 1];
      Restore(snap);
      SnapOfRestored(snap);
    }

    /** `redo()`: nothing happens when there is nothing to redo. */
    method Redo()
      requires Valid()
      modifies this
      ensures Valid()
      ensures CurrentHistory() == Redone(old(CurrentHistory()))
      ensures old(redoStack) == [] ==> rows == old(rows) && cols == old(cols) && bgColor == old(bgColor) && grid == old(grid)
      ensures old(redoStack) != [] ==>
        var snap := old(redoStack)[|old(redoStack)| - 1];
        rows == snap.rows && cols == snap.cols && bgColor == snap.background && grid == snap.cells
      ensures activeColor == old(activeColor) && origin == old(origin) && actionOpen == old(actionOpen)
    {
      if redoStack == [] {
        return;
      }
      var current := Snapshot();
      undoStack := undoStack + [current];
      var snap := redoStack[|redoStack| - 1];
      AllGoodPop(redoStack);
      AllGoodPush(old(undoStack), current);
      redoStack := redoStack[..|redoStack| - 1];
      Restore(snap);
      SnapOfRestored(snap);
    }

    /** `_begin_action()`: the first call of an action pushes one undo
        entry; further calls until `_end_action` push nothing. */
    method BeginAction()
      requires Valid()
      modifies this
      ensures Valid() && actionOpen
      ensures old(actionOpen) ==> undoStack == old(undoStack) && redoStack == old(redoStack)
      ensures !old(actionOpen) ==> CurrentHistory() == Pushed(old(CurrentHistory()))
      ensures rows == old(rows) && cols == old(cols) && bgColor == old(bgColor) && activeColor == old(activeColor)
      ensures origin == old(origin) && grid == old(grid)
    {
      if !actionOpen {
        PushUndo();
        ghost var pushed := CurrentHistory();
        actionOpen := true;
        assert CurrentHistory() == pushed;
      }
    }

    /** `_end_action()`: the next action pushes again. */
    method EndAction()
      modifies this
      ensures !actionOpen
      ensures rows == old(rows) && cols == old(cols) && bgColor == old(bgColor) && activeColor == old(activeColor)
      ensures origin == old(origin) && grid == old(grid) && undoStack == old(undoStack) && redoStack == old(redoStack)
    {
      actionOpen := false;
    }

    /** `on_new_grid()`: refuse a size below one; otherwise push one undo
        entry and make a `rows` by `cols` grid that keeps the overlap with
        the old one. */
    method OnNewGrid() returns (ok: bool)
      requires Valid()
      modifies this
      ensures Valid()
      ensures ok == (rows > 0 && cols > 0)
      ensures !ok ==> grid == old(grid) && undoStack == old(undoStack) && redoStack == old(redoStack)
      ensures ok ==> undoStack == Pushed(old(CurrentHistory())).undo && redoStack == []
      ensures ok ==> Shaped(grid, rows, cols) && forall p :: InBounds(rows, cols, p) ==> At(grid, p) == Kept(old(grid), p)
      ensures rows == old(rows) && cols == old(cols) && bgColor == old(bgColor) && activeColor == old(activeColor)
      ensures origin == old(origin) && actionOpen == old(actionOpen)
    {
      var r, c := rows, cols;
      if r <= 0 || c <= 0 {
        return false;
      }
      var prev := grid;
      PushUndo();
      ghost var pushed := undoStack;
      var g := Resized(prev, r, c);
      ResizedWellFormed(prev, g, r, c);
      grid := g;
      assert undoStack == pushed;
      return true;
    }

    /** `on_clear()`: push one undo entry, then empty every cell. */
    method OnClear()
      requires Valid()
      modifies this
      ensures Valid()
      ensures undoStack == Pushed(old(CurrentHistory())).undo && redoStack == []
      ensures grid == Blank(|old(grid)|, Width(old(grid)))
      ensures rows == old(rows) && cols == old(cols) && bgColor == old(bgColor) && activeColor == old(activeColor)
      ensures origin == old(origin) && actionOpen == old(actionOpen)
    {
      PushUndo();
      ghost var pushed := undoStack;
      var g := Cleared(grid);
      grid := g;
      assert undoStack == pushed;
    }

    /** `_bucket_fill(r, c, new_color)`: nothing happens when the start
        already shows the replacement; otherwise exactly the cells
        4-connected to the start through cells showing the start's colour
        come to show the replacement. */
    method BucketFill(startR: int, startC: int, newColor: string)
      requires Valid() && Holds(grid, Pos(startR, startC))
      requires newColor == [] || IsCanonicalColor(newColor)
      modifies this
      ensures Valid()
      ensures rows == old(rows) && cols == old(cols) && bgColor == old(bgColor) && activeColor == old(activeColor)
      ensures origin == old(origin) && actionOpen == old(actionOpen)
      ensures undoStack == old(undoStack) && redoStack == old(redoStack)
      ensures SameShape(old(grid), grid)
      ensures var bg := ColorOr(bgColor, "#FFFFFF");
              var target := Effective(At(old(grid), Pos(startR, startC)), bg);
              var replacement := Replacement(newColor, bg);
              forall q :: Holds(old(grid), q) ==>
                At(grid, q) == if target != replacement && Connected(Matching(old(grid), bg, target), Pos(startR, startC), q)
                               then Stored(replacement, bg) else At(old(grid), q)
    {
      var bg := ColorOr(bgColor, "#FFFFFF");
      var start := Pos(startR, startC);
      var target := Effective(At(grid, start), bg);
      var replacement := if newColor != [] then newColor else bg;
      if target == replacement {
        return;
      }
      var g := FillEffective(grid, bg, start, target, replacement);
      FillKeepsCanonical(grid, g, Stored(replacement, bg));
      grid := g;
    }

    /** `_cell_from_xy(x, y)` with the grid drawn from `(x0, y0)` in squares
        of `cell` pixels: the cell whose square holds the point, if any. */
    function CellFromXy(x: int, y: int, x0: int, y0: int, cell: int): (r: Option<Pos>)
      reads this
      requires cell > 0
      ensures r.Some? ==> InBounds(|grid|, Width(grid), r.value) && InSquare(x, y, x0, y0, cell, r.value)
      ensures r.None? <==> grid == [] || !(x0 <= x < x0 + Width(grid) * cell && y0 <= y < y0 + |grid| * cell)
    {
      if grid == [] then None
      else
        var gx := x - x0;
        var gy := y - y0;
        if gx < 0 || gy < 0 then None
        else
          var c := gx / cell;
          var r := gy / cell;
          DivBelow(gx, cell, Width(grid));
          DivBelow(gy, cell, |grid|);
          if 0 <= r < |grid| && 0 <= c < Width(grid) then Some(Pos(r, c)) else None
    }

    /** `load_json` on a decoded document: on failure nothing changes;
        otherwise the size boxes, the background and the grid come from the
        document and both stacks are emptied. */
    method LoadJson(obj: Json) returns (err: Option<LoadFailure>)
      requires Valid()
      modifies this
      ensures Valid()
      ensures LoadPattern(obj).Err? ==>
        && err == Some(LoadPattern(obj).error)
        && Loaded(rows, cols, bgColor, grid) == old(Loaded(rows, cols, bgColor, grid))
        && undoStack == old(undoStack) && redoStack == old(redoStack)
      ensures LoadPattern(obj).Ok? ==>
        && err == None
        && Loaded(rows, cols, bgColor, grid) == LoadPattern(obj).value
        && undoStack == [] && redoStack == []
      ensures activeColor == old(activeColor) && origin == old(origin) && actionOpen == old(actionOpen)
    {
      var header := LoadHeader(obj);
      if header.Err? {
        assert LoadPattern(obj) == Err(header.error);
        return Some(header.error);
      }
      var hd := header.value;
      var norm := NormalizeCells(CellsAt(hd.cells), hd.rows, hd.cols);
      if norm.None? {
        assert LoadPattern(obj) == Err(BadCell);
        return Some(BadCell);
      }
      assert LoadPattern(obj) == Ok(Loaded(hd.rows, hd.cols, hd.background, norm.value));
      assert Rectangular(norm.value) && Canonical(norm.value) by {
        LoadedWellFormed(obj);
      }
      rows := hd.rows;
      cols := hd.cols;
      bgColor := hd.background;
      grid := norm.value;
      undoStack := [];
      redoStack := [];
      return None;
    }
  }
}
