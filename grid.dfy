/** The crochet grid: rows of cells, each holding a colour or nothing (the
    background shows through), and 4-connected regions of cells, which the
    bucket fills of both editors paint. */
module Grid {
  import opened Wrappers

  type Cell = Option<string>
  type Cells = seq<seq<Cell>>

  /** A cell position: row `r` from the top, column `c` from the left. */
  datatype Pos = Pos(r: int, c: int)

  /** `len(range(n))`. */
  function Size(n: int): nat {
    if n < 0 then 0 else n
  }

  /** `g` has `rows` rows of `cols` cells (none when a count is negative,
      as with `range`). */
  predicate Shaped(g: Cells, rows: int, cols: int) {
    |g| == Size(rows) && forall r :: 0 <= r < |g| ==> |g[r]| == Size(cols)
  }

  /** `0 <= r < rows and 0 <= c < cols`. */
  predicate InBounds(rows: int, cols: int, p: Pos)
    ensures InBounds(rows, cols, p) ==> rows > 0 && cols > 0
  {
    0 <= p.r < rows && 0 <= p.c < cols
  }

  predicate Holds(g: Cells, p: Pos) {
    0 <= p.r < |g| && 0 <= p.c < |g[p.r]|
  }

  lemma ShapedHolds(g: Cells, rows: int, cols: int, p: Pos)
    requires Shaped(g, rows, cols) && InBounds(rows, cols, p)
    ensures Holds(g, p)
  {
  }

  function At(g: Cells, p: Pos): Cell
    requires Holds(g, p)
  {
    g[p.r][p.c]
  }

  /** `g[r][c] = v`. */
  function Put(g: Cells, p: Pos, v: Cell): (h: Cells)
    requires Holds(g, p)
    ensures |h| == |g| && forall r :: 0 <= r < |g| ==> |h[r]| == |g[r]|
    ensures At(h, p) == v
    ensures forall q :: Holds(g, q) && q != p ==> At(h, q) == At(g, q)
  {
    g[p.r := g[p.r][p.c := v]]
  }

  /** Writing the value a cell already holds changes nothing. */
  lemma PutSame(g: Cells, p: Pos)
    requires Holds(g, p)
    ensures Put(g, p, At(g, p)) == g
  {
    assert g[p.r][p.c := At(g, p)] == g[p.r];
  }

  lemma PutKeepsShape(g: Cells, p: Pos, v: Cell, rows: int, cols: int)
    requires Holds(g, p) && Shaped(g, rows, cols)
    ensures Shaped(Put(g, p, v), rows, cols)
  {
  }

  /** `p` comes before row `r`, column `c` in row-major order. */
  predicate Before(p: Pos, r: int, c: int) {
    p.r < r || (p.r == r && p.c < c)
  }

  /** `[[None for _ in range(cols)] for _ in range(rows)]`. */
  function Blank(rows: int, cols: int): (g: Cells)
    ensures Shaped(g, rows, cols)
    ensures forall r, c :: 0 <= r < |g| && 0 <= c < |g[r]| ==> g[r][c] == None
  {
    seq(Size(rows), _ => seq(Size(cols), _ => None))
  }

  /** A grid of the right size whose every cell is empty is the blank grid. */
  lemma BlankUnique(g: Cells, rows: int, cols: int)
    requires Shaped(g, rows, cols)
    requires forall p :: InBounds(rows, cols, p) ==> At(g, p) == None
    ensures g == Blank(rows, cols)
  {
    var b := Blank(rows, cols);
    forall r | 0 <= r < |g|
      ensures g[r] == b[r]
    {
      forall c | 0 <= c < |g[r]|
        ensures g[r][c] == b[r][c]
      {
        assert At(g, Pos(r, c)) == None;
      }
    }
  }

  /** `q` is one of the four cells `p` pushes: above, below, left, right. */
  predicate Adjacent(p: Pos, q: Pos) {
    q == Pos(p.r - 1, p.c) || q == Pos(p.r + 1, p.c) || q == Pos(p.r, p.c - 1) || q == Pos(p.r, p.c + 1)
  }

  /** A walk through cells satisfying `inside`, one neighbour at a time. */
  ghost predicate IsPath(inside: Pos -> bool, path: seq<Pos>) {
    && |path| > 0
    && (forall i :: 0 <= i < |path| ==> inside(path[i]))
    && (forall i :: 0 <= i < |path| - 1 ==> Adjacent(path[i], path[i + 1]))
  }

  /** `b` can be reached from `a` through cells satisfying `inside`. */
  ghost predicate Connected(inside: Pos -> bool, a: Pos, b: Pos) {
    exists path :: IsPath(inside, path) && path[0] == a && path[|path| - 1] == b
  }

  lemma ConnectedEnds(inside: Pos -> bool, a: Pos, b: Pos)
    requires Connected(inside, a, b)
    ensures inside(a) && inside(b)
  {
    var path :| IsPath(inside, path) && path[0] == a && path[|path| - 1] == b;
    assert inside(path[0]) && inside(path[|path| - 1]);
  }

  lemma ConnectedStart(inside: Pos -> bool, a: Pos)
    requires inside(a)
    ensures Connected(inside, a, a)
  {
    assert IsPath(inside, [a]);
  }

  /** A connected cell's neighbour inside the region is connected too. */
  lemma ConnectedStep(inside: Pos -> bool, a: Pos, q: Pos, n: Pos)
    requires Connected(inside, a, q) && Adjacent(q, n) && inside(n)
    ensures Connected(inside, a, n)
  {
    var path :| IsPath(inside, path) && path[0] == a && path[|path| - 1] == q;
    var longer := path + [n];
    assert longer[|longer| - 2] == q;
    assert IsPath(inside, longer);
  }

  /** Index of the last occurrence of `q` in `path`. */
  function LastIndex(path: seq<Pos>, q: Pos): (k: nat)
    requires q in path
    ensures k < |path| && path[k] == q && q !in path[k + 1..]
  {
    if path[|path| - 1] == q then |path| - 1
    else
      var k := LastIndex(path[..|path| - 1], q);
      assert path[k + 1..] == path[..|path| - 1][k + 1..] + [path[|path| - 1]];
      k
  }

  /** Taking `q` out of a region: a walk from `s` to some other cell `p`
      either never used `q`, or its part after the last visit to `q` starts
      at a neighbour of `q` and avoids `q`. */
  lemma ConnectedWithout(inside: Pos -> bool, smaller: Pos -> bool, q: Pos, s: Pos, p: Pos)
    requires Connected(inside, s, p) && p != q
    requires forall x :: smaller(x) == (inside(x) && x != q)
    ensures (s != q && Connected(smaller, s, p)) || exists m :: Adjacent(q, m) && Connected(smaller, m, p)
  {
    var path :| IsPath(inside, path) && path[0] == s && path[|path| - 1] == p;
    if q in path {
      var k := LastIndex(path, q);
      var rest := path[k + 1..];
      assert k < |path| - 1;
      forall i | 0 <= i < |rest|
        ensures smaller(rest[i])
      {
        assert rest[i] == path[k + 1 + i];
        assert rest[i] in path[k + 1..];
      }
      forall i | 0 <= i < |rest| - 1
        ensures Adjacent(rest[i], rest[i + 1])
      {
        assert rest[i] == path[k + 1 + i] && rest[i + 1] == path[k + 1 + i + 1];
      }
      assert IsPath(smaller, rest);
      assert Adjacent(path[k], path[k + 1]);
      assert Connected(smaller, path[k + 1], p);
    } else {
      assert IsPath(smaller, path);
    }
  }

  // ---- the work-stack flood fill ----

  /** Every cell that `start` reaches through `region` and that is still
      open can be reached, through open cells only, from some cell on the
      work stack. */
  ghost predicate Frontier(region: Pos -> bool, start: Pos, open: Pos -> bool, stack: seq<Pos>) {
    forall p {:trigger Connected(region, start, p)} ::
      Connected(region, start, p) && open(p) ==> exists s :: s in stack && Connected(open, s, p)
  }

  /** Every cell on the work stack that lies in the region is reached from
      `start`. */
  ghost predicate Reached(region: Pos -> bool, start: Pos, stack: seq<Pos>) {
    forall s {:trigger Connected(region, start, s)} :: s in stack && region(s) ==> Connected(region, start, s)
  }

  /** What remains after popping was on the stack. */
  lemma PopKeeps(stack: seq<Pos>)
    requires stack != []
    ensures forall s :: s in stack[..|stack| - 1] ==> s in stack
  {
  }

  /** Popping a cell that is not open loses no open cell. */
  lemma FrontierPopClosed(region: Pos -> bool, start: Pos, open: Pos -> bool, stack: seq<Pos>)
    requires stack != [] && Frontier(region, start, open, stack)
    requires !open(stack[|stack| - 1])
    ensures Frontier(region, start, open, stack[..|stack| - 1])
  {
    var q := stack[|stack| - 1];
    var rest := stack[..|stack| - 1];
    assert stack == rest + [q];
    forall p | Connected(region, start, p) && open(p)
      ensures exists s :: s in rest && Connected(open, s, p)
    {
      var s :| s in stack && Connected(open, s, p);
      ConnectedEnds(open, s, p);
      assert s in rest;
    }
  }

  /** Painting the popped cell closes it; pushing its open neighbours keeps
      every remaining open cell of the region within reach of the stack. */
  lemma FrontierPopFilled(region: Pos -> bool, start: Pos, open: Pos -> bool, smaller: Pos -> bool,
                          stack: seq<Pos>, pushed: seq<Pos>)
    requires stack != [] && Frontier(region, start, open, stack)
    requires forall x :: smaller(x) == (open(x) && x != stack[|stack| - 1])
    requires forall m :: Adjacent(stack[|stack| - 1], m) && smaller(m) ==> m in pushed
    ensures Frontier(region, start, smaller, stack[..|stack| - 1] + pushed)
  {
    var q := stack[|stack| - 1];
    var rest := stack[..|stack| - 1];
    assert stack == rest + [q];
    forall p | Connected(region, start, p) && smaller(p)
      ensures exists s :: s in rest + pushed && Connected(smaller, s, p)
    {
      var s :| s in stack && Connected(open, s, p);
      ConnectedWithout(open, smaller, q, s, p);
      if s != q && Connected(smaller, s, p) {
        assert s in rest;
      } else {
        var m :| Adjacent(q, m) && Connected(smaller, m, p);
        ConnectedEnds(smaller, m, p);
        assert m in rest + pushed;
      }
    }
  }

  /** Neighbours of a reached cell are reached when they lie in the region. */
  lemma ReachedPush(region: Pos -> bool, start: Pos, stack: seq<Pos>, q: Pos, pushed: seq<Pos>)
    requires Reached(region, start, stack) && Connected(region, start, q)
    requires forall m :: m in pushed ==> Adjacent(q, m)
    ensures Reached(region, start, stack + pushed)
  {
    forall s | s in stack + pushed && region(s)
      ensures Connected(region, start, s)
    {
      if s in pushed {
        ConnectedStep(region, start, q, s);
      }
    }
  }
}
