/** The maze generator: a width x height grid of cells, every wall standing,
    carved by a randomised depth-first search with an explicit stack. The
    grid lives in an `array2` that the carve updates in place; a ghost grid
    value mirrors it so that the properties of each step are stated and
    proved on values. */
module MazeGrid {

  datatype Walls = Walls(top: bool, right: bool, bottom: bool, left: bool)

  datatype Cell = Cell(x: int, y: int, walls: Walls, visited: bool)

  datatype Pos = Pos(x: int, y: int)

  /** Rows of cells: `g[y][x]` is the cell at column x of row y. */
  type Grid = seq<seq<Cell>>

  const AllWalls := Walls(true, true, true, true)

  const Origin := Pos(0, 0)

  predicate InGrid(p: Pos, w: int, h: int)
  {
    0 <= p.x < w && 0 <= p.y < h
  }

  /** `h` rows of `w` cells, the cell at [y][x] carrying the coordinates (x, y). */
  predicate Shaped(g: Grid, w: nat, h: nat)
  {
    && |g| == h
    && (forall y :: 0 <= y < h ==> |g[y]| == w)
    && (forall y, x :: 0 <= y < h && 0 <= x < w ==> g[y][x].x == x && g[y][x].y == y)
  }

  function At(g: Grid, p: Pos): Cell
    requires 0 <= p.y < |g| && 0 <= p.x < |g[p.y]|
  {
    g[p.y][p.x]
  }

  /** `g` with the cell at `p` replaced. */
  function Put(g: Grid, p: Pos, c: Cell): (r: Grid)
    requires 0 <= p.y < |g| && 0 <= p.x < |g[p.y]|
    ensures |r| == |g| && forall y :: 0 <= y < |g| ==> |r[y]| == |g[y]|
    ensures forall y, x :: 0 <= y < |g| && 0 <= x < |g[y]| ==> r[y][x] == if Pos(x, y) == p then c else g[y][x]
  {
    g[p.y := g[p.y][p.x := c]]
  }

  /** The four positions next to `a`, in the order the generator tries them. */
  predicate Adjacent(a: Pos, b: Pos)
  {
    || b == Pos(a.x, a.y - 1)
    || b == Pos(a.x + 1, a.y)
    || b == Pos(a.x, a.y + 1)
    || b == Pos(a.x - 1, a.y)
  }

  /** Neighbouring walls agree: a cell's right wall is its right neighbour's
      left wall, and its bottom wall is the top wall of the cell below. */
  predicate Symmetric(g: Grid, w: nat, h: nat)
    requires Shaped(g, w, h)
  {
    && (forall y, x :: 0 <= y < h && 0 <= x < w - 1 ==> RightAgrees(g, y, x))
    && (forall y, x :: 0 <= y < h - 1 && 0 <= x < w ==> BottomAgrees(g, y, x))
  }

  /** The right wall of [y][x] is the left wall of [y][x + 1]. */
  predicate RightAgrees(g: Grid, y: int, x: int)
    requires 0 <= y < |g| && 0 <= x < |g[y]| - 1
  {
    g[y][x].walls.right == g[y][x + 1].walls.left
  }

  /** The bottom wall of [y][x] is the top wall of [y + 1][x]. */
  predicate BottomAgrees(g: Grid, y: int, x: int)
    requires 0 <= y < |g| - 1 && 0 <= x < |g[y]| && |g[y + 1]| == |g[y]|
  {
    g[y][x].walls.bottom == g[y + 1][x].walls.top
  }

  /** The outer wall is intact. */
  predicate Boundary(g: Grid, w: nat, h: nat)
    requires Shaped(g, w, h) && w > 0 && h > 0
  {
    TopBottom(g, w, h) && LeftRight(g, w, h)
  }

  /** The first row has its top walls and the last row its bottom walls. */
  predicate TopBottom(g: Grid, w: nat, h: nat)
    requires Shaped(g, w, h) && h > 0
  {
    forall x :: 0 <= x < w ==> g[0][x].walls.top && g[h - 1][x].walls.bottom
  }

  /** The first column has its left walls and the last column its right walls. */
  predicate LeftRight(g: Grid, w: nat, h: nat)
    requires Shaped(g, w, h) && w > 0
  {
    forall y :: 0 <= y < h ==> g[y][0].walls.left && g[y][w - 1].walls.right
  }

  /** A wall between two neighbouring cells, named by its upper or left cell:
      `horizontal` means the wall between `at` and the cell to its right,
      otherwise the wall between `at` and the cell below. */
  datatype Edge = Edge(at: Pos, horizontal: bool)

  predicate ValidEdge(e: Edge, w: int, h: int)
  {
    if e.horizontal then 0 <= e.at.x < w - 1 && 0 <= e.at.y < h
    else 0 <= e.at.x < w && 0 <= e.at.y < h - 1
  }

  /** The cell on the other side of the wall. */
  function Far(e: Edge): Pos
  {
    if e.horizontal then Pos(e.at.x + 1, e.at.y) else Pos(e.at.x, e.at.y + 1)
  }

  /** The wall `e` has been removed. */
  predicate IsOpen(g: Grid, w: nat, h: nat, e: Edge)
    requires Shaped(g, w, h) && ValidEdge(e, w, h)
  {
    if e.horizontal then !g[e.at.y][e.at.x].walls.right else !g[e.at.y][e.at.x].walls.bottom
  }

  /** The wall between two adjacent cells. */
  function EdgeOf(a: Pos, b: Pos): (e: Edge)
    requires Adjacent(a, b)
    ensures (e.at == a && Far(e) == b) || (e.at == b && Far(e) == a)
  {
    if b.x == a.x + 1 then Edge(a, true)
    else if b.x == a.x - 1 then Edge(b, true)
    else if b.y == a.y + 1 then Edge(a, false)
    else Edge(b, false)
  }

  /** The player may step from `a` to the adjacent `b`: the wall of `a` on
      that side is gone. */
  predicate CanStep(g: Grid, w: nat, h: nat, a: Pos, b: Pos)
    requires Shaped(g, w, h)
  {
    && InGrid(a, w, h) && InGrid(b, w, h)
    && var c := g[a.y][a.x].walls;
       || (b == Pos(a.x, a.y - 1) && !c.top)
       || (b == Pos(a.x + 1, a.y) && !c.right)
       || (b == Pos(a.x, a.y + 1) && !c.bottom)
       || (b == Pos(a.x - 1, a.y) && !c.left)
  }

  /** A walk through open walls. */
  ghost predicate IsWalk(g: Grid, w: nat, h: nat, path: seq<Pos>)
    requires Shaped(g, w, h)
  {
    && |path| > 0
    && (forall i :: 0 <= i < |path| ==> InGrid(path[i], w, h))
    && (forall i :: 0 <= i < |path| - 1 ==> CanStep(g, w, h, path[i], path[i + 1]))
  }

  /** The grid the two nested `for` loops build. */
  function Fresh(w: nat, h: nat): (g: Grid)
    ensures Shaped(g, w, h)
    ensures forall y, x :: 0 <= y < h && 0 <= x < w ==> g[y][x].walls == AllWalls && !g[y][x].visited
  {
    seq(h, y requires 0 <= y < h => seq(w, x requires 0 <= x < w => Cell(x, y, AllWalls, false)))
  }

  /** The four `if`s of the wall removal, seen from the cell at `from` whose
      neighbour is `to`: exactly the wall facing `to` comes down. */
  function Opened(walls: Walls, from: Pos, to: Pos): Walls
  {
    walls.(top := if to.y < from.y then false else walls.top,
           right := if to.x > from.x then false else walls.right,
           bottom := if to.y > from.y then false else walls.bottom,
           left := if to.x < from.x then false else walls.left)
  }

  /** One carve step on the grid value: the wall between `cur` and `next`
      comes down on both sides and `next` is marked visited. */
  function Carve(g: Grid, w: nat, h: nat, cur: Pos, next: Pos): (r: Grid)
    requires Shaped(g, w, h) && InGrid(cur, w, h) && InGrid(next, w, h) && Adjacent(cur, next)
    ensures Shaped(r, w, h)
  {
    var c := At(g, cur);
    var g1 := Put(g, cur, c.(walls := Opened(c.walls, cur, next)));
    var n := At(g1, next);
    Put(g1, next, n.(walls := Opened(n.walls, next, cur), visited := true))
  }

  /** The in-bounds unvisited neighbours of `p`, in the order up, right, down, left. */
  function UnvisitedNeighbours(g: Grid, w: nat, h: nat, p: Pos): (r: seq<Pos>)
    requires Shaped(g, w, h) && InGrid(p, w, h)
    ensures forall i :: 0 <= i < |r| ==> InGrid(r[i], w, h) && Adjacent(p, r[i]) && !At(g, r[i]).visited
    ensures forall q :: InGrid(q, w, h) && Adjacent(p, q) && !At(g, q).visited ==> q in r
  {
    var up := if p.y > 0 && !g[p.y - 1][p.x].visited then [Pos(p.x, p.y - 1)] else [];
    var right := if p.x < w - 1 && !g[p.y][p.x + 1].visited then [Pos(p.x + 1, p.y)] else [];
    var down := if p.y < h - 1 && !g[p.y + 1][p.x].visited then [Pos(p.x, p.y + 1)] else [];
    var left := if p.x > 0 && !g[p.y][p.x - 1].visited then [Pos(p.x - 1, p.y)] else [];
    up + right + down + left
  }

  /** Every visited cell that has left the stack has no unvisited neighbour:
      the search is done with it. */
  ghost predicate Closed(g: Grid, w: nat, h: nat, stack: seq<Pos>)
    requires Shaped(g, w, h)
  {
    forall y, x :: 0 <= y < h && 0 <= x < w && g[y][x].visited && Pos(x, y) !in stack ==> Finished(g, w, h, y, x)
  }

  /** No neighbour of [y][x] is left unvisited. */
  predicate Finished(g: Grid, w: nat, h: nat, y: int, x: int)
    requires Shaped(g, w, h) && 0 <= y < h && 0 <= x < w
  {
    && (y > 0 ==> g[y - 1][x].visited)
    && (x < w - 1 ==> g[y][x + 1].visited)
    && (y < h - 1 ==> g[y + 1][x].visited)
    && (x > 0 ==> g[y][x - 1].visited)
  }

  /** `unvisited` is exactly the set of cells not yet visited. */
  ghost predicate Tracks(g: Grid, w: nat, h: nat, unvisited: set<Pos>)
    requires Shaped(g, w, h)
  {
    && (forall p :: p in unvisited ==> InGrid(p, w, h))
    && (forall y, x :: 0 <= y < h && 0 <= x < w ==> (Pos(x, y) in unvisited <==> !g[y][x].visited))
  }

  /** `edges` is exactly the set of removed walls, and each joins two visited cells. */
  ghost predicate EdgesMatch(g: Grid, w: nat, h: nat, edges: set<Edge>)
    requires Shaped(g, w, h)
  {
    && (forall e :: e in edges ==> ValidEdge(e, w, h) && IsOpen(g, w, h, e))
    && (forall e :: ValidEdge(e, w, h) && IsOpen(g, w, h, e) ==> e in edges)
    && (forall e :: e in edges ==> At(g, e.at).visited && At(g, Far(e)).visited)
  }

  /** The search tree: every visited cell other than the origin records the
      cell it was carved from, one step closer to the origin. */
  ghost predicate Tree(g: Grid, w: nat, h: nat, parent: map<Pos, Pos>, depth: map<Pos, nat>)
    requires Shaped(g, w, h)
  {
    && DepthCovers(g, w, h, depth)
    && Origin in depth && depth[Origin] == 0
    && (forall p :: p in depth && p != Origin ==> p in parent)
    && Links(g, w, h, parent, depth)
  }

  /** The cells with a depth are exactly the visited ones. */
  ghost predicate DepthCovers(g: Grid, w: nat, h: nat, depth: map<Pos, nat>)
    requires Shaped(g, w, h)
  {
    && (forall p :: p in depth ==> InGrid(p, w, h) && At(g, p).visited)
    && (forall y, x :: 0 <= y < h && 0 <= x < w && g[y][x].visited ==> Pos(x, y) in depth)
  }

  /** Each recorded parent is one step closer to the origin, through an open wall. */
  ghost predicate Links(g: Grid, w: nat, h: nat, parent: map<Pos, Pos>, depth: map<Pos, nat>)
    requires Shaped(g, w, h)
  {
    forall p {:trigger parent[p]} :: p in parent ==>
      p in depth && parent[p] in depth && depth[parent[p]] < depth[p] && CanStep(g, w, h, parent[p], p)
  }

  /** The cells of a w x h grid. */
  function Cells(w: nat, h: nat): set<Pos>
  {
    set y, x | 0 <= y < h && 0 <= x < w :: Pos(x, y)
  }

  function Row(w: nat, y: int): set<Pos>
  {
    set x | 0 <= x < w :: Pos(x, y)
  }

  lemma {:induction false} RowSize(w: nat, y: int)
    ensures |Row(w, y)| == w
  {
    if w > 0 {
      RowSize(w - 1, y);
      assert Row(w, y) == Row(w - 1, y) + {Pos(w - 1, y)};
    }
  }

  /** A w x h grid has w * h cells. */
  lemma {:induction false} CellsSize(w: nat, h: nat)
    ensures |Cells(w, h)| == w * h
  {
    if h > 0 {
      CellsSize(w, h - 1);
      RowSize(w, h - 1);
      CellsByRow(w, h);
      assert w * h == w * (h - 1) + w;
    }
  }

  /** The last row of the grid is disjoint from the rows above it. */
  lemma CellsByRow(w: nat, h: nat)
    requires h > 0
    ensures Cells(w, h) == Cells(w, h - 1) + Row(w, h - 1)
    ensures Cells(w, h - 1) * Row(w, h - 1) == {}
  {
    forall p | p in Cells(w, h)
      ensures p in Cells(w, h - 1) + Row(w, h - 1)
    {
      if p.y < h - 1 {
        assert p in Cells(w, h - 1);
      } else {
        assert p in Row(w, h - 1);
      }
    }
    forall p | p in Cells(w, h - 1) + Row(w, h - 1)
      ensures p in Cells(w, h)
    {
    }
    assert forall p :: p in Cells(w, h - 1) ==> p.y < h - 1;
    assert forall p :: p in Row(w, h - 1) ==> p.y == h - 1;
  }

  /** `r` is `g` after carving from `cur` to `next`: the two cells it
      touches change as the wall removal says, nothing else does. */
  ghost predicate CarvedFrom(g: Grid, r: Grid, w: nat, h: nat, cur: Pos, next: Pos)
    requires Shaped(g, w, h) && InGrid(cur, w, h) && InGrid(next, w, h)
  {
    && Shaped(r, w, h)
    && At(r, cur) == At(g, cur).(walls := Opened(At(g, cur).walls, cur, next))
    && At(r, next) == At(g, next).(walls := Opened(At(g, next).walls, next, cur), visited := true)
    && forall y, x :: 0 <= y < h && 0 <= x < w && Pos(x, y) != cur && Pos(x, y) != next ==> r[y][x] == g[y][x]
  }

  lemma CarveChanges(g: Grid, w: nat, h: nat, cur: Pos, next: Pos)
    requires Shaped(g, w, h) && InGrid(cur, w, h) && InGrid(next, w, h) && Adjacent(cur, next)
    ensures CarvedFrom(g, Carve(g, w, h, cur, next), w, h, cur, next)
  {
  }

  /** Carving keeps neighbouring walls in agreement, since it removes both
      sides of the wall between the two cells. */
  lemma CarvedSymmetric(g: Grid, r: Grid, w: nat, h: nat, cur: Pos, next: Pos)
    requires Shaped(g, w, h) && InGrid(cur, w, h) && InGrid(next, w, h) && Adjacent(cur, next)
    requires CarvedFrom(g, r, w, h, cur, next)
    requires Symmetric(g, w, h)
    ensures Symmetric(r, w, h)
  {
    CarveSymmetricRows(g, r, w, h, cur, next);
    CarveSymmetricColumns(g, r, w, h, cur, next);
  }

  lemma CarveSymmetricRows(g: Grid, r: Grid, w: nat, h: nat, cur: Pos, next: Pos)
    requires Shaped(g, w, h) && Shaped(r, w, h) && InGrid(cur, w, h) && InGrid(next, w, h) && Adjacent(cur, next)
    requires forall y, x :: 0 <= y < h && 0 <= x < w - 1 ==> RightAgrees(g, y, x)
    requires At(r, cur) == At(g, cur).(walls := Opened(At(g, cur).walls, cur, next))
    requires At(r, next) == At(g, next).(walls := Opened(At(g, next).walls, next, cur), visited := true)
    requires forall y, x :: 0 <= y < h && 0 <= x < w && Pos(x, y) != cur && Pos(x, y) != next ==> r[y][x] == g[y][x]
    ensures forall y, x :: 0 <= y < h && 0 <= x < w - 1 ==> RightAgrees(r, y, x)
  {
    forall y: int, x: int | 0 <= y < h && 0 <= x < w - 1
      ensures RightAgrees(r, y, x)
    {
      assert RightAgrees(g, y, x);
      var a, b := Pos(x, y), Pos(x + 1, y);
      if (a == cur && b == next) || (a == next && b == cur) {
      } else {
        assert r[y][x].walls.right == g[y][x].walls.right;
        assert r[y][x + 1].walls.left == g[y][x + 1].walls.left;
      }
    }
  }

  lemma CarveSymmetricColumns(g: Grid, r: Grid, w: nat, h: nat, cur: Pos, next: Pos)
    requires Shaped(g, w, h) && Shaped(r, w, h) && InGrid(cur, w, h) && InGrid(next, w, h) && Adjacent(cur, next)
    requires forall y, x :: 0 <= y < h - 1 && 0 <= x < w ==> BottomAgrees(g, y, x)
    requires At(r, cur) == At(g, cur).(walls := Opened(At(g, cur).walls, cur, next))
    requires At(r, next) == At(g, next).(walls := Opened(At(g, next).walls, next, cur), visited := true)
    requires forall y, x :: 0 <= y < h && 0 <= x < w && Pos(x, y) != cur && Pos(x, y) != next ==> r[y][x] == g[y][x]
    ensures forall y, x :: 0 <= y < h - 1 && 0 <= x < w ==> BottomAgrees(r, y, x)
  {
    forall y: int, x: int | 0 <= y < h - 1 && 0 <= x < w
      ensures BottomAgrees(r, y, x)
    {
      assert BottomAgrees(g, y, x);
      var a, b := Pos(x, y), Pos(x, y + 1);
      if (a == cur && b == next) || (a == next && b == cur) {
      } else {
        assert r[y][x].walls.bottom == g[y][x].walls.bottom;
        assert r[y + 1][x].walls.top == g[y + 1][x].walls.top;
      }
    }
  }

  /** Carving never touches the outer wall: both cells lie inside the grid, so
      the wall between them is an inner one. */
  lemma CarvedBoundary(g: Grid, r: Grid, w: nat, h: nat, cur: Pos, next: Pos)
    requires Shaped(g, w, h) && w > 0 && h > 0 && InGrid(cur, w, h) && InGrid(next, w, h) && Adjacent(cur, next)
    requires CarvedFrom(g, r, w, h, cur, next)
    requires Boundary(g, w, h)
    ensures Boundary(r, w, h)
  {
    CarvedTopBottom(g, r, w, h, cur, next);
    CarvedLeftRight(g, r, w, h, cur, next);
  }

  lemma CarvedTopBottom(g: Grid, r: Grid, w: nat, h: nat, cur: Pos, next: Pos)
    requires Shaped(g, w, h) && w > 0 && h > 0 && InGrid(cur, w, h) && InGrid(next, w, h) && Adjacent(cur, next)
    requires CarvedFrom(g, r, w, h, cur, next)
    requires Boundary(g, w, h)
    ensures TopBottom(r, w, h)
  {
    forall x | 0 <= x < w
      ensures r[0][x].walls.top && r[h - 1][x].walls.bottom
    {
      CarvedWalls(g, r, w, h, cur, next, Pos(x, 0));
      CarvedWalls(g, r, w, h, cur, next, Pos(x, h - 1));
    }
  }

  lemma CarvedLeftRight(g: Grid, r: Grid, w: nat, h: nat, cur: Pos, next: Pos)
    requires Shaped(g, w, h) && w > 0 && h > 0 && InGrid(cur, w, h) && InGrid(next, w, h) && Adjacent(cur, next)
    requires CarvedFrom(g, r, w, h, cur, next)
    requires Boundary(g, w, h)
    ensures LeftRight(r, w, h)
  {
    forall y | 0 <= y < h
      ensures r[y][0].walls.left && r[y][w - 1].walls.right
    {
      CarvedWalls(g, r, w, h, cur, next, Pos(0, y));
      CarvedWalls(g, r, w, h, cur, next, Pos(w - 1, y));
    }
  }

  /** A carve only takes down a wall that has a cell of the grid behind it. */
  lemma CarvedWalls(g: Grid, r: Grid, w: nat, h: nat, cur: Pos, next: Pos, p: Pos)
    requires Shaped(g, w, h) && InGrid(cur, w, h) && InGrid(next, w, h) && Adjacent(cur, next)
    requires CarvedFrom(g, r, w, h, cur, next) && InGrid(p, w, h)
    ensures var before, after := g[p.y][p.x].walls, r[p.y][p.x].walls;
            && (before.top && !after.top ==> p.y > 0)
            && (before.right && !after.right ==> p.x < w - 1)
            && (before.bottom && !after.bottom ==> p.y < h - 1)
            && (before.left && !after.left ==> p.x > 0)
  {
    if p != cur && p != next {
      assert r[p.y][p.x] == g[p.y][p.x];
    }
  }

  /** Carving towards an unvisited cell opens exactly one wall that was closed. */
  lemma CarvedEdges(g: Grid, r: Grid, w: nat, h: nat, cur: Pos, next: Pos, edges: set<Edge>)
    requires Shaped(g, w, h) && InGrid(cur, w, h) && InGrid(next, w, h) && Adjacent(cur, next)
    requires CarvedFrom(g, r, w, h, cur, next)
    requires EdgesMatch(g, w, h, edges) && At(g, cur).visited && !At(g, next).visited
    ensures EdgeOf(cur, next) !in edges
    ensures EdgesMatch(r, w, h, edges + {EdgeOf(cur, next)})
  {
    var n := EdgeOf(cur, next);
    CarvedMonotone(g, r, w, h, cur, next);
    forall e | ValidEdge(e, w, h)
      ensures IsOpen(r, w, h, e) <==> IsOpen(g, w, h, e) || e == n
    {
      OpenAfterCarve(g, r, w, h, cur, next, e);
    }
    forall e | e in edges + {n}
      ensures At(r, e.at).visited && At(r, Far(e)).visited
    {
      if e != n {
        assert At(g, e.at).visited && At(g, Far(e)).visited;
        assert Grows(g[e.at.y][e.at.x], r[e.at.y][e.at.x]);
        assert Grows(g[Far(e).y][Far(e).x], r[Far(e).y][Far(e).x]);
      } else {
        assert Grows(g[cur.y][cur.x], r[cur.y][cur.x]);
      }
    }
  }

  /** A wall other than the one between `cur` and `next` is open after the
      carve exactly when it was open before; that one is open after it. */
  lemma OpenAfterCarve(g: Grid, r: Grid, w: nat, h: nat, cur: Pos, next: Pos, e: Edge)
    requires Shaped(g, w, h) && InGrid(cur, w, h) && InGrid(next, w, h) && Adjacent(cur, next)
    requires CarvedFrom(g, r, w, h, cur, next) && ValidEdge(e, w, h)
    ensures IsOpen(r, w, h, e) <==> IsOpen(g, w, h, e) || e == EdgeOf(cur, next)
  {
    if e.at != cur && e.at != next {
      assert r[e.at.y][e.at.x] == g[e.at.y][e.at.x];
    }
  }

  /** The set of unvisited cells loses exactly the carved-to cell. */
  lemma CarvedTracks(g: Grid, r: Grid, w: nat, h: nat, cur: Pos, next: Pos, unvisited: set<Pos>)
    requires Shaped(g, w, h) && InGrid(cur, w, h) && InGrid(next, w, h) && Adjacent(cur, next)
    requires CarvedFrom(g, r, w, h, cur, next)
    requires Tracks(g, w, h, unvisited) && !At(g, next).visited
    ensures next in unvisited
    ensures Tracks(r, w, h, unvisited - {next})
  {
  }

  /** Pushing the carved-to cell keeps every cell off the stack finished. */
  lemma CarvedClosed(g: Grid, r: Grid, w: nat, h: nat, cur: Pos, next: Pos, stack: seq<Pos>)
    requires Shaped(g, w, h) && InGrid(cur, w, h) && InGrid(next, w, h) && Adjacent(cur, next)
    requires CarvedFrom(g, r, w, h, cur, next)
    requires Closed(g, w, h, stack)
    ensures Closed(r, w, h, stack + [next])
  {
    CarvedMonotone(g, r, w, h, cur, next);
    forall y: int, x: int | 0 <= y < h && 0 <= x < w && r[y][x].visited && Pos(x, y) !in stack + [next]
      ensures Finished(r, w, h, y, x)
    {
      assert g[y][x].visited && Pos(x, y) !in stack;
      assert Finished(g, w, h, y, x);
    }
  }

  /** Carving only sets visited flags and only removes walls. */
  lemma CarvedMonotone(g: Grid, r: Grid, w: nat, h: nat, cur: Pos, next: Pos)
    requires Shaped(g, w, h) && InGrid(cur, w, h) && InGrid(next, w, h) && Adjacent(cur, next)
    requires CarvedFrom(g, r, w, h, cur, next)
    ensures forall y, x :: 0 <= y < h && 0 <= x < w ==> Grows(g[y][x], r[y][x])
    ensures forall y, x :: 0 <= y < h && 0 <= x < w && Pos(x, y) != next ==> r[y][x].visited == g[y][x].visited
  {
    forall y: int, x: int | 0 <= y < h && 0 <= x < w
      ensures Grows(g[y][x], r[y][x])
    {
      if Pos(x, y) != cur && Pos(x, y) != next {
        assert r[y][x] == g[y][x];
      }
    }
  }

  /** `after` has every wall of `before` down that `before` had down, and is
      visited whenever `before` is. */
  predicate Grows(before: Cell, after: Cell)
  {
    && (before.visited ==> after.visited)
    && (!before.walls.top ==> !after.walls.top)
    && (!before.walls.right ==> !after.walls.right)
    && (!before.walls.bottom ==> !after.walls.bottom)
    && (!before.walls.left ==> !after.walls.left)
  }

  /** Popping a cell with no unvisited neighbour keeps every cell off the stack finished. */
  lemma PopClosed(g: Grid, w: nat, h: nat, stack: seq<Pos>)
    requires Shaped(g, w, h) && |stack| > 0 && InGrid(stack[|stack| - 1], w, h)
    requires Closed(g, w, h, stack)
    requires UnvisitedNeighbours(g, w, h, stack[|stack| - 1]) == []
    ensures Closed(g, w, h, stack[..|stack| - 1])
  {
    var top := stack[|stack| - 1];
    forall y: int, x: int | 0 <= y < h && 0 <= x < w && g[y][x].visited && Pos(x, y) !in stack[..|stack| - 1]
      ensures && (y > 0 ==> g[y - 1][x].visited)
              && (x < w - 1 ==> g[y][x + 1].visited)
              && (y < h - 1 ==> g[y + 1][x].visited)
              && (x > 0 ==> g[y][x - 1].visited)
    {
      if Pos(x, y) == top {
        assert y > 0 ==> Adjacent(top, Pos(x, y - 1)) && At(g, Pos(x, y - 1)) == g[y - 1][x];
        assert x < w - 1 ==> Adjacent(top, Pos(x + 1, y)) && At(g, Pos(x + 1, y)) == g[y][x + 1];
        assert y < h - 1 ==> Adjacent(top, Pos(x, y + 1)) && At(g, Pos(x, y + 1)) == g[y + 1][x];
        assert x > 0 ==> Adjacent(top, Pos(x - 1, y)) && At(g, Pos(x - 1, y)) == g[y][x - 1];
      } else {
        assert Pos(x, y) !in stack;
      }
    }
  }

  /** The carved-to cell joins the search tree below the current cell. */
  lemma CarvedTree(g: Grid, r: Grid, w: nat, h: nat, cur: Pos, next: Pos, parent: map<Pos, Pos>, depth: map<Pos, nat>)
    requires Shaped(g, w, h) && InGrid(cur, w, h) && InGrid(next, w, h) && Adjacent(cur, next)
    requires CarvedFrom(g, r, w, h, cur, next)
    requires Tree(g, w, h, parent, depth) && At(g, cur).visited && !At(g, next).visited
    ensures Tree(r, w, h, parent[next := cur], depth[next := depth[cur] + 1])
  {
    CarvedMonotone(g, r, w, h, cur, next);
    var parent', depth' := parent[next := cur], depth[next := depth[cur] + 1];
    assert next !in depth && next != Origin;
    CarvedParents(g, r, w, h, cur, next, parent, depth, parent', depth');
    CarvedDepths(g, r, w, h, cur, next, depth, depth');
  }

  /** Every recorded parent step stays open after carving, and the new step
      from `cur` to `next` is open. */
  lemma CarvedParents(g: Grid, r: Grid, w: nat, h: nat, cur: Pos, next: Pos, parent: map<Pos, Pos>, depth: map<Pos, nat>,
                      parent': map<Pos, Pos>, depth': map<Pos, nat>)
    requires Shaped(g, w, h) && InGrid(cur, w, h) && InGrid(next, w, h) && Adjacent(cur, next)
    requires CarvedFrom(g, r, w, h, cur, next)
    requires forall y, x :: 0 <= y < h && 0 <= x < w ==> Grows(g[y][x], r[y][x])
    requires Tree(g, w, h, parent, depth) && At(g, cur).visited && !At(g, next).visited
    requires parent' == parent[next := cur] && depth' == depth[next := depth[cur] + 1]
    ensures Links(r, w, h, parent', depth')
  {
    assert next !in depth;
    forall p | p in parent'
      ensures p in depth' && parent'[p] in depth' && depth'[parent'[p]] < depth'[p]
      ensures CanStep(r, w, h, parent'[p], p)
    {
      if p != next {
        var a := parent[p];
        assert a != next && parent'[p] == a;
        assert CanStep(g, w, h, a, p);
        assert Grows(g[a.y][a.x], r[a.y][a.x]);
      } else {
        assert r[cur.y][cur.x].walls == Opened(g[cur.y][cur.x].walls, cur, next);
      }
    }
  }

  /** The depth map covers exactly the visited cells after carving. */
  lemma CarvedDepths(g: Grid, r: Grid, w: nat, h: nat, cur: Pos, next: Pos, depth: map<Pos, nat>, depth': map<Pos, nat>)
    requires Shaped(g, w, h) && InGrid(cur, w, h) && InGrid(next, w, h) && Adjacent(cur, next)
    requires CarvedFrom(g, r, w, h, cur, next)
    requires forall y, x :: 0 <= y < h && 0 <= x < w ==> Grows(g[y][x], r[y][x])
    requires forall y, x :: 0 <= y < h && 0 <= x < w && Pos(x, y) != next ==> r[y][x].visited == g[y][x].visited
    requires DepthCovers(g, w, h, depth)
    requires cur in depth && depth' == depth[next := depth[cur] + 1]
    ensures DepthCovers(r, w, h, depth')
  {
    forall p | p in depth'
      ensures InGrid(p, w, h) && At(r, p).visited
    {
      if p != next {
        assert Grows(g[p.y][p.x], r[p.y][p.x]);
      }
    }
    forall y: int, x: int | 0 <= y < h && 0 <= x < w && r[y][x].visited
      ensures Pos(x, y) in depth'
    {
      if Pos(x, y) != next {
        assert g[y][x].visited;
      }
    }
  }

  /** With the stack empty and the origin visited, every cell is visited:
      each cell's left or upper neighbour is finished, so it was reached. */
  lemma {:induction false} VisitedEverywhere(g: Grid, w: nat, h: nat, x: int, y: int)
    requires Shaped(g, w, h) && Closed(g, w, h, []) && 0 <= x < w && 0 <= y < h
    requires g[0][0].visited
    ensures g[y][x].visited
    decreases x + y
  {
    if x > 0 {
      VisitedEverywhere(g, w, h, x - 1, y);
      assert Finished(g, w, h, y, x - 1);
    } else if y > 0 {
      VisitedEverywhere(g, w, h, x, y - 1);
      assert Finished(g, w, h, y - 1, x);
    }
  }

  /** Following the recorded parents back to the origin gives a walk through
      open walls from the origin to any cell of the tree. */
  lemma {:induction false} PathFromOrigin(g: Grid, w: nat, h: nat, parent: map<Pos, Pos>, depth: map<Pos, nat>, p: Pos)
    returns (path: seq<Pos>)
    requires Shaped(g, w, h) && Tree(g, w, h, parent, depth) && p in depth
    ensures IsWalk(g, w, h, path) && path[0] == Origin && path[|path| - 1] == p
    decreases depth[p]
  {
    if p == Origin {
      path := [Origin];
    } else {
      var q := parent[p];
      var prefix := PathFromOrigin(g, w, h, parent, depth, q);
      path := prefix + [p];
      forall i | 0 <= i < |path| - 1
        ensures CanStep(g, w, h, path[i], path[i + 1])
      {
        if i < |prefix| - 1 {
          assert path[i] == prefix[i] && path[i + 1] == prefix[i + 1];
        } else {
          assert path[i] == q && path[i + 1] == p;
        }
      }
    }
  }

  /** The array `m` holds the grid value `g`. */
  ghost predicate Holds(m: array2<Cell>, g: Grid)
    reads m
  {
    && m.Length0 == |g|
    && (forall y :: 0 <= y < |g| ==> |g[y]| == m.Length1)
    && (forall y, x :: 0 <= y < m.Length0 && 0 <= x < m.Length1 ==> m[y, x] == g[y][x])
  }

  /** The two nested `for` loops: every cell with its coordinates, all four
      walls and not visited. */
  method NewGrid(w: nat, h: nat) returns (m: array2<Cell>)
    ensures fresh(m) && m.Length0 == h && m.Length1 == w && Holds(m, Fresh(w, h))
  {
    m := new Cell[h, w];
    for y := 0 to h
      invariant forall i, j :: 0 <= i < y && 0 <= j < w ==> m[i, j] == Cell(j, i, AllWalls, false)
    {
      for x := 0 to w
        invariant forall i, j :: 0 <= i < y && 0 <= j < w ==> m[i, j] == Cell(j, i, AllWalls, false)
        invariant forall j :: 0 <= j < x ==> m[y, j] == Cell(j, y, AllWalls, false)
      {
        m[y, x] := Cell(x, y, AllWalls, false);
      }
    }
  }

  /** The wall removal and `next.visited = true`, in place on the array. */
  method CarveInPlace(m: array2<Cell>, ghost g: Grid, w: nat, h: nat, cur: Pos, next: Pos)
    requires Shaped(g, w, h) && Holds(m, g)
    requires InGrid(cur, w, h) && InGrid(next, w, h) && Adjacent(cur, next)
    modifies m
    ensures Holds(m, Carve(g, w, h, cur, next))
  {
    assert |g[cur.y]| == m.Length1;
    var c := m[cur.y, cur.x];
    var n := m[next.y, next.x];
    if next.y < cur.y {
      c := c.(walls := c.walls.(top := false));
      n := n.(walls := n.walls.(bottom := false));
    }
    if next.x > cur.x {
      c := c.(walls := c.walls.(right := false));
      n := n.(walls := n.walls.(left := false));
    }
    if next.y > cur.y {
      c := c.(walls := c.walls.(bottom := false));
      n := n.(walls := n.walls.(top := false));
    }
    if next.x < cur.x {
      c := c.(walls := c.walls.(left := false));
      n := n.(walls := n.walls.(right := false));
    }
    m[cur.y, cur.x] := c;
    m[next.y, next.x] := n.(visited := true);
    CarveChanges(g, w, h, cur, next);
    HoldsCarved(m, g, Carve(g, w, h, cur, next), w, h, cur, next);
  }

  /** An array that holds the carved grid at the two touched cells and the
      old grid everywhere else holds the carved grid. */
  lemma HoldsCarved(m: array2<Cell>, g: Grid, r: Grid, w: nat, h: nat, cur: Pos, next: Pos)
    requires Shaped(g, w, h) && InGrid(cur, w, h) && InGrid(next, w, h)
    requires CarvedFrom(g, r, w, h, cur, next)
    requires m.Length0 == h && m.Length1 == w
    requires m[cur.y, cur.x] == At(r, cur) && m[next.y, next.x] == At(r, next)
    requires forall y, x :: 0 <= y < h && 0 <= x < w && Pos(x, y) != cur && Pos(x, y) != next ==> m[y, x] == g[y][x]
    ensures Holds(m, r)
  {
  }

  /** What holds of the search state before each iteration: the grid keeps
      its shape, agreeing walls and outer wall; the stack holds visited cells;
      cells off the stack are finished; `unvisited`, `edges` and the search
      tree describe the grid; and every cell is either unvisited or the far
      end of one removed wall, except the origin. */
  ghost predicate Searching(g: Grid, w: nat, h: nat, stack: seq<Pos>, unvisited: set<Pos>, edges: set<Edge>,
                            parent: map<Pos, Pos>, depth: map<Pos, nat>, total: nat)
  {
    && w > 0 && h > 0 && Shaped(g, w, h)
    && Symmetric(g, w, h) && Boundary(g, w, h)
    && (forall i :: 0 <= i < |stack| ==> InGrid(stack[i], w, h) && At(g, stack[i]).visited)
    && g[0][0].visited
    && Closed(g, w, h, stack)
    && Tracks(g, w, h, unvisited)
    && EdgesMatch(g, w, h, edges)
    && |edges| + |unvisited| + 1 == total
    && Tree(g, w, h, parent, depth)
  }

  /** One carve step keeps the search state and shrinks the unvisited set:
      `r` is the grid after carving from the top of the stack into `next`. */
  lemma PushKeeps(g: Grid, r: Grid, w: nat, h: nat, stack: seq<Pos>, unvisited: set<Pos>, edges: set<Edge>,
                  parent: map<Pos, Pos>, depth: map<Pos, nat>, total: nat, cur: Pos, next: Pos)
    requires Searching(g, w, h, stack, unvisited, edges, parent, depth, total)
    requires |stack| > 0 && cur == stack[|stack| - 1]
    requires next in UnvisitedNeighbours(g, w, h, cur)
    requires CarvedFrom(g, r, w, h, cur, next)
    ensures next in unvisited && Adjacent(cur, next) && cur in depth
    ensures Searching(r, w, h, stack + [next], unvisited - {next},
                      edges + {EdgeOf(cur, next)}, parent[next := cur], depth[next := depth[cur] + 1], total)
  {
    var e := EdgeOf(cur, next);
    PushShape(g, r, w, h, stack, unvisited, edges, parent, depth, total, cur, next);
    PushRecords(g, r, w, h, unvisited, edges, total, cur, next);
    assert cur == Pos(cur.x, cur.y) && cur in depth;
    CarvedTree(g, r, w, h, cur, next, parent, depth);
    SearchingIntro(r, w, h, stack + [next], unvisited - {next}, edges + {e},
                   parent[next := cur], depth[next := depth[cur] + 1], total);
  }

  /** The grid half of `PushKeeps`: walls, outer wall, stack and closed cells. */
  lemma PushShape(g: Grid, r: Grid, w: nat, h: nat, stack: seq<Pos>, unvisited: set<Pos>, edges: set<Edge>,
                  parent: map<Pos, Pos>, depth: map<Pos, nat>, total: nat, cur: Pos, next: Pos)
    requires Searching(g, w, h, stack, unvisited, edges, parent, depth, total)
    requires |stack| > 0 && cur == stack[|stack| - 1]
    requires next in UnvisitedNeighbours(g, w, h, cur)
    requires CarvedFrom(g, r, w, h, cur, next)
    ensures Adjacent(cur, next) && Shaped(r, w, h)
    ensures Symmetric(r, w, h) && Boundary(r, w, h) && Closed(r, w, h, stack + [next])
    ensures forall i :: 0 <= i < |stack + [next]| ==> InGrid((stack + [next])[i], w, h) && At(r, (stack + [next])[i]).visited
    ensures r[0][0].visited
  {
    CarvedSymmetric(g, r, w, h, cur, next);
    CarvedBoundary(g, r, w, h, cur, next);
    CarvedClosed(g, r, w, h, cur, next, stack);
    CarvedStack(g, r, w, h, cur, next, stack);
  }

  /** The bookkeeping part of `PushKeeps`: the unvisited set, the removed
      walls and their count. */
  lemma PushRecords(g: Grid, r: Grid, w: nat, h: nat, unvisited: set<Pos>, edges: set<Edge>,
                    total: nat, cur: Pos, next: Pos)
    requires Shaped(g, w, h) && InGrid(cur, w, h) && At(g, cur).visited
    requires next in UnvisitedNeighbours(g, w, h, cur)
    requires CarvedFrom(g, r, w, h, cur, next)
    requires Tracks(g, w, h, unvisited) && EdgesMatch(g, w, h, edges)
    requires |edges| + |unvisited| + 1 == total
    ensures next in unvisited && Adjacent(cur, next) && Shaped(r, w, h)
    ensures Tracks(r, w, h, unvisited - {next})
    ensures EdgesMatch(r, w, h, edges + {EdgeOf(cur, next)})
    ensures |edges + {EdgeOf(cur, next)}| + |unvisited - {next}| + 1 == total
  {
    var e := EdgeOf(cur, next);
    CarvedTracks(g, r, w, h, cur, next, unvisited);
    assert |unvisited - {next}| == |unvisited| - 1;
    CarvedEdges(g, r, w, h, cur, next, edges);
    assert |edges + {e}| == |edges| + 1;
  }

  /** Assembles `Searching` from its parts. */
  lemma SearchingIntro(g: Grid, w: nat, h: nat, stack: seq<Pos>, unvisited: set<Pos>, edges: set<Edge>,
                       parent: map<Pos, Pos>, depth: map<Pos, nat>, total: nat)
    requires w > 0 && h > 0 && Shaped(g, w, h)
    requires Symmetric(g, w, h) && Boundary(g, w, h)
    requires forall i :: 0 <= i < |stack| ==> InGrid(stack[i], w, h) && At(g, stack[i]).visited
    requires g[0][0].visited
    requires Closed(g, w, h, stack)
    requires Tracks(g, w, h, unvisited)
    requires EdgesMatch(g, w, h, edges)
    requires |edges| + |unvisited| + 1 == total
    requires Tree(g, w, h, parent, depth)
    ensures Searching(g, w, h, stack, unvisited, edges, parent, depth, total)
  {
  }

  /** Popping a cell with no unvisited neighbour keeps the search state. */
  lemma PopKeeps(g: Grid, w: nat, h: nat, stack: seq<Pos>, unvisited: set<Pos>, edges: set<Edge>,
                 parent: map<Pos, Pos>, depth: map<Pos, nat>, total: nat)
    requires Searching(g, w, h, stack, unvisited, edges, parent, depth, total) && |stack| > 0
    requires UnvisitedNeighbours(g, w, h, stack[|stack| - 1]) == []
    ensures Searching(g, w, h, stack[..|stack| - 1], unvisited, edges, parent, depth, total)
  {
    PopClosed(g, w, h, stack);
  }

  /** When the stack is empty every cell has been visited. */
  lemma SearchDoneVisited(g: Grid, w: nat, h: nat, unvisited: set<Pos>)
    requires w > 0 && h > 0 && Shaped(g, w, h) && g[0][0].visited
    requires Closed(g, w, h, []) && Tracks(g, w, h, unvisited)
    ensures forall y, x :: 0 <= y < h && 0 <= x < w ==> g[y][x].visited
    ensures unvisited == {}
  {
    forall y: int, x: int | 0 <= y < h && 0 <= x < w
      ensures g[y][x].visited
    {
      VisitedEverywhere(g, w, h, x, y);
    }
    assert unvisited == {} by {
      forall p | p in unvisited
        ensures false
      {
      }
    }
  }

  /** When the stack is empty every cell is reachable from the origin. */
  lemma SearchDoneReachable(g: Grid, w: nat, h: nat, parent: map<Pos, Pos>, depth: map<Pos, nat>)
    requires Shaped(g, w, h) && Tree(g, w, h, parent, depth)
    requires forall y, x :: 0 <= y < h && 0 <= x < w ==> g[y][x].visited
    ensures forall p :: InGrid(p, w, h) ==> exists path :: IsWalk(g, w, h, path) && path[0] == Origin && path[|path| - 1] == p
  {
    forall p | InGrid(p, w, h)
      ensures exists path :: IsWalk(g, w, h, path) && path[0] == Origin && path[|path| - 1] == p
    {
      assert g[p.y][p.x].visited;
      var path := PathFromOrigin(g, w, h, parent, depth, p);
    }
  }

  /** The unvisited neighbours of the cell at `cur`, read from the array in
      the order up, right, down, left. */
  method Neighbours(m: array2<Cell>, ghost g: Grid, w: nat, h: nat, cur: Pos) returns (neighbours: seq<Pos>)
    requires Shaped(g, w, h) && Holds(m, g) && InGrid(cur, w, h)
    ensures neighbours == UnvisitedNeighbours(g, w, h, cur)
  {
    assert |g[cur.y]| == m.Length1;
    ghost var expected := UnvisitedNeighbours(g, w, h, cur);
    neighbours := [];
    if cur.y > 0 && !m[cur.y - 1, cur.x].visited {
      neighbours := neighbours + [Pos(cur.x, cur.y - 1)];
    }
    if cur.x < w - 1 && !m[cur.y, cur.x + 1].visited {
      neighbours := neighbours + [Pos(cur.x + 1, cur.y)];
    }
    if cur.y < h - 1 && !m[cur.y + 1, cur.x].visited {
      neighbours := neighbours + [Pos(cur.x, cur.y + 1)];
    }
    if cur.x > 0 && !m[cur.y, cur.x - 1].visited {
      neighbours := neighbours + [Pos(cur.x - 1, cur.y)];
    }
  }

  /** The set-up before the loop: a fresh grid with the origin marked
      visited and pushed. */
  method StartSearch(w: nat, h: nat)
    returns (m: array2<Cell>, ghost g: Grid, stack: seq<Pos>, ghost unvisited: set<Pos>,
             ghost parent: map<Pos, Pos>, ghost depth: map<Pos, nat>)
    requires w > 0 && h > 0
    ensures fresh(m) && Holds(m, g) && stack == [Origin]
    ensures Searching(g, w, h, stack, unvisited, {}, parent, depth, w * h)
  {
    m := NewGrid(w, h);
    ghost var g0 := Fresh(w, h);
    g := Put(g0, Origin, At(g0, Origin).(visited := true));
    m[0, 0] := m[0, 0].(visited := true);
    stack := [Origin];
    unvisited := Cells(w, h) - {Origin};
    parent := map[];
    depth := map[Origin := 0];
    StartInvariants(g, w, h, unvisited);
    SearchingIntro(g, w, h, stack, unvisited, {}, parent, depth, w * h);
  }

  /** One iteration of the `while (stack.length > 0)` loop: carve from the
      top of the stack into the unvisited neighbour that `draw` picks, or pop
      the top when it has none. */
  method Advance(m: array2<Cell>, ghost g: Grid, w: nat, h: nat, stack: seq<Pos>, ghost unvisited: set<Pos>,
                 ghost edges: set<Edge>, ghost parent: map<Pos, Pos>, ghost depth: map<Pos, nat>, ghost total: nat,
                 draw: nat)
    returns (ghost g': Grid, stack': seq<Pos>, ghost unvisited': set<Pos>, ghost edges': set<Edge>,
             ghost parent': map<Pos, Pos>, ghost depth': map<Pos, nat>)
    requires Holds(m, g) && Searching(g, w, h, stack, unvisited, edges, parent, depth, total) && |stack| > 0
    modifies m
    ensures Holds(m, g') && Searching(g', w, h, stack', unvisited', edges', parent', depth', total)
    ensures 2 * |unvisited'| + |stack'| < 2 * |unvisited| + |stack|
  {
    var cur := stack[|stack| - 1];
    var neighbours := Neighbours(m, g, w, h, cur);
    if |neighbours| > 0 {
      var next := neighbours[draw % |neighbours|];
      g' := Carve(g, w, h, cur, next);
      CarveChanges(g, w, h, cur, next);
      PushKeeps(g, g', w, h, stack, unvisited, edges, parent, depth, total, cur, next);
      CarveInPlace(m, g, w, h, cur, next);
      stack' := stack + [next];
      unvisited' := unvisited - {next};
      edges' := edges + {EdgeOf(cur, next)};
      parent' := parent[next := cur];
      depth' := depth[next := depth[cur] + 1];
    } else {
      PopKeeps(g, w, h, stack, unvisited, edges, parent, depth, total);
      g', stack', unvisited', edges', parent', depth' := g, stack[..|stack| - 1], unvisited, edges, parent, depth;
    }
  }

  /** `generateMaze`: the randomised depth-first carve. `draws(i)` is the
      random number behind the neighbour chosen at iteration i, so every
      choice among the unvisited neighbours can occur. The result has every
      cell visited, neighbouring walls in agreement, the outer wall intact,
      exactly w * h - 1 walls removed, and every cell reachable from (0, 0)
      through removed walls: the removed walls form a spanning tree. */
  method GenerateMaze(w: nat, h: nat, draws: nat -> nat) returns (m: array2<Cell>, ghost g: Grid, ghost edges: set<Edge>)
    requires w > 0 && h > 0
    ensures fresh(m) && Holds(m, g)
    ensures Shaped(g, w, h) && Symmetric(g, w, h) && Boundary(g, w, h)
    ensures forall y, x :: 0 <= y < h && 0 <= x < w ==> g[y][x].visited
    ensures EdgesMatch(g, w, h, edges) && |edges| == w * h - 1
    ensures forall p :: InGrid(p, w, h) ==> exists path :: IsWalk(g, w, h, path) && path[0] == Origin && path[|path| - 1] == p
  {
    var stack;
    ghost var unvisited, parent, depth;
    m, g, stack, unvisited, parent, depth := StartSearch(w, h);
    edges := {};
    var step: nat := 0;
    while |stack| > 0
      invariant fresh(m)
      invariant Holds(m, g) && Searching(g, w, h, stack, unvisited, edges, parent, depth, w * h)
      decreases 2 * |unvisited| + |stack|
    {
      g, stack, unvisited, edges, parent, depth := Advance(m, g, w, h, stack, unvisited, edges, parent, depth, w * h, draws(step));
      step := step + 1;
    }
    SearchDoneVisited(g, w, h, unvisited);
    SearchDoneReachable(g, w, h, parent, depth);
  }

  /** Carving keeps the stack made of visited cells of the grid, and the origin visited. */
  lemma CarvedStack(g: Grid, r: Grid, w: nat, h: nat, cur: Pos, next: Pos, stack: seq<Pos>)
    requires Shaped(g, w, h) && InGrid(cur, w, h) && InGrid(next, w, h) && Adjacent(cur, next)
    requires CarvedFrom(g, r, w, h, cur, next)
    requires forall i :: 0 <= i < |stack| ==> InGrid(stack[i], w, h) && At(g, stack[i]).visited
    requires g[0][0].visited
    ensures && (forall i :: 0 <= i < |stack + [next]| ==> InGrid((stack + [next])[i], w, h) && At(r, (stack + [next])[i]).visited)
            && r[0][0].visited
  {
    CarvedMonotone(g, r, w, h, cur, next);
    forall i | 0 <= i < |stack|
      ensures At(r, stack[i]).visited
    {
      var p := stack[i];
      assert Grows(g[p.y][p.x], r[p.y][p.x]);
    }
    assert Grows(g[0][0], r[0][0]);
  }

  /** The state right after the origin is marked visited and pushed. */
  lemma StartInvariants(g: Grid, w: nat, h: nat, unvisited: set<Pos>)
    requires w > 0 && h > 0
    requires g == Put(Fresh(w, h), Origin, At(Fresh(w, h), Origin).(visited := true))
    requires unvisited == Cells(w, h) - {Origin}
    ensures Shaped(g, w, h) && Symmetric(g, w, h) && Boundary(g, w, h) && g[0][0].visited
    ensures Closed(g, w, h, [Origin])
    ensures Tracks(g, w, h, unvisited)
    ensures EdgesMatch(g, w, h, {})
    ensures |unvisited| + 1 == w * h
    ensures Tree(g, w, h, map[], map[Origin := 0])
  {
    StartCells(g, w, h);
    StartCount(w, h, unvisited);
    forall y: int, x: int | 0 <= y < h && 0 <= x < w
      ensures Pos(x, y) in unvisited <==> !g[y][x].visited
    {
      assert Pos(x, y) in Cells(w, h);
    }
    forall y: int, x: int | 0 <= y < h && 0 <= x < w - 1
      ensures RightAgrees(g, y, x)
    {
      assert g[y][x].walls == AllWalls && g[y][x + 1].walls == AllWalls;
    }
    forall y: int, x: int | 0 <= y < h - 1 && 0 <= x < w
      ensures BottomAgrees(g, y, x)
    {
      assert g[y][x].walls == AllWalls && g[y + 1][x].walls == AllWalls;
    }
    forall e | ValidEdge(e, w, h)
      ensures !IsOpen(g, w, h, e)
    {
      assert g[e.at.y][e.at.x].walls == AllWalls;
    }
  }

  /** Right after the start every wall stands and only the origin is visited. */
  lemma StartCells(g: Grid, w: nat, h: nat)
    requires w > 0 && h > 0
    requires g == Put(Fresh(w, h), Origin, At(Fresh(w, h), Origin).(visited := true))
    ensures Shaped(g, w, h)
    ensures forall y, x :: 0 <= y < h && 0 <= x < w ==> g[y][x].walls == AllWalls && (g[y][x].visited <==> Pos(x, y) == Origin)
  {
  }

  lemma StartCount(w: nat, h: nat, unvisited: set<Pos>)
    requires w > 0 && h > 0 && unvisited == Cells(w, h) - {Origin}
    ensures |unvisited| + 1 == w * h
  {
    CellsSize(w, h);
    assert Origin in Cells(w, h);
  }
}
