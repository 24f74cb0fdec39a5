/** The maze game: five levels, each a freshly generated square maze that
    grows with the level; the player walks from the top-left cell to the
    bottom-right one, and each arrival scores more the fewer moves it took. */
module MazeGame {
  import opened Common
  import opened Store
  import opened MazeGrid

  /** Arriving at the exit on this level ends the game. */
  const LastLevel: nat := 5

  function BaseSize(d: Difficulty): nat
  {
    match d
    case Easy => 5
    case Normal => 7
    case Hard => 10
  }

  /** `getMazeSize`: the side of the square maze. */
  function MazeSize(d: Difficulty, level: nat): (side: nat)
    requires level >= 1
    ensures side >= 5 && side - level == BaseSize(d) - 1
  {
    BaseSize(d) + level - 1
  }

  /** Each level's maze is one cell wider than the last, and harder
      settings start larger. */
  lemma MazeSizeGrows(d: Difficulty, level: nat)
    requires level >= 1
    ensures MazeSize(d, level + 1) == MazeSize(d, level) + 1
    ensures MazeSize(Easy, level) < MazeSize(Normal, level) < MazeSize(Hard, level)
  {
  }

  datatype Direction = Up | Down | Left | Right

  /** The cell one step from `p` in direction `dir`. */
  function Target(p: Pos, dir: Direction): (q: Pos)
    ensures Adjacent(p, q)
  {
    match dir
    case Up => Pos(p.x, p.y - 1)
    case Down => Pos(p.x, p.y + 1)
    case Left => Pos(p.x - 1, p.y)
    case Right => Pos(p.x + 1, p.y)
  }

  /** The wall of `c` that faces direction `dir`. */
  function Facing(c: Walls, dir: Direction): bool
  {
    match dir
    case Up => c.top
    case Down => c.bottom
    case Left => c.left
    case Right => c.right
  }

  /** The score for reaching the exit after `moves` earlier moves on `level`. */
  function LevelScore(moves: nat, level: nat): (points: int)
    ensures 20 + 10 * level <= points <= 100 + 10 * level
  {
    Max(100 - moves * 2, 20) + level * 10
  }

  /** Fewer moves never score less, and from 40 moves on every arrival scores the floor. */
  lemma LevelScoreMonotone(fewer: nat, more: nat, level: nat)
    requires fewer <= more
    ensures LevelScore(more, level) <= LevelScore(fewer, level)
    ensures more >= 40 ==> LevelScore(more, level) == 20 + 10 * level
  {
  }

  /** The component's state. `maze` is None until the first maze is generated. */
  datatype Game = Game(difficulty: Difficulty, maze: Option<Grid>, pos: Pos, score: int,
                       level: nat, gameOver: bool, moves: nat)

  function Side(s: Game): nat
    requires s.level >= 1
  {
    MazeSize(s.difficulty, s.level)
  }

  /** The maze, when there is one, has the size the level asks for, and the
      player stands inside it. */
  predicate Consistent(s: Game)
  {
    && s.level >= 1
    && (s.maze.Some? ==> Shaped(s.maze.value, Side(s), Side(s)) && InGrid(s.pos, Side(s), Side(s)))
  }

  /** A maze as the generator leaves it: walls in agreement, outer wall
      intact, every cell reachable from the top-left cell. */
  ghost predicate WellCarved(g: Grid, side: nat)
  {
    && side > 0 && Shaped(g, side, side) && Symmetric(g, side, side) && Boundary(g, side, side)
    && forall p :: InGrid(p, side, side) ==> exists path :: IsWalk(g, side, side, path) && path[0] == Origin && path[|path| - 1] == p
  }

  /** `movePlayer`: ignored before the first maze or after the game ends;
      blocked by the wall of the current cell in that direction or by the
      edge of the grid; otherwise one move. Reaching the exit adds the level
      score (computed from the moves made before this one); on the last
      level that ends the game and records the score, otherwise the level
      goes up and a new maze is due (see `Press`). */
  function MovePlayer(s: Game, dir: Direction, store: State, now: string): (r: (Game, State))
    requires Consistent(s)
    ensures s.maze.None? || s.gameOver ==> r == (s, store)
    ensures r.0.difficulty == s.difficulty && r.0.maze == s.maze && r.0.score >= s.score
    ensures r.0.pos == s.pos || (r.0.pos == Target(s.pos, dir) && r.0.moves == s.moves + 1)
    ensures r.0.level == s.level || r.0.level == s.level + 1
  {
    if s.maze.None? || s.gameOver then (s, store)
    else
      var g := s.maze.value;
      var side := Side(s);
      var next := Target(s.pos, dir);
      if Facing(g[s.pos.y][s.pos.x].walls, dir) then (s, store)
      else if !InGrid(next, side, side) then (s, store)
      else
        var moved := s.(pos := next, moves := s.moves + 1);
        if next != Pos(side - 1, side - 1) then (moved, store)
        else
          var newScore := s.score + LevelScore(s.moves, s.level);
          if s.level >= LastLevel then
            (moved.(score := newScore, gameOver := true), RecordSession(store, MazeGame, newScore, now))
          else
            (moved.(score := newScore, level := s.level + 1), store)
  }

  /** A move changes the position exactly when the wall between the two
      cells is down: the guards of `movePlayer` agree with the walk relation
      the generator's reachability is stated in. The store changes only when
      the last level is finished. */
  lemma MoveFollowsWalls(s: Game, dir: Direction, store: State, now: string)
    requires Consistent(s) && s.maze.Some? && !s.gameOver
    ensures var (r, store') := MovePlayer(s, dir, store, now);
            && (r.pos != s.pos <==> CanStep(s.maze.value, Side(s), Side(s), s.pos, Target(s.pos, dir)))
            && (r.pos != s.pos ==> r.pos == Target(s.pos, dir) && r.moves == s.moves + 1)
            && (r.pos == s.pos ==> r == s && store' == store)
            && (store' != store ==> r.gameOver && s.level >= LastLevel)
  {
  }

  /** With the outer wall intact the grid-edge guard never fires: every move
      the walls allow stays inside the maze. */
  lemma EdgeGuardRedundant(g: Grid, side: nat, p: Pos, dir: Direction)
    requires side > 0 && Shaped(g, side, side) && Boundary(g, side, side) && InGrid(p, side, side)
    requires !Facing(g[p.y][p.x].walls, dir)
    ensures InGrid(Target(p, dir), side, side)
  {
    assert g[0][p.x].walls.top && g[side - 1][p.x].walls.bottom;
    assert g[p.y][0].walls.left && g[p.y][side - 1].walls.right;
  }

  /** Every step of a walk is a key press: for two cells with the wall
      between them down there is a direction that moves the player across. */
  lemma StepIsMove(s: Game, b: Pos, store: State, now: string) returns (dir: Direction)
    requires Consistent(s) && s.maze.Some? && !s.gameOver
    requires CanStep(s.maze.value, Side(s), Side(s), s.pos, b)
    ensures Target(s.pos, dir) == b && MovePlayer(s, dir, store, now).0.pos == b
  {
    var a := s.pos;
    if b == Pos(a.x, a.y - 1) && !s.maze.value[a.y][a.x].walls.top {
      dir := Up;
    } else if b == Pos(a.x + 1, a.y) && !s.maze.value[a.y][a.x].walls.right {
      dir := Right;
    } else if b == Pos(a.x, a.y + 1) && !s.maze.value[a.y][a.x].walls.bottom {
      dir := Down;
    } else {
      dir := Left;
    }
    MoveFollowsWalls(s, dir, store, now);
  }

  /** Arriving at the exit scores the level score on top of the old score;
      the last level ends the game and records that total. */
  lemma ArrivalScores(s: Game, dir: Direction, store: State, now: string)
    requires Consistent(s) && s.maze.Some? && !s.gameOver
    requires CanStep(s.maze.value, Side(s), Side(s), s.pos, Target(s.pos, dir))
    requires Target(s.pos, dir) == Pos(Side(s) - 1, Side(s) - 1)
    ensures var (r, store') := MovePlayer(s, dir, store, now);
            && r.score == s.score + LevelScore(s.moves, s.level)
            && r.score >= s.score + 20 + 10 * s.level
            && (s.level >= LastLevel ==> r.gameOver && store'.recentGames[0] == GameResult(MazeGame, r.score, now)
                                          && store'.highScores.Get(MazeGame) >= r.score)
            && (s.level < LastLevel ==> !r.gameOver && r.level == s.level + 1 && store' == store)
  {
  }

  /** A move away from the exit keeps the level and the score, and keeps the
      state consistent. */
  lemma MoveKeepsLevel(s: Game, dir: Direction, store: State, now: string)
    requires Consistent(s)
    ensures var (r, _) := MovePlayer(s, dir, store, now);
            && r.score >= s.score && r.difficulty == s.difficulty && r.maze == s.maze
            && (r.level == s.level ==> Consistent(r) && (r.score == s.score || r.gameOver))
            && (r.level != s.level ==> r.level == s.level + 1 && r.level <= LastLevel)
  {
  }

  /** Once the game is over no move changes anything. */
  lemma OverIsFinal(s: Game, dir: Direction, store: State, now: string)
    requires Consistent(s) && s.gameOver
    ensures MovePlayer(s, dir, store, now) == (s, store)
  {
  }

  /** Copies the maze out of the array the generator filled. */
  method Snapshot(m: array2<Cell>, ghost g: Grid) returns (v: Grid)
    requires Holds(m, g)
    ensures v == g
  {
    v := [];
    for y := 0 to m.Length0
      invariant |v| == y && forall i :: 0 <= i < y ==> v[i] == g[i]
    {
      var row := [];
      for x := 0 to m.Length1
        invariant row == g[y][..x]
      {
        row := row + [m[y, x]];
      }
      assert row == g[y];
      v := v + [row];
    }
  }

  /** `initMaze`: a new maze of the level's size, the player back at the
      top-left cell, the move count reset. */
  method InitMaze(s: Game, draws: nat -> nat) returns (r: Game)
    requires s.level >= 1
    ensures r == s.(maze := r.maze, pos := Origin, moves := 0)
    ensures Consistent(r) && r.maze.Some? && WellCarved(r.maze.value, Side(r))
  {
    var side := MazeSize(s.difficulty, s.level);
    var m, g, edges := GenerateMaze(side, side, draws);
    var v := Snapshot(m, g);
    r := s.(maze := Some(v), pos := Origin, moves := 0);
  }

  /** A key press: `movePlayer`, then, when it raised the level, the effect
      that generates the next maze. */
  method Press(s: Game, dir: Direction, store: State, now: string, draws: nat -> nat) returns (r: Game, store': State)
    requires Consistent(s)
    ensures var (moved, st) := MovePlayer(s, dir, store, now);
            && store' == st
            && (moved.level == s.level ==> r == moved)
            && (moved.level != s.level ==> r == moved.(maze := r.maze, pos := Origin, moves := 0) && r.maze.Some?
                                           && WellCarved(r.maze.value, Side(r)))
    ensures Consistent(r)
  {
    var moved: Game;
    moved, store' := MovePlayer(s, dir, store, now).0, MovePlayer(s, dir, store, now).1;
    MoveKeepsLevel(s, dir, store, now);
    if moved.level != s.level {
      r := InitMaze(moved, draws);
    } else {
      r := moved;
    }
  }

  /** `handleRestart`: score and level back to their start, game running, and a
      new maze for level 1. */
  method Restart(s: Game, draws: nat -> nat) returns (r: Game)
    ensures r.difficulty == s.difficulty && r.score == 0 && r.level == 1 && !r.gameOver
    ensures r.pos == Origin && r.moves == 0
    ensures Consistent(r) && r.maze.Some? && WellCarved(r.maze.value, MazeSize(r.difficulty, 1))
  {
    r := InitMaze(s.(score := 0, level := 1, gameOver := false), draws);
  }

  /** A new game: difficulty from the settings, before any maze exists. */
  function Start(d: Difficulty): (s: Game)
    ensures Consistent(s) && s.maze.None? && s.level == 1 && s.score == 0 && !s.gameOver
  {
    Game(d, None, Origin, 0, 1, false, 0)
  }
}
