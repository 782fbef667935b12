/** Conway's Game of Life (birth on 3, survival on 2 or 3) on a bounded grid
    whose edges are closed: a position outside the grid is a dead cell, and
    nothing wraps around. The engine keeps two equally sized buffers and
    swaps them after every generation. */
module Life {
  import opened JsBuiltins
  import opened Canvas

  /** `g[y][x]` is true when the cell in column x of row y is alive. */
  type Grid = seq<seq<bool>>

  /** A grid of the given size with every cell dead. */
  function CreateGrid(width: nat, height: nat): (g: Grid)
    ensures Shaped(g, width, height)
    ensures forall y, x :: 0 <= y < height && 0 <= x < width ==> !g[y][x]
  {
    seq(height, _ => seq(width, _ => false))
  }

  /** The engine: the current grid, the spare buffer the next generation is
      written into, their fixed dimensions and the generation counter. */
  datatype Game = Game(width: nat, height: nat, grid: Grid, nextGrid: Grid, generation: nat)
  {
    predicate Valid()
    {
      Shaped(grid, width, height) && Shaped(nextGrid, width, height)
    }
  }

  /** A freshly constructed engine: both buffers dead, generation 0. */
  function NewGame(width: nat, height: nat): (game: Game)
    ensures game.Valid() && game.width == width && game.height == height
    ensures game.generation == 0
    ensures forall y, x :: 0 <= y < height && 0 <= x < width ==> !game.grid[y][x]
  {
    Game(width, height, CreateGrid(width, height), CreateGrid(width, height), 0)
  }

  // ---------------------------------------------------------------------------
  // Neighbour counting
  // ---------------------------------------------------------------------------

  /** 1 when (x, y) lies inside the grid and its cell is alive, else 0. */
  function Occupied(g: Grid, x: int, y: int): nat
  {
    if 0 <= y < |g| && 0 <= x < |g[y]| && g[y][x] then 1 else 0
  }

  /** The eight (dx, dy) displacements in the order the engine scans them:
      dy from -1 to 1, and within each dy, dx from -1 to 1, skipping (0, 0). */
  const NeighborOffsets: seq<(int, int)> :=
    [(-1, -1), (0, -1), (1, -1), (-1, 0), (1, 0), (-1, 1), (0, 1), (1, 1)]

  /** The number of live cells at (x, y) displaced by each of `offsets`. */
  function CountAt(g: Grid, x: int, y: int, offsets: seq<(int, int)>): (n: nat)
    ensures n <= |offsets|
  {
    if offsets == [] then 0
    else
      var d := offsets[|offsets| - 1];
      CountAt(g, x, y, offsets[..|offsets| - 1]) + Occupied(g, x + d.0, y + d.1)
  }

  /** The number of live neighbours of (x, y); outside cells count as dead. */
  function Neighbors(g: Grid, x: int, y: int): (n: nat)
    ensures n <= 8
  {
    CountAt(g, x, y, NeighborOffsets)
  }

  /** The neighbour count written out as the sum of its eight terms. */
  lemma NeighborsUnfold(g: Grid, x: int, y: int)
    ensures Neighbors(g, x, y) ==
      Occupied(g, x - 1, y - 1) + Occupied(g, x, y - 1) + Occupied(g, x + 1, y - 1) +
      Occupied(g, x - 1, y) + Occupied(g, x + 1, y) +
      Occupied(g, x - 1, y + 1) + Occupied(g, x, y + 1) + Occupied(g, x + 1, y + 1)
  {
    var o := NeighborOffsets;
    assert o[..0] == [];
    CountAtSnoc(g, x, y, 0);
    CountAtSnoc(g, x, y, 1);
    CountAtSnoc(g, x, y, 2);
    CountAtSnoc(g, x, y, 3);
    CountAtSnoc(g, x, y, 4);
    CountAtSnoc(g, x, y, 5);
    CountAtSnoc(g, x, y, 6);
    CountAtSnoc(g, x, y, 7);
    assert o[..8] == o;
  }

  /** Scan position of (dx, dy) in `NeighborOffsets`: how many displacements
      the engine's double loop has visited before reaching it. */
  function ScanIndex(dx: int, dy: int): int
  {
    3 * (dy + 1) + (dx + 1) - (if dy > 0 || (dy == 0 && dx > 0) then 1 else 0)
  }

  lemma CountAtSnoc(g: Grid, x: int, y: int, k: nat)
    requires k < |NeighborOffsets|
    ensures CountAt(g, x, y, NeighborOffsets[..k + 1]) ==
      CountAt(g, x, y, NeighborOffsets[..k]) +
      Occupied(g, x + NeighborOffsets[k].0, y + NeighborOffsets[k].1)
  {
    assert NeighborOffsets[..k + 1][..k] == NeighborOffsets[..k];
  }

  /** The scan visits displacement (dx, dy) at `ScanIndex(dx, dy)`, and the
      cell itself occupies no slot. */
  lemma ScanIndexStep(dx: int, dy: int)
    requires -1 <= dx <= 1 && -1 <= dy <= 1
    ensures 0 <= ScanIndex(dx, dy) <= 8
    ensures dx == 0 && dy == 0 ==> ScanIndex(dx + 1, dy) == ScanIndex(dx, dy)
    ensures !(dx == 0 && dy == 0) ==>
      ScanIndex(dx, dy) < 8 && NeighborOffsets[ScanIndex(dx, dy)] == (dx, dy) &&
      ScanIndex(dx + 1, dy) == ScanIndex(dx, dy) + 1
  {
  }

  /** Visiting displacement (dx, dy) adds one exactly when that neighbour
      is on the grid and alive. */
  lemma ScanStep(g: Grid, width: nat, height: nat, x: int, y: int, dx: int, dy: int)
    requires Shaped(g, width, height)
    requires -1 <= dx <= 1 && -1 <= dy <= 1 && !(dx == 0 && dy == 0)
    ensures 0 <= ScanIndex(dx, dy) < ScanIndex(dx + 1, dy) <= 8
    ensures CountAt(g, x, y, NeighborOffsets[..ScanIndex(dx + 1, dy)]) ==
      CountAt(g, x, y, NeighborOffsets[..ScanIndex(dx, dy)]) +
      (if 0 <= x + dx < width && 0 <= y + dy < height && g[y + dy][x + dx] then 1 else 0)
  {
    ScanIndexStep(dx, dy);
    CountAtSnoc(g, x, y, ScanIndex(dx, dy));
  }

  /** The engine's `countNeighbors`: the double loop over dy and dx, skipping
      the cell itself and ignoring positions outside the grid. */
  method CountNeighbors(g: Grid, width: nat, height: nat, x: int, y: int) returns (count: nat)
    requires Shaped(g, width, height)
    ensures count == Neighbors(g, x, y)
    ensures count <= 8
  {
    count := 0;
    var dy := -1;
    while dy <= 1
      invariant -1 <= dy <= 2
      invariant 0 <= ScanIndex(-1, dy) <= 8
      invariant count == CountAt(g, x, y, NeighborOffsets[..ScanIndex(-1, dy)])
    {
      count := CountRow(g, width, height, x, y, dy, count);
      assert ScanIndex(2, dy) == ScanIndex(-1, dy + 1);
      dy := dy + 1;
    }
    assert NeighborOffsets[..ScanIndex(-1, 2)] == NeighborOffsets;
  }

  /** The inner loop of `countNeighbors` for one row offset dy: it adds the
      live neighbours at (x - 1, y + dy), (x, y + dy) and (x + 1, y + dy),
      leaving out the cell itself. */
  method CountRow(g: Grid, width: nat, height: nat, x: int, y: int, dy: int, before: nat) returns (count: nat)
    requires Shaped(g, width, height)
    requires -1 <= dy <= 1
    requires before == CountAt(g, x, y, NeighborOffsets[..ScanIndex(-1, dy)])
    ensures 0 <= ScanIndex(2, dy) <= 8
    ensures count == CountAt(g, x, y, NeighborOffsets[..ScanIndex(2, dy)])
  {
    count := before;
    var dx := -1;
    while dx <= 1
      invariant -1 <= dx <= 2
      invariant 0 <= ScanIndex(dx, dy) <= 8
      invariant count == CountAt(g, x, y, NeighborOffsets[..ScanIndex(dx, dy)])
    {
      ScanIndexStep(dx, dy);
      if !(dx == 0 && dy == 0) {
        var nx := x + dx;
        var ny := y + dy;
        ScanStep(g, width, height, x, y, dx, dy);
        ghost var next := CountAt(g, x, y, NeighborOffsets[..ScanIndex(dx + 1, dy)]);
        if nx >= 0 && nx < width && ny >= 0 && ny < height {
          if g[ny][nx] {
            count := count + 1;
          }
        }
        assert count == next;
      }
      dx := dx + 1;
    }
  }

  /** Positions beyond the last column do not wrap to the first: the cells
      of column 0 ignore what column width-1 holds. */
  lemma NoWrapAround(g: Grid, g': Grid, width: nat, height: nat, y: int, y': int)
    requires Shaped(g, width, height) && Shaped(g', width, height)
    requires width >= 3 && 0 <= y' < height
    requires forall r, c :: 0 <= r < height && 0 <= c < width && !(r == y' && c == width - 1) ==>
      g[r][c] == g'[r][c]
    ensures Neighbors(g, 0, y) == Neighbors(g', 0, y)
  {
    NeighborsUnfold(g, 0, y);
    NeighborsUnfold(g', 0, y);
  }

  /** A corner cell has at most three neighbours inside the grid. */
  lemma CornerNeighbors(g: Grid, width: nat, height: nat)
    requires Shaped(g, width, height)
    ensures Neighbors(g, 0, 0) <= 3
  {
    NeighborsUnfold(g, 0, 0);
  }

  // ---------------------------------------------------------------------------
  // One generation
  // ---------------------------------------------------------------------------

  /** Survival on 2 or 3 neighbours, birth on exactly 3. */
  function Rule(alive: bool, n: nat): (next: bool)
    ensures n < 2 || n > 3 ==> !next
    ensures n == 3 ==> next
    ensures n == 2 ==> (next <==> alive)
  {
    if alive then n == 2 || n == 3 else n == 3
  }

  /** The next generation, every cell computed from the unchanged grid `g`. */
  function NextGrid(g: Grid, width: nat, height: nat): (next: Grid)
    requires Shaped(g, width, height)
    ensures Shaped(next, width, height)
    ensures forall y, x :: 0 <= y < height && 0 <= x < width ==>
      (next[y][x] <==> Neighbors(g, x, y) == 3 || (g[y][x] && Neighbors(g, x, y) == 2))
  {
    seq(height, y requires 0 <= y < height =>
      seq(width, x requires 0 <= x < width => Rule(g[y][x], Neighbors(g, x, y))))
  }

  /** The engine's `step` loop: every cell of the spare buffer is overwritten
      with the rule applied to the current grid, which is only read. The
      result does not depend on what the buffer held before. */
  method StepGrid(g: Grid, buffer: Grid, width: nat, height: nat) returns (next: Grid)
    requires Shaped(g, width, height) && Shaped(buffer, width, height)
    ensures Shaped(next, width, height)
    ensures forall y, x :: 0 <= y < height && 0 <= x < width ==>
      next[y][x] == ((g[y][x] && (Neighbors(g, x, y) == 2 || Neighbors(g, x, y) == 3))
                     || (!g[y][x] && Neighbors(g, x, y) == 3))
    ensures next == NextGrid(g, width, height)
  {
    next := buffer;
    var y := 0;
    while y < height
      invariant 0 <= y <= height
      invariant Shaped(next, width, height)
      invariant forall r, c :: 0 <= r < y && 0 <= c < width ==> next[r][c] == Rule(g[r][c], Neighbors(g, c, r))
    {
      var x := 0;
      while x < width
        invariant 0 <= x <= width
        invariant Shaped(next, width, height)
        invariant forall r, c :: 0 <= r < y && 0 <= c < width ==> next[r][c] == Rule(g[r][c], Neighbors(g, c, r))
        invariant forall c :: 0 <= c < x ==> next[y][c] == Rule(g[y][c], Neighbors(g, c, y))
      {
        var neighbors := CountNeighbors(g, width, height, x, y);
        var alive := g[y][x];
        var cell := if alive then neighbors == 2 || neighbors == 3 else neighbors == 3;
        next := next[y := next[y][x := cell]];
        x := x + 1;
      }
      y := y + 1;
    }
    SameCells(next, NextGrid(g, width, height), width, height);
  }

  /** `step`: the next generation becomes current, the old grid becomes the
      spare buffer, and the generation counter advances by one. */
  function Step(game: Game): (next: Game)
    requires game.Valid()
    ensures next.Valid()
    ensures next.width == game.width && next.height == game.height
    ensures next.generation == game.generation + 1
    ensures next.nextGrid == game.grid
    ensures forall y, x :: 0 <= y < game.height && 0 <= x < game.width ==>
      (next.grid[y][x] <==>
        (game.grid[y][x] && (Neighbors(game.grid, x, y) == 2 || Neighbors(game.grid, x, y) == 3))
        || (!game.grid[y][x] && Neighbors(game.grid, x, y) == 3))
  {
    game.(grid := NextGrid(game.grid, game.width, game.height), nextGrid := game.grid,
          generation := game.generation + 1)
  }

  /** `n` calls of `step`. */
  function Steps(game: Game, n: nat): (last: Game)
    requires game.Valid()
    ensures last.Valid()
    ensures last.width == game.width && last.height == game.height
    ensures last.generation == game.generation + n
  {
    if n == 0 then game else Step(Steps(game, n - 1))
  }

  // ---------------------------------------------------------------------------
  // Known configurations
  // ---------------------------------------------------------------------------

  /** An all-dead grid stays all dead. */
  lemma DeadStaysDead(width: nat, height: nat)
    ensures NextGrid(CreateGrid(width, height), width, height) == CreateGrid(width, height)
  {
    var g := CreateGrid(width, height);
    forall y, x | 0 <= y < height && 0 <= x < width
      ensures NextGrid(g, width, height)[y][x] == g[y][x]
    {
      NeighborsUnfold(g, x, y);
    }
    SameCells(NextGrid(g, width, height), g, width, height);
  }

  /** The grid whose only live cells are the 2x2 block with top-left (left, top). */
  function BlockGrid(width: nat, height: nat, left: int, top: int): (g: Grid)
    ensures Shaped(g, width, height)
  {
    seq(height, y => seq(width, x => left <= x <= left + 1 && top <= y <= top + 1))
  }

  /** The block is a still life, wherever it lies in the grid. */
  lemma BlockIsStill(width: nat, height: nat, left: int, top: int)
    requires 0 <= left && left + 1 < width && 0 <= top && top + 1 < height
    ensures NextGrid(BlockGrid(width, height, left, top), width, height) == BlockGrid(width, height, left, top)
  {
    var g := BlockGrid(width, height, left, top);
    var n := NextGrid(g, width, height);
    forall y, x | 0 <= y < height && 0 <= x < width
      ensures n[y][x] == g[y][x]
    {
      BlockCell(width, height, left, top, x, y);
      assert g[y][x] == OnBlock(left, top, x, y);
    }
    SameCells(n, g, width, height);
  }

  /** Cell (x, y) is one of the four cells of the block at (left, top). */
  predicate OnBlock(left: int, top: int, x: int, y: int)
  {
    left <= x <= left + 1 && top <= y <= top + 1
  }

  lemma BlockOccupied(width: nat, height: nat, left: int, top: int, x: int, y: int)
    requires 0 <= left && left + 1 < width && 0 <= top && top + 1 < height
    ensures Occupied(BlockGrid(width, height, left, top), x, y) == if OnBlock(left, top, x, y) then 1 else 0
  {
  }

  /** A block cell has three live neighbours and survives; any other cell
      has at most two and stays dead. */
  lemma BlockCell(width: nat, height: nat, left: int, top: int, x: int, y: int)
    requires 0 <= left && left + 1 < width && 0 <= top && top + 1 < height
    requires 0 <= y < height && 0 <= x < width
    ensures Rule(OnBlock(left, top, x, y), Neighbors(BlockGrid(width, height, left, top), x, y)) == OnBlock(left, top, x, y)
  {
    var g := BlockGrid(width, height, left, top);
    NeighborsUnfold(g, x, y);
    BlockOccupied(width, height, left, top, x - 1, y - 1);
    BlockOccupied(width, height, left, top, x, y - 1);
    BlockOccupied(width, height, left, top, x + 1, y - 1);
    BlockOccupied(width, height, left, top, x - 1, y);
    BlockOccupied(width, height, left, top, x + 1, y);
    BlockOccupied(width, height, left, top, x - 1, y + 1);
    BlockOccupied(width, height, left, top, x, y + 1);
    BlockOccupied(width, height, left, top, x + 1, y + 1);
  }

  /** A blinker centred on (cx, cy): three live cells in a row when
      `horizontal`, in a column otherwise. */
  function BlinkerGrid(width: nat, height: nat, cx: int, cy: int, horizontal: bool): (g: Grid)
    ensures Shaped(g, width, height)
  {
    seq(height, y => seq(width, x => OnBlinker(cx, cy, horizontal, x, y)))
  }

  /** Whether (x, y) is one of the blinker's three cells. */
  predicate OnBlinker(cx: int, cy: int, horizontal: bool, x: int, y: int)
  {
    if horizontal then y == cy && cx - 1 <= x <= cx + 1
    else x == cx && cy - 1 <= y <= cy + 1
  }

  lemma BlinkerOccupied(width: nat, height: nat, cx: int, cy: int, horizontal: bool, x: int, y: int)
    requires 1 <= cx && cx + 1 < width && 1 <= cy && cy + 1 < height
    ensures Occupied(BlinkerGrid(width, height, cx, cy, horizontal), x, y) ==
      (if OnBlinker(cx, cy, horizontal, x, y) then 1 else 0)
  {
  }

  lemma BlinkerCell(width: nat, height: nat, cx: int, cy: int, horizontal: bool, x: int, y: int)
    requires 1 <= cx && cx + 1 < width && 1 <= cy && cy + 1 < height
    requires 0 <= y < height && 0 <= x < width
    ensures Rule(OnBlinker(cx, cy, horizontal, x, y), Neighbors(BlinkerGrid(width, height, cx, cy, horizontal), x, y))
         == OnBlinker(cx, cy, !horizontal, x, y)
  {
    var g := BlinkerGrid(width, height, cx, cy, horizontal);
    NeighborsUnfold(g, x, y);
    BlinkerOccupied(width, height, cx, cy, horizontal, x - 1, y - 1);
    BlinkerOccupied(width, height, cx, cy, horizontal, x, y - 1);
    BlinkerOccupied(width, height, cx, cy, horizontal, x + 1, y - 1);
    BlinkerOccupied(width, height, cx, cy, horizontal, x - 1, y);
    BlinkerOccupied(width, height, cx, cy, horizontal, x + 1, y);
    BlinkerOccupied(width, height, cx, cy, horizontal, x - 1, y + 1);
    BlinkerOccupied(width, height, cx, cy, horizontal, x, y + 1);
    BlinkerOccupied(width, height, cx, cy, horizontal, x + 1, y + 1);
  }

  /** One generation turns a horizontal blinker into a vertical one and back. */
  lemma BlinkerFlips(width: nat, height: nat, cx: int, cy: int, horizontal: bool)
    requires 1 <= cx && cx + 1 < width && 1 <= cy && cy + 1 < height
    ensures NextGrid(BlinkerGrid(width, height, cx, cy, horizontal), width, height)
         == BlinkerGrid(width, height, cx, cy, !horizontal)
  {
    var g := BlinkerGrid(width, height, cx, cy, horizontal);
    var h := BlinkerGrid(width, height, cx, cy, !horizontal);
    var n := NextGrid(g, width, height);
    forall y, x | 0 <= y < height && 0 <= x < width
      ensures n[y][x] == h[y][x]
    {
      BlinkerCell(width, height, cx, cy, horizontal, x, y);
      assert g[y][x] == OnBlinker(cx, cy, horizontal, x, y);
      assert h[y][x] == OnBlinker(cx, cy, !horizontal, x, y);
    }
    SameCells(n, h, width, height);
  }

  /** Two generations apply the next-generation map twice to the grid. */
  lemma TwoSteps(game: Game)
    requires game.Valid()
    ensures Steps(game, 1).grid == NextGrid(game.grid, game.width, game.height)
    ensures Steps(game, 2).grid ==
      NextGrid(NextGrid(game.grid, game.width, game.height), game.width, game.height)
  {
    assert Steps(game, 1) == Step(game);
    assert Steps(game, 2) == Step(Step(game));
  }

  /** A blinker at least one cell away from every edge returns to its
      original state after two generations, and not after one. */
  lemma BlinkerPeriodTwo(game: Game, cx: int, cy: int, horizontal: bool)
    requires game.Valid()
    requires 1 <= cx && cx + 1 < game.width && 1 <= cy && cy + 1 < game.height
    requires game.grid == BlinkerGrid(game.width, game.height, cx, cy, horizontal)
    ensures Steps(game, 2).grid == game.grid
    ensures Steps(game, 1).grid != game.grid
  {
    var w, h := game.width, game.height;
    TwoSteps(game);
    BlinkerFlips(w, h, cx, cy, horizontal);
    BlinkerFlips(w, h, cx, cy, !horizontal);
    var g1 := BlinkerGrid(w, h, cx, cy, !horizontal);
    if horizontal {
      assert g1[cy - 1][cx] != game.grid[cy - 1][cx];
    } else {
      assert g1[cy][cx - 1] != game.grid[cy][cx - 1];
    }
  }

  // ---------------------------------------------------------------------------
  // Seeding the grid
  // ---------------------------------------------------------------------------

  /** `randomize(density)`: every cell is overwritten, row by row, with
      whether its own `Math.random()` draw falls below `density`. */
  method Randomize(game: Game, draws: seq<seq<real>>, density: real) returns (next: Game)
    requires game.Valid()
    requires |draws| == game.height && forall y :: 0 <= y < game.height ==> |draws[y]| == game.width
    ensures next.Valid()
    ensures next.width == game.width && next.height == game.height
    ensures next.nextGrid == game.nextGrid && next.generation == game.generation
    ensures forall y, x :: 0 <= y < game.height && 0 <= x < game.width ==>
      next.grid[y][x] == (draws[y][x] < density)
  {
    var g := game.grid;
    var y := 0;
    while y < game.height
      invariant 0 <= y <= game.height
      invariant Shaped(g, game.width, game.height)
      invariant forall r, c :: 0 <= r < y && 0 <= c < game.width ==> g[r][c] == (draws[r][c] < density)
    {
      var x := 0;
      while x < game.width
        invariant 0 <= x <= game.width
        invariant Shaped(g, game.width, game.height)
        invariant forall r, c :: 0 <= r < y && 0 <= c < game.width ==> g[r][c] == (draws[r][c] < density)
        invariant forall c :: 0 <= c < x ==> g[y][c] == (draws[y][c] < density)
      {
        g := g[y := g[y][x := draws[y][x] < density]];
        x := x + 1;
      }
      y := y + 1;
    }
    next := game.(grid := g);
  }

  /** Whether some (row, column) entry of `pattern`, shifted by the offsets,
      lands on (x, y). */
  ghost predicate Covers(pattern: seq<(nat, nat)>, offsetX: nat, offsetY: nat, x: int, y: int)
  {
    exists i :: 0 <= i < |pattern| && pattern[i].0 + offsetY == y && pattern[i].1 + offsetX == x
  }

  /** `placePattern`: each (row, column) entry, shifted by the offsets, is set
      alive when it lies inside the grid; nothing is ever cleared and no
      other cell changes. */
  method PlacePattern(g: Grid, width: nat, height: nat, pattern: seq<(nat, nat)>, offsetX: nat, offsetY: nat)
    returns (r: Grid)
    requires Shaped(g, width, height)
    ensures Shaped(r, width, height)
    ensures forall y, x :: 0 <= y < height && 0 <= x < width ==>
      (r[y][x] <==> g[y][x] || Covers(pattern, offsetX, offsetY, x, y))
  {
    r := g;
    var i := 0;
    while i < |pattern|
      invariant 0 <= i <= |pattern|
      invariant Shaped(r, width, height)
      invariant forall y, x :: 0 <= y < height && 0 <= x < width ==>
        (r[y][x] <==> g[y][x] || Covers(pattern[..i], offsetX, offsetY, x, y))
    {
      var (py, px) := pattern[i];
      if py + offsetY < height && px + offsetX < width {
        r := r[py + offsetY := r[py + offsetY][px + offsetX := true]];
      }
      forall y, x | 0 <= y < height && 0 <= x < width
        ensures Covers(pattern[..i + 1], offsetX, offsetY, x, y) <==>
          Covers(pattern[..i], offsetX, offsetY, x, y) || (py + offsetY == y && px + offsetX == x)
      {
        if Covers(pattern[..i + 1], offsetX, offsetY, x, y) {
          var j :| 0 <= j < i + 1 && pattern[..i + 1][j].0 + offsetY == y && pattern[..i + 1][j].1 + offsetX == x;
          if j < i {
            assert pattern[..i][j] == pattern[..i + 1][j];
          }
        }
        if Covers(pattern[..i], offsetX, offsetY, x, y) {
          var j :| 0 <= j < i && pattern[..i][j].0 + offsetY == y && pattern[..i][j].1 + offsetX == x;
          assert pattern[..i + 1][j] == pattern[..i][j];
        }
        if py + offsetY == y && px + offsetX == x {
          assert pattern[..i + 1][i] == pattern[i];
        }
      }
      i := i + 1;
    }
    assert pattern[..|pattern|] == pattern;
  }

  /** A named seed: (row, column) cell list and the offsets it is stamped at. */
  datatype Pattern = Pattern(cells: seq<(nat, nat)>, offsetX: nat, offsetY: nat)

  const Glider: seq<(nat, nat)> := [(0, 1), (1, 2), (2, 0), (2, 1), (2, 2)]

  const Pulsar: seq<(nat, nat)> := [
    (2, 4), (2, 5), (2, 6), (2, 10), (2, 11), (2, 12),
    (4, 2), (5, 2), (6, 2), (4, 7), (5, 7), (6, 7),
    (4, 9), (5, 9), (6, 9), (4, 14), (5, 14), (6, 14),
    (7, 4), (7, 5), (7, 6), (7, 10), (7, 11), (7, 12),
    (9, 4), (9, 5), (9, 6), (9, 10), (9, 11), (9, 12),
    (10, 2), (11, 2), (12, 2), (10, 7), (11, 7), (12, 7),
    (10, 9), (11, 9), (12, 9), (10, 14), (11, 14), (12, 14),
    (14, 4), (14, 5), (14, 6), (14, 10), (14, 11), (14, 12)]

  const GosperGun: seq<(nat, nat)> := [
    (5, 1), (5, 2), (6, 1), (6, 2),
    (5, 11), (6, 11), (7, 11), (4, 12), (8, 12),
    (3, 13), (9, 13), (3, 14), (9, 14), (6, 15),
    (4, 16), (8, 16), (5, 17), (6, 17), (7, 17), (6, 18),
    (3, 21), (4, 21), (5, 21), (3, 22), (4, 22), (5, 22),
    (2, 23), (6, 23), (1, 25), (2, 25), (6, 25), (7, 25),
    (3, 35), (4, 35), (3, 36), (4, 36)]

  /** The fixed patterns `loadPattern` knows, with their placement offsets
      (column offset first). "random" is handled separately. */
  function PatternNamed(name: string): (p: Option<Pattern>)
    ensures p.Some? <==> name in {"glider", "pulsar", "gospergun"}
  {
    if name == "glider" then Some(Pattern(Glider, 5, 5))
    else if name == "pulsar" then Some(Pattern(Pulsar, 10, 5))
    else if name == "gospergun" then Some(Pattern(GosperGun, 5, 5))
    else None
  }

  /** The density `loadPattern("random")` passes to `randomize`. */
  const DefaultDensity: real := 0.3

  /** `loadPattern(name)`: the current grid is replaced by a dead one, then
      "random" randomizes it at the default density, a known name stamps its
      pattern, and any other name leaves it entirely dead. The spare buffer,
      the dimensions and the generation counter are untouched. */
  method LoadPattern(game: Game, name: string, draws: seq<seq<real>>) returns (next: Game)
    requires game.Valid()
    requires |draws| == game.height && forall y :: 0 <= y < game.height ==> |draws[y]| == game.width
    ensures next.Valid()
    ensures next.width == game.width && next.height == game.height
    ensures next.nextGrid == game.nextGrid && next.generation == game.generation
    ensures name == "random" ==> forall y, x :: 0 <= y < game.height && 0 <= x < game.width ==>
      next.grid[y][x] == (draws[y][x] < DefaultDensity)
    ensures PatternNamed(name).Some? ==> forall y, x :: 0 <= y < game.height && 0 <= x < game.width ==>
      (next.grid[y][x] <==> Covers(PatternNamed(name).value.cells, PatternNamed(name).value.offsetX,
                                   PatternNamed(name).value.offsetY, x, y))
    ensures name != "random" && PatternNamed(name).None? ==>
      forall y, x :: 0 <= y < game.height && 0 <= x < game.width ==> !next.grid[y][x]
  {
    next := game.(grid := CreateGrid(game.width, game.height));
    if name == "random" {
      next := Randomize(next, draws, DefaultDensity);
    } else {
      var p := PatternNamed(name);
      if p.Some? {
        var g := PlacePattern(next.grid, game.width, game.height, p.value.cells, p.value.offsetX, p.value.offsetY);
        next := next.(grid := g);
      }
    }
  }

  // ---------------------------------------------------------------------------
  // Rendering
  // ---------------------------------------------------------------------------

  const AliveGlyph: char := '█'
  const DeadGlyph: char := ' '

  /** One row of glyphs followed by a newline. */
  function RenderRow(row: seq<bool>): (s: string)
    ensures |s| == |row| + 1 && s[|row|] == '\n'
    ensures forall x :: 0 <= x < |row| ==> (s[x] == AliveGlyph <==> row[x])
    ensures forall x :: 0 <= x < |row| ==> (s[x] == DeadGlyph <==> !row[x])
  {
    seq(|row|, x requires 0 <= x < |row| => if row[x] then AliveGlyph else DeadGlyph) + "\n"
  }

  /** `render`: the rows top to bottom, each row's glyphs then a newline. */
  function Render(g: Grid, width: nat): (s: string)
    requires Shaped(g, width, |g|)
    ensures |s| == |g| * (width + 1)
  {
    if |g| == 0 then "" else RenderRow(g[0]) + Render(g[1..], width)
  }

  /** Row y of the rendering starts at offset y * (width + 1). */
  lemma {:induction false} RenderAt(g: Grid, width: nat, y: nat, x: nat)
    requires Shaped(g, width, |g|) && y < |g| && x <= width
    ensures y * (width + 1) + x < |Render(g, width)|
    ensures Render(g, width)[y * (width + 1) + x] == RenderRow(g[y])[x]
  {
    if y > 0 {
      RenderAt(g[1..], width, y - 1, x);
      assert y * (width + 1) + x == (width + 1) + ((y - 1) * (width + 1) + x);
    }
  }

  /** Reading a rendering back: a cell is alive exactly where the glyph is
      the alive glyph. */
  function Parse(s: string, width: nat, height: nat): (g: Grid)
    requires |s| == height * (width + 1)
    ensures Shaped(g, width, height)
  {
    seq(height, y requires 0 <= y < height =>
      seq(width, x requires 0 <= x < width =>
        RowOffsetInRange(width, height, y, x); s[y * (width + 1) + x] == AliveGlyph))
  }

  lemma RowOffsetInRange(width: nat, height: nat, y: nat, x: nat)
    requires y < height && x < width
    ensures y * (width + 1) + x < height * (width + 1)
  {
    assert y * (width + 1) + x < y * (width + 1) + (width + 1) == (y + 1) * (width + 1);
    assert (y + 1) * (width + 1) <= height * (width + 1);
  }

  /** `render` loses nothing: parsing its output gives back the grid. */
  lemma RenderParses(g: Grid, width: nat)
    requires Shaped(g, width, |g|)
    ensures Parse(Render(g, width), width, |g|) == g
  {
    var p := Parse(Render(g, width), width, |g|);
    forall y, x | 0 <= y < |g| && 0 <= x < width
      ensures p[y][x] == g[y][x]
    {
      RenderAt(g, width, y, x);
    }
    SameCells(p, g, width, |g|);
  }

  /** Each rendered row is `width` glyphs and then a newline. */
  lemma RenderLayout(g: Grid, width: nat, y: nat)
    requires Shaped(g, width, |g|) && y < |g|
    ensures y * (width + 1) + width < |Render(g, width)|
    ensures Render(g, width)[y * (width + 1) + width] == '\n'
    ensures forall x :: 0 <= x < width ==>
      Render(g, width)[y * (width + 1) + x] == (if g[y][x] then AliveGlyph else DeadGlyph)
  {
    RenderAt(g, width, y, width);
    forall x | 0 <= x < width
      ensures Render(g, width)[y * (width + 1) + x] == (if g[y][x] then AliveGlyph else DeadGlyph)
    {
      RenderAt(g, width, y, x);
    }
  }
}
