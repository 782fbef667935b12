/** The grids the engines and cards work on: `height` rows of `width`
    cells, addressed `grid[y][x]`. A `Canvas` is the character grid the
    cards and creative effects paint into, each cell holding one code
    unit; the shape and equality facts hold for any kind of cell. */
module Canvas {

  type Canvas = seq<seq<char>>

  /** `height` rows of exactly `width` cells. */
  predicate Shaped<T>(g: seq<seq<T>>, width: nat, height: nat)
  {
    |g| == height && forall y :: 0 <= y < height ==> |g[y]| == width
  }

  /** (x, y) addresses a cell of a width × height grid. */
  predicate InBounds(x: int, y: int, width: nat, height: nat)
  {
    0 <= x < width && 0 <= y < height
  }

  /** `Array(height).fill(null).map(() => Array(width).fill(c))`. */
  function Filled(width: nat, height: nat, c: char): (g: Canvas)
    ensures Shaped(g, width, height)
    ensures forall y, x :: 0 <= y < height && 0 <= x < width ==> g[y][x] == c
  {
    seq(height, _ => seq(width, _ => c))
  }

  /** `grid[y][x] = c` guarded by a bounds test: a write outside the grid
      changes nothing. */
  function Put(g: Canvas, width: nat, height: nat, x: int, y: int, c: char): (h: Canvas)
    requires Shaped(g, width, height)
    ensures Shaped(h, width, height)
    ensures InBounds(x, y, width, height) ==> h[y][x] == c
    ensures forall v, u :: 0 <= v < height && 0 <= u < width && (u, v) != (x, y) ==> h[v][u] == g[v][u]
    ensures !InBounds(x, y, width, height) ==> h == g
  {
    if InBounds(x, y, width, height) then g[y := g[y][x := c]] else g
  }

  /** Two grids of one shape with the same cells are the same grid. */
  lemma SameCells<T>(g: seq<seq<T>>, h: seq<seq<T>>, width: nat, height: nat)
    requires Shaped(g, width, height) && Shaped(h, width, height)
    requires forall y, x :: 0 <= y < height && 0 <= x < width ==> g[y][x] == h[y][x]
    ensures g == h
  {
    forall y | 0 <= y < height
      ensures g[y] == h[y]
    {
    }
  }
}
