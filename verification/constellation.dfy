/** The constellation card: 31 stars spelling a name, the links drawn
    between some of them with an integer Bresenham walk, and three URLs
    stamped near the bottom of the grid. */
module Constellation {
  import opened JsBuiltins
  import opened Canvas

  function Abs(a: int): nat
  {
    if a < 0 then -a else a
  }

  /** -1, 0 or 1 as `a` is negative, zero or positive. */
  function Sign(a: int): int
  {
    if a > 0 then 1 else if a < 0 then -1 else 0
  }

  // ---------------------------------------------------------------------------
  // Stars and links
  // ---------------------------------------------------------------------------

  /** The stars' positions relative to (baseX, baseY), letter by letter:
      S, P, I, N, U, T, E. */
  const StarOffsets: seq<(int, int)> := [
    (0, 2), (0, 4), (2, 6), (2, 8), (0, 10),
    (5, 2), (5, 10), (7, 2), (8, 4), (7, 6),
    (11, 2), (11, 10),
    (14, 10), (14, 2), (17, 10), (17, 2),
    (20, 2), (20, 8), (21, 10), (23, 8), (23, 2),
    (26, 2), (29, 2), (27, 2), (27, 10),
    (32, 2), (32, 6), (32, 10), (34, 2), (34, 6), (34, 10)
  ]

  const StarCount: nat := 31

  /** The star positions on a width × height card. They are whole numbers
      only when both dimensions are even, since the base point is
      (width / 2 - 18, height / 2 - 6) with real division. */
  function Stars(width: nat, height: nat): (stars: seq<(int, int)>)
    requires width % 2 == 0 && height % 2 == 0
    ensures |stars| == StarCount
    ensures forall k :: 0 <= k < StarCount ==>
      stars[k].0 * 2 == width - 36 + 2 * StarOffsets[k].0 && stars[k].1 * 2 == height - 12 + 2 * StarOffsets[k].1
  {
    var baseX := width / 2 - 18;
    var baseY := height / 2 - 6;
    seq(|StarOffsets|, k requires 0 <= k < |StarOffsets| => (baseX + StarOffsets[k].0, baseY + StarOffsets[k].1))
  }

  /** On a grid at least 36 wide and 10 high every star is on the grid
      (the default card is 80 × 20). */
  lemma StarsOnGrid(width: nat, height: nat)
    requires width % 2 == 0 && height % 2 == 0
    requires width >= 36 && height >= 10
    ensures forall k :: 0 <= k < StarCount ==> InBounds(Stars(width, height)[k].0, Stars(width, height)[k].1, width, height)
  {
    assert forall k :: 0 <= k < |StarOffsets| ==> 0 <= StarOffsets[k].0 <= 34 && 2 <= StarOffsets[k].1 <= 10;
  }

  /** The links the source sets on the first ten stars: the S stroke
      0-1-2-3-4 and the P stroke 6-5-7-8-9. */
  const StrokeLinks: seq<seq<nat>> := [
    [1], [0, 2], [1, 3], [2, 4], [3],
    [6, 7], [5], [5, 8], [7, 9], [8]
  ]

  /** `stars[i].connected`: every star starts with no links, then the S and
      P strokes are linked. */
  const Links: seq<seq<nat>> := StrokeLinks + seq(StarCount - |StrokeLinks|, _ => [])

  /** There is a list of links for every star, every link names a star,
      and every link is listed from both of its ends. */
  lemma LinksSymmetric()
    ensures |Links| == StarCount
    ensures forall i, k :: 0 <= i < |Links| && 0 <= k < |Links[i]| ==> Links[i][k] < StarCount
    ensures forall i, k :: 0 <= i < |Links| && 0 <= k < |Links[i]| ==> i in Links[Links[i][k]]
  {
    StrokesSymmetric();
    forall i | 0 <= i < |Links|
      ensures Links[i] == if i < |StrokeLinks| then StrokeLinks[i] else []
    {
    }
  }

  /** Within the two strokes every link names a stroke star and is listed
      from both of its ends. */
  lemma StrokesSymmetric()
    ensures forall i, k :: 0 <= i < |StrokeLinks| && 0 <= k < |StrokeLinks[i]| ==>
      StrokeLinks[i][k] < |StrokeLinks| && i in StrokeLinks[StrokeLinks[i][k]]
  {
    forall i, k | 0 <= i < |StrokeLinks| && 0 <= k < |StrokeLinks[i]|
      ensures StrokeLinks[i][k] < |StrokeLinks| && i in StrokeLinks[StrokeLinks[i][k]]
    {
      if i == 0 {
        assert StrokeLinks[0] == [1] && StrokeLinks[1] == [0, 2];
      } else if i == 1 {
        assert StrokeLinks[1] == [0, 2] && StrokeLinks[0] == [1] && StrokeLinks[2] == [1, 3];
      } else if i == 2 {
        assert StrokeLinks[2] == [1, 3] && StrokeLinks[1] == [0, 2] && StrokeLinks[3] == [2, 4];
      } else if i == 3 {
        assert StrokeLinks[3] == [2, 4] && StrokeLinks[2] == [1, 3] && StrokeLinks[4] == [3];
      } else if i == 4 {
        assert StrokeLinks[4] == [3] && StrokeLinks[3] == [2, 4];
      } else if i == 5 {
        assert StrokeLinks[5] == [6, 7] && StrokeLinks[6] == [5] && StrokeLinks[7] == [5, 8];
      } else if i == 6 {
        assert StrokeLinks[6] == [5] && StrokeLinks[5] == [6, 7];
      } else if i == 7 {
        assert StrokeLinks[7] == [5, 8] && StrokeLinks[5] == [6, 7] && StrokeLinks[8] == [7, 9];
      } else if i == 8 {
        assert StrokeLinks[8] == [7, 9] && StrokeLinks[7] == [5, 8] && StrokeLinks[9] == [8];
      } else {
        assert StrokeLinks[9] == [8] && StrokeLinks[8] == [7, 9];
      }
    }
  }


  // ---------------------------------------------------------------------------
  // Lines
  // ---------------------------------------------------------------------------

  /** The glyph a line leaves in a cell, from the vector (dx, dy) still to
      go to the line's end: mostly horizontal, mostly vertical, or one of
      the two diagonals. */
  function LineGlyph(dx: int, dy: int): (c: char)
    ensures c in {'─', '│', '\\', '/'}
    ensures c == '─' <==> Abs(dx) > Abs(dy)
    ensures c == '│' <==> Abs(dy) > Abs(dx)
    ensures c == '\\' <==> Abs(dx) == Abs(dy) && dx * dy > 0
  {
    if Abs(dx) > Abs(dy) then '─'
    else if Abs(dy) > Abs(dx) then '│'
    else if dx * dy > 0 then '\\'
    else '/'
  }

  /** One visit of the line walk at (x, y): an in-bounds blank cell takes
      the line glyph for the vector to (x2, y2); any other cell, and any
      position off the grid, is left alone. */
  function Visit(g: Canvas, width: nat, height: nat, x: int, y: int, x2: int, y2: int): (h: Canvas)
    requires Shaped(g, width, height)
    ensures Shaped(h, width, height)
    ensures forall v, u :: 0 <= v < height && 0 <= u < width ==>
      h[v][u] == (if (u, v) == (x, y) && g[v][u] == ' ' then LineGlyph(x2 - u, y2 - v) else g[v][u])
  {
    if InBounds(x, y, width, height) && g[y][x] == ' ' then Put(g, width, height, x, y, LineGlyph(x2 - x, y2 - y))
    else g
  }

  /** A step of the walk from p to q toward `target`: it moves, and each
      coordinate stays or moves by one toward the target's. */
  predicate Toward(p: (int, int), q: (int, int), target: (int, int))
  {
    p != q
    && (q.0 == p.0 || q.0 == p.0 + Sign(target.0 - p.0))
    && (q.1 == p.1 || q.1 == p.1 + Sign(target.1 - p.1))
  }

  /** The painted grid after a walk over `path` toward (x2, y2): each
      blank in-bounds cell on the path holds its line glyph, every other
      cell is as in `g`. */
  predicate Painted(g: Canvas, out: Canvas, width: nat, height: nat, path: seq<(int, int)>, x2: int, y2: int)
    requires Shaped(g, width, height) && Shaped(out, width, height)
  {
    forall v, u :: 0 <= v < height && 0 <= u < width ==>
      out[v][u] == (if g[v][u] == ' ' && (u, v) in path then LineGlyph(x2 - u, y2 - v) else g[v][u])
  }

  /** `drawLine`: Bresenham's walk from (x1, y1) to (x2, y2). It ends, it
      visits (x1, y1) first and (x2, y2) last, every step moves each
      coordinate by at most one toward the end point, and the only cells
      it changes are blank cells on its path, each given the glyph for the
      vector still to go from there. */
  method DrawLine(grid: Canvas, width: nat, height: nat, x1: int, y1: int, x2: int, y2: int)
    returns (out: Canvas, path: seq<(int, int)>)
    requires Shaped(grid, width, height)
    ensures Shaped(out, width, height)
    ensures |path| >= 1 && path[0] == (x1, y1) && path[|path| - 1] == (x2, y2)
    ensures forall k :: 0 <= k < |path| - 1 ==> Toward(path[k], path[k + 1], (x2, y2))
    ensures Painted(grid, out, width, height, path, x2, y2)
  {
    var dx := Abs(x2 - x1);
    var dy := Abs(y2 - y1);
    var sx := if x1 < x2 then 1 else -1;
    var sy := if y1 < y2 then 1 else -1;
    var err := dx - dy;
    var x, y := x1, y1;
    ghost var stepsX: nat, stepsY: nat := 0, 0;
    out := Visit(grid, width, height, x, y, x2, y2);
    path := [(x, y)];
    while !(x == x2 && y == y2)
      invariant stepsX <= dx && stepsY <= dy
      invariant x == (if x1 < x2 then x1 + stepsX else x1 - stepsX)
      invariant y == (if y1 < y2 then y1 + stepsY else y1 - stepsY)
      invariant err == ErrorTerm(dx, dy, stepsX, stepsY)
      invariant |path| >= 1 && path[0] == (x1, y1) && path[|path| - 1] == (x, y)
      invariant forall k :: 0 <= k < |path| - 1 ==> Toward(path[k], path[k + 1], (x2, y2))
      invariant Shaped(out, width, height)
      invariant Painted(grid, out, width, height, path, x2, y2)
      decreases (dx - stepsX) + (dy - stepsY)
    {
      var e2 := 2 * err;
      ghost var before := (x, y);
      XStepBounded(dx, dy, stepsX, stepsY);
      YStepBounded(dx, dy, stepsX, stepsY);
      ErrorTermSteps(dx, dy, stepsX, stepsY);
      if e2 > -dy {
        err := err - dy;
        x := x + sx;
        stepsX := stepsX + 1;
      }
      if e2 < dx {
        err := err + dx;
        y := y + sy;
        stepsY := stepsY + 1;
      }
      assert before != (x, y);
      PaintedStep(grid, out, width, height, path, x, y, x2, y2);
      out := Visit(out, width, height, x, y, x2, y2);
      path := path + [(x, y)];
    }
  }

  /** Visiting one more position extends the painted path by it. */
  lemma PaintedStep(grid: Canvas, out: Canvas, width: nat, height: nat, path: seq<(int, int)>, x: int, y: int, x2: int, y2: int)
    requires Shaped(grid, width, height) && Shaped(out, width, height)
    requires Painted(grid, out, width, height, path, x2, y2)
    ensures Painted(grid, Visit(out, width, height, x, y, x2, y2), width, height, path + [(x, y)], x2, y2)
  {
    var next := Visit(out, width, height, x, y, x2, y2);
    forall v, u | 0 <= v < height && 0 <= u < width
      ensures next[v][u] == (if grid[v][u] == ' ' && (u, v) in path + [(x, y)] then LineGlyph(x2 - u, y2 - v) else grid[v][u])
    {
      assert (u, v) in path + [(x, y)] <==> (u, v) in path || (u, v) == (x, y);
    }
  }

  /** The walk's error term after stepsX steps along x and stepsY along y:
      it starts at dx - dy, loses dy per x step and gains dx per y step. */
  function ErrorTerm(dx: int, dy: int, stepsX: int, stepsY: int): int
  {
    dx - dy - stepsX * dy + stepsY * dx
  }

  lemma ErrorTermSteps(dx: int, dy: int, stepsX: int, stepsY: int)
    ensures ErrorTerm(dx, dy, stepsX + 1, stepsY) == ErrorTerm(dx, dy, stepsX, stepsY) - dy
    ensures ErrorTerm(dx, dy, stepsX, stepsY + 1) == ErrorTerm(dx, dy, stepsX, stepsY) + dx
    ensures ErrorTerm(dx, dy, stepsX + 1, stepsY + 1) == ErrorTerm(dx, dy, stepsX, stepsY) - dy + dx
  {
  }

  /** The walk only moves along x while x has not reached its end: at the
      last column with rows to go, the doubled error is at most -dy. */
  lemma XStepBounded(dx: int, dy: int, stepsX: int, stepsY: int)
    requires dx >= 0 && dy >= 0
    ensures stepsX == dx && stepsY < dy ==> 2 * ErrorTerm(dx, dy, stepsX, stepsY) <= -dy
  {
    if stepsX == dx && stepsY < dy {
      var rest := dy - stepsY - 1;
      assert ErrorTerm(dx, dy, stepsX, stepsY) == -dx * rest - dy;
      MulNonNegative(dx, rest);
    }
  }

  lemma MulNonNegative(a: int, b: int)
    requires a >= 0 && b >= 0
    ensures a * b >= 0
  {
  }

  /** Symmetrically, at the last row with columns to go the doubled error
      is at least dx, so the walk does not move along y. */
  lemma YStepBounded(dx: int, dy: int, stepsX: int, stepsY: int)
    requires dx >= 0 && dy >= 0 && stepsX >= 0
    ensures stepsY == dy && stepsX < dx ==> 2 * ErrorTerm(dx, dy, stepsX, stepsY) >= dx
  {
    if stepsY == dy && stepsX < dx {
      var rest := dx - stepsX - 1;
      assert dy * rest == dy * dx - dy * stepsX - dy;
      assert ErrorTerm(dx, dy, stepsX, stepsY) == dx + dy * rest;
      assert dy * rest >= 0;
    }
  }

  // ---------------------------------------------------------------------------
  // Rendering
  // ---------------------------------------------------------------------------

  predicate IsLineGlyph(c: char)
  {
    c in {'─', '│', '\\', '/'}
  }

  /** Only blank cells of `g` have changed, each into a line glyph. */
  predicate LinesOnBlanks(g: Canvas, out: Canvas, width: nat, height: nat)
    requires Shaped(g, width, height) && Shaped(out, width, height)
  {
    forall v, u :: 0 <= v < height && 0 <= u < width ==>
      out[v][u] == g[v][u] || (g[v][u] == ' ' && IsLineGlyph(out[v][u]))
  }

  /** The point p, when it is a cell of the grid that was blank in `g`,
      holds a line glyph in `out`. */
  predicate EndDrawn(g: Canvas, out: Canvas, width: nat, height: nat, p: (int, int))
    requires Shaped(g, width, height) && Shaped(out, width, height)
  {
    InBounds(p.0, p.1, width, height) && g[p.1][p.0] == ' ' ==> IsLineGlyph(out[p.1][p.0])
  }

  /** Both ends of link m of star j are drawn. */
  predicate LinkDrawn(g: Canvas, out: Canvas, width: nat, height: nat, stars: seq<(int, int)>, links: seq<seq<nat>>, j: nat, m: nat)
    requires Shaped(g, width, height) && Shaped(out, width, height)
    requires j < |links| == |stars| && m < |links[j]| && links[j][m] < |stars|
  {
    EndDrawn(g, out, width, height, stars[j]) && EndDrawn(g, out, width, height, stars[links[j][m]])
  }

  /** The connection pass of `render`: for every star, a line to each star
      it links to. A cell it changes was blank and now holds a line glyph;
      every other cell is as before; and both ends of every link that are
      grid cells blank beforehand hold a line glyph. */
  method DrawLinks(g: Canvas, width: nat, height: nat, stars: seq<(int, int)>, links: seq<seq<nat>>)
    returns (out: Canvas)
    requires Shaped(g, width, height)
    requires |links| == |stars|
    requires forall i, k :: 0 <= i < |links| && 0 <= k < |links[i]| ==> links[i][k] < |stars|
    ensures Shaped(out, width, height)
    ensures LinesOnBlanks(g, out, width, height)
    ensures forall j, m :: 0 <= j < |links| && 0 <= m < |links[j]| ==>
      LinkDrawn(g, out, width, height, stars, links, j, m)
  {
    out := g;
    var i := 0;
    while i < |stars|
      invariant 0 <= i <= |stars|
      invariant Shaped(out, width, height)
      invariant LinesOnBlanks(g, out, width, height)
      invariant forall j, m :: 0 <= j < i && 0 <= m < |links[j]| ==>
        LinkDrawn(g, out, width, height, stars, links, j, m)
    {
      out := DrawStarLinks(g, out, width, height, stars, links, i);
      i := i + 1;
    }
  }

  /** The inner loop of the connection pass: star i's lines, one per link. */
  method DrawStarLinks(g: Canvas, cur: Canvas, width: nat, height: nat, stars: seq<(int, int)>, links: seq<seq<nat>>, i: nat)
    returns (out: Canvas)
    requires Shaped(g, width, height) && Shaped(cur, width, height)
    requires i < |links| == |stars|
    requires forall i, k :: 0 <= i < |links| && 0 <= k < |links[i]| ==> links[i][k] < |stars|
    requires LinesOnBlanks(g, cur, width, height)
    requires forall j, m :: 0 <= j < i && 0 <= m < |links[j]| ==>
      LinkDrawn(g, cur, width, height, stars, links, j, m)
    ensures Shaped(out, width, height)
    ensures LinesOnBlanks(g, out, width, height)
    ensures forall j, m :: 0 <= j < i + 1 && 0 <= m < |links[j]| ==>
      LinkDrawn(g, out, width, height, stars, links, j, m)
  {
    out := cur;
    var k := 0;
    while k < |links[i]|
      invariant 0 <= k <= |links[i]|
      invariant Shaped(out, width, height)
      invariant LinesOnBlanks(g, out, width, height)
      invariant forall j, m :: 0 <= j < |links| && 0 <= m < |links[j]| && (j < i || (j == i && m < k)) ==>
        LinkDrawn(g, out, width, height, stars, links, j, m)
    {
      var other := stars[links[i][k]];
      var next, path := DrawLine(out, width, height, stars[i].0, stars[i].1, other.0, other.1);
      DrawnKept(g, out, next, width, height, path, other.0, other.1);
      forall j, m | 0 <= j < |links| && 0 <= m < |links[j]| && (j < i || (j == i && m < k))
        ensures LinkDrawn(g, next, width, height, stars, links, j, m)
      {
        assert LinkDrawn(g, out, width, height, stars, links, j, m);
      }
      assert path[0] == stars[i] && path[|path| - 1] == other;
      out := next;
      k := k + 1;
    }
  }

  /** Drawing one more line over a grid whose changes from `g` are line
      glyphs on blanks keeps that so, keeps every end already drawn, and
      draws both ends of the new line. */
  lemma DrawnKept(g: Canvas, cur: Canvas, next: Canvas, width: nat, height: nat, path: seq<(int, int)>, x2: int, y2: int)
    requires Shaped(g, width, height) && Shaped(cur, width, height) && Shaped(next, width, height)
    requires LinesOnBlanks(g, cur, width, height)
    requires Painted(cur, next, width, height, path, x2, y2)
    ensures LinesOnBlanks(g, next, width, height)
    ensures forall p :: EndDrawn(g, cur, width, height, p) ==> EndDrawn(g, next, width, height, p)
    ensures forall p :: p in path ==> EndDrawn(g, next, width, height, p)
  {
    forall p | EndDrawn(g, cur, width, height, p) && InBounds(p.0, p.1, width, height)
      ensures EndDrawn(g, next, width, height, p)
    {
    }
  }

  /** The connection pass of the card itself, over its own stars and link
      table: every link's ends that are blank grid cells get a line glyph,
      and nothing but blank cells changes. */
  method DrawCardLinks(g: Canvas, width: nat, height: nat) returns (out: Canvas)
    requires Shaped(g, width, height)
    requires width % 2 == 0 && height % 2 == 0
    ensures Shaped(out, width, height)
    ensures LinesOnBlanks(g, out, width, height)
    ensures forall j, m :: 0 <= j < |Links| && 0 <= m < |Links[j]| ==>
      Links[j][m] < StarCount && LinkDrawn(g, out, width, height, Stars(width, height), Links, j, m)
  {
    LinksSymmetric();
    out := DrawLinks(g, width, height, Stars(width, height), Links);
  }

  /** The three addresses stamped under the constellation. */
  const Urls: seq<string> := ["https://spinute.notion.site/", "https://github.com/spinute", "https://x.com/spinute"]

  /** The column a stamped line starts at: `Math.floor((width - len) / 2)`
      (Dafny's division rounds down for a positive divisor). */
  function UrlStart(width: nat, len: nat): int
  {
    (width - len) / 2
  }

  /** What a stamped row holds: the url's characters at columns
      [start, start + |url|) that fall on the grid, the old row elsewhere. */
  predicate Stamped(row: seq<char>, old_row: seq<char>, url: string, start: int)
  {
    |row| == |old_row|
    && forall u :: 0 <= u < |row| ==>
         row[u] == (if start <= u < start + |url| then url[u - start] else old_row[u])
  }

  /** One url written into one row: for each of its characters whose
      column is left of the row's end, `grid[row][startX + x] = url[x]`.
      A column left of 0 is not a cell (in the source it becomes a
      property of the row array that nothing reads). */
  method StampRow(row: seq<char>, url: string, startX: int) returns (r: seq<char>)
    ensures Stamped(r, row, url, startX)
  {
    r := row;
    var x := 0;
    while x < |url|
      invariant 0 <= x <= |url|
      invariant |r| == |row|
      invariant forall u :: 0 <= u < |r| ==> r[u] == (if startX <= u < startX + x then url[u - startX] else row[u])
    {
      if startX + x < |row| && 0 <= startX + x {
        r := r[startX + x := url[x]];
      }
      x := x + 1;
    }
  }

  /** The URL stamping of `render`: the urls go on rows height - 5 to
      height - 3, centred, with only the columns that fall on the grid
      written; every other row is untouched. When height < 5 the first
      target row does not exist and the source throws a TypeError, which
      is `None` here. */
  method StampUrls(g: Canvas, width: nat, height: nat) returns (r: Option<Canvas>)
    requires Shaped(g, width, height)
    ensures r.None? <==> height < 5
    ensures r.Some? ==> Shaped(r.value, width, height)
    ensures r.Some? ==> forall v :: 0 <= v < height && !(height - 5 <= v < height - 2) ==> r.value[v] == g[v]
    ensures r.Some? ==> forall i :: 0 <= i < |Urls| ==>
      Stamped(r.value[height - 5 + i], g[height - 5 + i], Urls[i], UrlStart(width, |Urls[i]|))
  {
    if height < 5 {
      return None;
    }
    var startY := height - 5;
    var out := g;
    var i := 0;
    while i < |Urls|
      invariant 0 <= i <= |Urls|
      invariant Shaped(out, width, height)
      invariant forall v :: 0 <= v < height && !(startY <= v < startY + i) ==> out[v] == g[v]
      invariant forall j :: 0 <= j < i ==> Stamped(out[startY + j], g[startY + j], Urls[j], UrlStart(width, |Urls[j]|))
    {
      var row := StampRow(out[startY + i], Urls[i], UrlStart(width, |Urls[i]|));
      out := out[startY + i := row];
      i := i + 1;
    }
    return Some(out);
  }
}
