/** The circuit-board effect: eight random walks leave trace glyphs on a
    blank grid once, and each frame copies that grid with some trace cells
    lit up as electrons.

    `Math.random()` is a stream of draws `rnd(0), rnd(1), ...` consumed
    in the order the source calls it; the electrons' sine pulse is an
    oracle `flash(x, y)`. */
module Circuit {
  import opened JsBuiltins
  import opened Canvas

  const PathCount: nat := 8
  const MinLength: nat := 10
  const LengthSpread: nat := 20

  /** The glyphs a walk leaves: a node or a horizontal or vertical trace. */
  predicate IsTrace(c: char)
  {
    c == '●' || c == '─' || c == '│'
  }

  /** q is one cell from p, along exactly one axis. */
  predicate UnitStep(p: (int, int), q: (int, int))
  {
    (q.1 == p.1 && (q.0 == p.0 + 1 || q.0 == p.0 - 1))
    || (q.0 == p.0 && (q.1 == p.1 + 1 || q.1 == p.1 - 1))
  }

  /** All positions of all walks, walk after walk. */
  function Flatten(paths: seq<seq<(int, int)>>): seq<(int, int)>
  {
    if |paths| == 0 then [] else Flatten(paths[..|paths| - 1]) + paths[|paths| - 1]
  }

  /** One walk of `generateCircuit`: a start drawn on the grid, a length of
      10 + floor(r * 20) steps, and at each step a glyph written when the
      walker is on the grid (a node with chance 0.2, else a horizontal or
      vertical trace at even odds) followed by a move of one cell along a
      randomly chosen axis. Exactly the in-bounds cells of the walk change,
      each to a trace glyph. */
  method Walk(grid: Canvas, width: nat, height: nat, rnd: nat -> real, next: nat)
    returns (out: Canvas, path: seq<(int, int)>, used: nat)
    requires Shaped(grid, width, height)
    requires IsStream(rnd)
    ensures Shaped(out, width, height)
    ensures MinLength <= |path| < MinLength + LengthSpread
    ensures width > 0 && height > 0 ==> InBounds(path[0].0, path[0].1, width, height)
    ensures forall k :: 0 <= k < |path| - 1 ==> UnitStep(path[k], path[k + 1])
    ensures forall v, u :: 0 <= v < height && 0 <= u < width ==>
      if (u, v) in path then IsTrace(out[v][u]) else out[v][u] == grid[v][u]
    ensures used >= next
  {
    var x := Pick(rnd(next), width);
    var y := Pick(rnd(next + 1), height);
    var length := MinLength + Pick(rnd(next + 2), LengthSpread);
    used := next + 3;
    out := grid;
    path := [];
    var j := 0;
    while j < length
      invariant 0 <= j <= length && |path| == j && used >= next
      invariant Shaped(out, width, height)
      invariant j > 0 ==> path[0] == (Pick(rnd(next), width), Pick(rnd(next + 1), height))
      invariant j == 0 ==> (x, y) == (Pick(rnd(next), width), Pick(rnd(next + 1), height))
      invariant forall k :: 0 <= k < |path| - 1 ==> UnitStep(path[k], path[k + 1])
      invariant j > 0 ==> UnitStep(path[j - 1], (x, y))
      invariant forall v, u :: 0 <= v < height && 0 <= u < width ==>
        if (u, v) in path then IsTrace(out[v][u]) else out[v][u] == grid[v][u]
    {
      if InBounds(x, y, width, height) {
        var glyph: char;
        if rnd(used) < 0.2 {
          glyph := '●';
          used := used + 1;
        } else {
          glyph := if rnd(used + 1) < 0.5 then '─' else '│';
          used := used + 2;
        }
        out := Put(out, width, height, x, y, glyph);
      }
      path := path + [(x, y)];
      if rnd(used) < 0.5 {
        x := if rnd(used + 1) < 0.5 then x + 1 else x - 1;
      } else {
        y := if rnd(used + 1) < 0.5 then y + 1 else y - 1;
      }
      used := used + 2;
      j := j + 1;
    }
  }

  /** `generateCircuit`: eight walks on a blank grid, each taking its draws
      after the previous one's. A cell ends up non-blank exactly when some
      walk passed over it, and then it holds a trace glyph. */
  method Generate(width: nat, height: nat, rnd: nat -> real) returns (grid: Canvas, paths: seq<seq<(int, int)>>)
    requires IsStream(rnd)
    ensures Shaped(grid, width, height)
    ensures |paths| == PathCount
    ensures forall i :: 0 <= i < PathCount ==> MinLength <= |paths[i]| < MinLength + LengthSpread
    ensures forall i, k :: 0 <= i < PathCount && 0 <= k < |paths[i]| - 1 ==> UnitStep(paths[i][k], paths[i][k + 1])
    ensures forall v, u :: 0 <= v < height && 0 <= u < width ==>
      (grid[v][u] != ' ' <==> (u, v) in Flatten(paths))
    ensures forall v, u :: 0 <= v < height && 0 <= u < width ==> grid[v][u] == ' ' || IsTrace(grid[v][u])
  {
    grid := Filled(width, height, ' ');
    paths := [];
    var used := 0;
    var i := 0;
    while i < PathCount
      invariant 0 <= i <= PathCount && |paths| == i
      invariant Shaped(grid, width, height)
      invariant forall p :: 0 <= p < i ==> MinLength <= |paths[p]| < MinLength + LengthSpread
      invariant forall p, k :: 0 <= p < i && 0 <= k < |paths[p]| - 1 ==> UnitStep(paths[p][k], paths[p][k + 1])
      invariant forall v, u :: 0 <= v < height && 0 <= u < width ==>
        (grid[v][u] != ' ' <==> (u, v) in Flatten(paths))
      invariant forall v, u :: 0 <= v < height && 0 <= u < width ==> grid[v][u] == ' ' || IsTrace(grid[v][u])
    {
      var path;
      ghost var before := grid;
      grid, path, used := Walk(grid, width, height, rnd, used);
      assert (paths + [path])[..|paths|] == paths;
      paths := paths + [path];
      i := i + 1;
    }
  }

  /** `render`: a copy of the circuit in which a trace cell may light up as
      an electron '◉' (a draw below 0.05 together with the sine pulse, the
      oracle `flash` here). Blank cells stay blank, every other cell keeps
      its glyph or becomes '◉', and the circuit itself is a value that the
      copy leaves as it was. */
  method Render(circuit: Canvas, width: nat, height: nat, flash: (int, int) -> bool) returns (output: Canvas)
    requires Shaped(circuit, width, height)
    ensures Shaped(output, width, height)
    ensures forall v, u :: 0 <= v < height && 0 <= u < width && circuit[v][u] == ' ' ==> output[v][u] == ' '
    ensures forall v, u :: 0 <= v < height && 0 <= u < width ==> output[v][u] == circuit[v][u] || output[v][u] == '◉'
    ensures forall v, u :: 0 <= v < height && 0 <= u < width ==>
      (output[v][u] == '◉' <==> circuit[v][u] == '◉' || (circuit[v][u] != ' ' && flash(u, v)))
  {
    output := Filled(width, height, ' ');
    var y := 0;
    while y < height
      invariant 0 <= y <= height
      invariant Shaped(output, width, height)
      invariant forall v, u :: 0 <= v < y && 0 <= u < width ==>
        output[v][u] == (if circuit[v][u] != ' ' && flash(u, v) then '◉' else circuit[v][u])
    {
      var x := 0;
      while x < width
        invariant 0 <= x <= width
        invariant Shaped(output, width, height)
        invariant forall v, u :: 0 <= v < y && 0 <= u < width ==>
          output[v][u] == (if circuit[v][u] != ' ' && flash(u, v) then '◉' else circuit[v][u])
        invariant forall u :: 0 <= u < x ==>
          output[y][u] == (if circuit[y][u] != ' ' && flash(u, y) then '◉' else circuit[y][u])
      {
        output := Put(output, width, height, x, y, circuit[y][x]);
        if circuit[y][x] != ' ' && flash(x, y) {
          output := Put(output, width, height, x, y, '◉');
        }
        x := x + 1;
      }
      y := y + 1;
    }
  }
}
