/** The falling-code effect: one drop counter per column that grows by one
    row per frame and is sent back to the top at random or once it has
    fallen past the bottom; a column is painted above its drop, brighter
    toward the drop's head.

    The characters drawn and the colour codes are not modelled: a painted
    cell is represented by its brightness tier. */
module Rain {
  import opened JsBuiltins

  /** The chance per frame that a drop restarts is a draw above this. */
  const RestartAbove: real := 0.98

  /** `drops = Array(width).fill(0).map(() => Math.floor(Math.random() * height))`:
      one draw per column. Every drop starts on the grid. */
  function NewDrops(width: nat, height: nat, draws: seq<real>): (drops: seq<int>)
    requires |draws| == width
    requires forall k :: 0 <= k < width ==> IsDraw(draws[k])
    ensures |drops| == width
    ensures height > 0 ==> forall k :: 0 <= k < width ==> 0 <= drops[k] < height
    ensures height == 0 ==> forall k :: 0 <= k < width ==> drops[k] == 0
  {
    seq(width, k requires 0 <= k < width => Pick(draws[k], height))
  }

  /** Every drop is at least 0 and at most one row past the bottom. */
  predicate InRange(drops: seq<int>, height: nat)
  {
    forall k :: 0 <= k < |drops| ==> 0 <= drops[k] <= height + 1
  }

  /** `update`: each column takes one draw; a draw above 0.98, or a drop
      already past the bottom, restarts the drop at row 0, and otherwise
      the drop falls one row. */
  method Update(drops: seq<int>, height: nat, draws: seq<real>) returns (next: seq<int>)
    requires |draws| == |drops|
    ensures |next| == |drops|
    ensures forall k :: 0 <= k < |drops| ==> next[k] == 0 || next[k] == drops[k] + 1
    ensures forall k :: 0 <= k < |drops| && drops[k] >= 0 ==> (next[k] == 0 <==> draws[k] > RestartAbove || drops[k] > height)
    ensures forall k :: 0 <= k < |drops| && drops[k] > height ==> next[k] == 0
    ensures InRange(drops, height) ==> InRange(next, height)
  {
    next := drops;
    var i := 0;
    while i < |drops|
      invariant 0 <= i <= |drops| && |next| == |drops|
      invariant forall k :: i <= k < |drops| ==> next[k] == drops[k]
      invariant forall k :: 0 <= k < i ==>
        next[k] == (if draws[k] > RestartAbove || drops[k] > height then 0 else drops[k] + 1)
    {
      if draws[i] > RestartAbove || next[i] > height {
        next := next[i := 0];
      } else {
        next := next[i := next[i] + 1];
      }
      i := i + 1;
    }
  }

  /** The drops after n frames, frame f taking the draws `frames[f]`. */
  function Frames(drops: seq<int>, height: nat, frames: seq<seq<real>>): seq<int>
    requires forall f :: 0 <= f < |frames| ==> |frames[f]| == |drops|
    decreases |frames|
  {
    if |frames| == 0 then drops
    else
      Frames(seq(|drops|, k requires 0 <= k < |drops| =>
               if frames[0][k] > RestartAbove || drops[k] > height then 0 else drops[k] + 1),
             height, frames[1..])
  }

  /** From the initial drops, whatever the draws, no drop ever gets more
      than one row past the bottom. */
  lemma {:induction false} DropsStayInRange(drops: seq<int>, height: nat, frames: seq<seq<real>>)
    requires InRange(drops, height)
    requires forall f :: 0 <= f < |frames| ==> |frames[f]| == |drops|
    ensures InRange(Frames(drops, height, frames), height)
    decreases |frames|
  {
    if |frames| > 0 {
      var next := seq(|drops|, k requires 0 <= k < |drops| =>
                    if frames[0][k] > RestartAbove || drops[k] > height then 0 else drops[k] + 1);
      assert InRange(next, height);
      DropsStayInRange(next, height, frames[1..]);
    }
  }

  // ---------------------------------------------------------------------------
  // Rendering
  // ---------------------------------------------------------------------------

  /** How a cell is painted: blank, or one of three brightness tiers. */
  datatype Tier = Blank | Green | BrightGreen | White

  /** The tier of row y in a column whose drop is at `drop`, from the
      brightness (drop - y) / 5 and the thresholds 0.8, 0.4 and 0. */
  function TierAt(drop: int, y: int): (t: Tier)
    ensures t == Blank <==> drop <= y
  {
    var brightness := (drop - y) as real / 5.0;
    if brightness > 0.8 then White
    else if brightness > 0.4 then BrightGreen
    else if brightness > 0.0 then Green
    else Blank
  }

  /** The tiers in whole rows: five or more rows above the drop is white,
      three or four bright green, one or two green, and the drop's own row
      and everything below it stay blank. */
  lemma TierByDistance(drop: int, y: int)
    ensures TierAt(drop, y) == White <==> drop - y >= 5
    ensures TierAt(drop, y) == BrightGreen <==> 3 <= drop - y <= 4
    ensures TierAt(drop, y) == Green <==> 1 <= drop - y <= 2
    ensures TierAt(drop, y) == Blank <==> drop - y <= 0
  {
  }

  /** One column of `render`'s painting loop: rows are walked from 0 while
      y <= drop and y < height, and each visited row gets its tier; no
      other column changes. */
  method PaintColumn(grid: seq<seq<Tier>>, width: nat, height: nat, x: nat, drop: int)
    returns (out: seq<seq<Tier>>)
    requires x < width
    requires |grid| == height && forall y :: 0 <= y < height ==> |grid[y]| == width
    requires forall y :: 0 <= y < height ==> grid[y][x] == Blank
    ensures |out| == height && forall y :: 0 <= y < height ==> |out[y]| == width
    ensures forall y :: 0 <= y < height ==> out[y][x] == TierAt(drop, y)
    ensures forall y, u :: 0 <= y < height && 0 <= u < width && u != x ==> out[y][u] == grid[y][u]
  {
    out := grid;
    var y := 0;
    while y <= drop && y < height
      invariant 0 <= y <= height
      invariant |out| == height && forall v :: 0 <= v < height ==> |out[v]| == width
      invariant forall v :: 0 <= v < height ==> out[v][x] == (if v < y then TierAt(drop, v) else Blank)
      invariant forall v, u :: 0 <= v < height && 0 <= u < width && u != x ==> out[v][u] == grid[v][u]
    {
      var tier := TierAt(drop, y);
      if tier != Blank {
        out := out[y := out[y][x := tier]];
      }
      y := y + 1;
    }
    forall v | y <= v < height
      ensures TierAt(drop, v) == Blank
    {
      TierByDistance(drop, v);
    }
  }

  /** `render`'s painting: every column in turn. Row y of column x ends up
      painted exactly when y < min(drop, height), with the tier its
      distance above the drop gives. */
  method Render(drops: seq<int>, width: nat, height: nat) returns (grid: seq<seq<Tier>>)
    requires |drops| == width
    ensures |grid| == height && forall y :: 0 <= y < height ==> |grid[y]| == width
    ensures forall y, x :: 0 <= y < height && 0 <= x < width ==> grid[y][x] == TierAt(drops[x], y)
    ensures forall y, x :: 0 <= y < height && 0 <= x < width ==> (grid[y][x] != Blank <==> y < drops[x])
  {
    grid := seq(height, _ => seq(width, _ => Blank));
    var x := 0;
    while x < width
      invariant 0 <= x <= width
      invariant |grid| == height && forall y :: 0 <= y < height ==> |grid[y]| == width
      invariant forall y, u :: 0 <= y < height && 0 <= u < x ==> grid[y][u] == TierAt(drops[u], y)
      invariant forall y, u :: 0 <= y < height && x <= u < width ==> grid[y][u] == Blank
    {
      grid := PaintColumn(grid, width, height, x, drops[x]);
      x := x + 1;
    }
    forall v, u | 0 <= v < height && 0 <= u < width
      ensures grid[v][u] != Blank <==> v < drops[u]
    {
      TierByDistance(drops[u], v);
    }
  }
}
