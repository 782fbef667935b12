/** The floating card: a bordered box around centred lines of content,
    dropped onto a grid of blank cells sprinkled with twenty particles.

    A grid cell here holds a whole JavaScript string, as the source's
    `string[][]` does: the card writes one code unit per cell, a particle
    may write a two-code-unit emoji. The emoji themselves, and the pin in
    the content, are parameters (a Dafny `char` cannot hold half of a
    surrogate pair). The sine and cosine of the float offsets are
    parameters too. */
module Floating {
  import opened JsBuiltins
  import opened Canvas

  type Grid = seq<seq<string>>

  /** The card's content: the pin, the name, the pin again and the urls. */
  function CardContent(pin: string): seq<string>
  {
    [pin, "spinute", pin, "https://spinute.notion.site/", "https://github.com/spinute", "https://x.com/spinute"]
  }

  /** With a pin no longer than the first url, as the two-code-unit pin
      is, the card is 36 code units wide and 11 lines high. */
  lemma CardSize(pin: string)
    requires |pin| <= 28
    ensures CardWidth(CardContent(pin)) == 36
    ensures CardHeight(|CardContent(pin)|) == 11
  {
    var content := CardContent(pin);
    assert |content[3]| == 28;
  }

  /** `Math.max(...lengths)`: the length of the longest line. */
  function Longest(content: seq<string>): (m: nat)
    requires |content| > 0
    ensures forall i :: 0 <= i < |content| ==> |content[i]| <= m
    ensures exists i :: 0 <= i < |content| && |content[i]| == m
  {
    if |content| == 1 then |content[0]|
    else
      var rest := Longest(content[1..]);
      assert forall i :: 1 <= i < |content| ==> content[i] == content[1..][i - 1];
      if |content[0]| >= rest then |content[0]| else rest
  }

  /** The card's width: eight more than the longest content line, so every
      line leaves at least eight columns of border and padding, and the
      longest leaves exactly eight. */
  function CardWidth(content: seq<string>): (w: nat)
    requires |content| > 0
    ensures w >= 8
    ensures forall i :: 0 <= i < |content| ==> |content[i]| + 8 <= w
    ensures exists i :: 0 <= i < |content| && |content[i]| + 8 == w
  {
    Longest(content) + 8
  }

  /** A border or blank line: `left + fill.repeat(width - 2) + right`. */
  function BoxLine(left: char, fill: char, right: char, width: nat): (line: string)
    requires width >= 2
    ensures |line| == width
    ensures line[0] == left && line[width - 1] == right
    ensures forall k :: 0 < k < width - 1 ==> line[k] == fill
  {
    [left] + Repeat(fill, width - 2) + [right]
  }

  /** The left padding of a content line inside the borders. */
  function ContentPad(text: string, width: nat): nat
    requires |text| + 2 <= width
  {
    (width - 2 - |text|) / 2
  }

  /** A content line: the text centred between two '│' borders, with the
      left padding floor((width - 2 - |text|) / 2) and the rest on the
      right. The text sits at offset 1 + that padding and every other
      inner cell is blank. */
  function ContentLine(text: string, width: nat): (line: string)
    requires |text| + 2 <= width
    ensures |line| == width
    ensures line[0] == '│' && line[width - 1] == '│'
    ensures line[1 + ContentPad(text, width)..1 + ContentPad(text, width) + |text|] == text
    ensures forall k :: 0 < k < width - 1 && !(1 + ContentPad(text, width) <= k < 1 + ContentPad(text, width) + |text|)
                        ==> line[k] == ' '
  {
    var pad := ContentPad(text, width);
    var line := ['│'] + Repeat(' ', pad) + text + Repeat(' ', width - 2 - pad - |text|) + ['│'];
    assert line[1 + pad..1 + pad + |text|] == text;
    line
  }

  /** The row of the card that holds content line i: after the top border
      and the first blank line, and one further down past the spacer that
      follows item 2. */
  function ContentRow(i: nat): nat
  {
    2 + i + (if i > 2 then 1 else 0)
  }

  /** The number of lines of a card around n content lines: the top border,
      a blank line, the content, the spacer after item 2 when there is one,
      a blank line and the bottom border. */
  function CardHeight(n: nat): nat
  {
    n + 4 + (if n >= 3 then 1 else 0)
  }

  /** The box around `content`: `CardHeight` lines, all `CardWidth` long,
      with the top border, a blank line, the content lines at their
      `ContentRow`s, the spacer after item 2, a blank line and the bottom
      border. */
  predicate CardLayout(card: seq<string>, content: seq<string>)
    requires |content| > 0
  {
    && |card| == CardHeight(|content|)
    && (forall k :: 0 <= k < |card| ==> |card[k]| == CardWidth(content))
    && card[0] == BoxLine('╭', '─', '╮', CardWidth(content))
    && card[|card| - 1] == BoxLine('╰', '─', '╯', CardWidth(content))
    && card[1] == BoxLine('│', ' ', '│', CardWidth(content))
    && card[|card| - 2] == BoxLine('│', ' ', '│', CardWidth(content))
    && (|content| >= 3 ==> card[5] == BoxLine('│', ' ', '│', CardWidth(content)))
    && forall i :: 0 <= i < |content| ==> card[ContentRow(i)] == ContentLine(content[i], CardWidth(content))
  }

  /** The card box of `render`, built line by line as the source pushes
      them. Every line is `CardWidth` long; the border, blank and content
      lines sit where `ContentRow` and `CardHeight` say. */
  method BuildCard(content: seq<string>) returns (card: seq<string>)
    requires |content| > 0
    ensures CardLayout(card, content)
  {
    var width := CardWidth(content);
    var blank := BoxLine('│', ' ', '│', width);
    card := [BoxLine('╭', '─', '╮', width)];
    card := card + [blank];
    var i := 0;
    while i < |content|
      invariant 0 <= i <= |content|
      invariant CardSoFar(card, content, i)
    {
      card := AddItem(card, content, i);
      i := i + 1;
    }
    card := card + [blank];
    card := card + [BoxLine('╰', '─', '╯', width)];
    assert card[1] == blank && card[|card| - 2] == blank;
  }

  /** The top of the card after the first i content lines: the top border,
      the blank line, the lines pushed so far and the spacer after item 2
      once it is passed, all `CardWidth` long. */
  predicate CardSoFar(card: seq<string>, content: seq<string>, i: nat)
    requires 0 < |content| && i <= |content|
  {
    && |card| == 2 + i + (if i >= 3 then 1 else 0)
    && (forall k :: 0 <= k < |card| ==> |card[k]| == CardWidth(content))
    && card[0] == BoxLine('╭', '─', '╮', CardWidth(content))
    && card[1] == BoxLine('│', ' ', '│', CardWidth(content))
    && (i >= 3 ==> card[5] == BoxLine('│', ' ', '│', CardWidth(content)))
    && forall p :: 0 <= p < i ==> card[ContentRow(p)] == ContentLine(content[p], CardWidth(content))
  }

  /** One pass of the content loop: content line i, then the spacer when i
      is 2. */
  method AddItem(card: seq<string>, content: seq<string>, i: nat) returns (next: seq<string>)
    requires i < |content| && CardSoFar(card, content, i)
    ensures CardSoFar(next, content, i + 1)
  {
    var width := CardWidth(content);
    assert |content[i]| + 2 <= width;
    next := card + [ContentLine(content[i], width)];
    assert next[ContentRow(i)] == ContentLine(content[i], width);
    if i == 2 {
      next := next + [BoxLine('│', ' ', '│', width)];
    }
  }

  /** `Math.floor((gridSize - cardSize) / 2 + offset)`: where the card's
      corner lands, given the trigonometric offset. */
  function Start(gridSize: nat, cardSize: nat, offset: real): (s: int)
    ensures s as real <= (gridSize as real - cardSize as real) / 2.0 + offset < s as real + 1.0
  {
    ((gridSize as real - cardSize as real) / 2.0 + offset).Floor
  }

  // ---------------------------------------------------------------------------
  // Particles
  // ---------------------------------------------------------------------------

  /** The particle count of `render`. */
  const ParticleCount: nat := 20

  /** Particle i's draws are `rnd(4i) .. rnd(4i + 3)`: its column, its row,
      whether it is an emoji, and which emoji or which dot. */
  function ParticleAt(rnd: nat -> real, width: nat, height: nat, i: nat): (p: (int, int))
    requires IsStream(rnd)
    ensures width > 0 && height > 0 ==> InBounds(p.0, p.1, width, height)
  {
    (Pick(rnd(4 * i), width), Pick(rnd(4 * i + 1), height))
  }

  function ParticleGlyph(rnd: nat -> real, emojis: seq<string>, i: nat): string
    requires IsStream(rnd)
    requires |emojis| > 0
  {
    if rnd(4 * i + 2) < 0.2 then emojis[Pick(rnd(4 * i + 3), |emojis|)]
    else if rnd(4 * i + 3) < 0.5 then "·" else "∘"
  }

  /** The last of the first n particles that lands on (u, v), if any. */
  function LastHit(rnd: nat -> real, width: nat, height: nat, n: nat, u: int, v: int): (r: Option<nat>)
    requires IsStream(rnd)
    ensures r.Some? ==> r.value < n && ParticleAt(rnd, width, height, r.value) == (u, v)
    ensures r.None? ==> forall i :: 0 <= i < n ==> ParticleAt(rnd, width, height, i) != (u, v)
  {
    if n == 0 then None
    else if ParticleAt(rnd, width, height, n - 1) == (u, v) then Some(n - 1)
    else LastHit(rnd, width, height, n - 1, u, v)
  }

  /** No particle after the last hit lands on the same cell. */
  lemma {:induction false} LastHitIsLast(rnd: nat -> real, width: nat, height: nat, n: nat, u: int, v: int, i: nat)
    requires IsStream(rnd)
    requires LastHit(rnd, width, height, n, u, v).Some?
    requires LastHit(rnd, width, height, n, u, v).value < i < n
    ensures ParticleAt(rnd, width, height, i) != (u, v)
  {
    if ParticleAt(rnd, width, height, n - 1) != (u, v) && i < n - 1 {
      LastHitIsLast(rnd, width, height, n - 1, u, v, i);
    }
  }

  /** What cell (u, v) holds after the first n particles: the glyph of the
      last one that landed there, or the cell's old content when none did. */
  function AfterParticles(grid: Grid, width: nat, height: nat, rnd: nat -> real, emojis: seq<string>, n: nat, u: int, v: int): string
    requires Shaped(grid, width, height) && 0 <= v < height && 0 <= u < width
    requires IsStream(rnd)
    requires |emojis| > 0
  {
    match LastHit(rnd, width, height, n, u, v)
    case None => grid[v][u]
    case Some(i) => ParticleGlyph(rnd, emojis, i)
  }

  /** The grid holds, in every cell, what the first n particles left there. */
  ghost predicate Painted(out: Grid, grid: Grid, width: nat, height: nat, rnd: nat -> real, emojis: seq<string>, n: nat)
    requires Shaped(grid, width, height)
    requires IsStream(rnd)
    requires |emojis| > 0
  {
    && Shaped(out, width, height)
    && forall v, u :: 0 <= v < height && 0 <= u < width ==>
         out[v][u] == AfterParticles(grid, width, height, rnd, emojis, n, u, v)
  }

  /** The particle loop of `render`: twenty particles, each drawn on the
      grid when its cell is on it. A cell ends up holding the glyph of the
      last particle that landed on it, or its old content when none did. */
  method DrawParticles(grid: Grid, width: nat, height: nat, rnd: nat -> real, emojis: seq<string>)
    returns (out: Grid)
    requires Shaped(grid, width, height)
    requires IsStream(rnd)
    requires |emojis| > 0
    ensures Shaped(out, width, height)
    ensures forall v, u :: 0 <= v < height && 0 <= u < width ==>
      out[v][u] == match LastHit(rnd, width, height, ParticleCount, u, v)
                   case None => grid[v][u]
                   case Some(i) => ParticleGlyph(rnd, emojis, i)
  {
    out := grid;
    var i := 0;
    while i < ParticleCount
      invariant 0 <= i <= ParticleCount
      invariant Painted(out, grid, width, height, rnd, emojis, i)
    {
      out := DrawParticle(out, grid, width, height, rnd, emojis, i);
      i := i + 1;
    }
    forall v, u | 0 <= v < height && 0 <= u < width
      ensures out[v][u] == match LastHit(rnd, width, height, ParticleCount, u, v)
                           case None => grid[v][u]
                           case Some(i) => ParticleGlyph(rnd, emojis, i)
    {
      assert out[v][u] == AfterParticles(grid, width, height, rnd, emojis, ParticleCount, u, v);
    }
  }

  /** One pass of the particle loop: particle i's draws give its cell and
      glyph, and the glyph is written there when the cell is on the grid. */
  method DrawParticle(cur: Grid, grid: Grid, width: nat, height: nat, rnd: nat -> real, emojis: seq<string>, i: nat)
    returns (out: Grid)
    requires Shaped(grid, width, height)
    requires IsStream(rnd)
    requires |emojis| > 0
    requires Painted(cur, grid, width, height, rnd, emojis, i)
    ensures Painted(out, grid, width, height, rnd, emojis, i + 1)
  {
    var x := Pick(rnd(4 * i), width);
    var y := Pick(rnd(4 * i + 1), height);
    var useEmoji := rnd(4 * i + 2) < 0.2;
    var particle := if useEmoji then emojis[Pick(rnd(4 * i + 3), |emojis|)]
                    else if rnd(4 * i + 3) < 0.5 then "·" else "∘";
    assert particle == ParticleGlyph(rnd, emojis, i);
    out := cur;
    if 0 <= y < height && 0 <= x < width {
      out := out[y := out[y][x := particle]];
    }
    forall v, u | 0 <= v < height && 0 <= u < width
      ensures out[v][u] == AfterParticles(grid, width, height, rnd, emojis, i + 1, u, v)
    {
      if (u, v) != (x, y) {
        assert out[v][u] == cur[v][u];
      }
    }
  }

  // ---------------------------------------------------------------------------
  // Blit
  // ---------------------------------------------------------------------------

  /** (u, v) is covered by the card whose corner is (startX, startY). */
  predicate Covers(card: seq<string>, startX: int, startY: int, u: int, v: int)
  {
    0 <= v - startY < |card| && 0 <= u - startX < |card[v - startY]|
  }

  /** The blit loop of `render`: each code unit of the card goes to the
      grid cell at its offset from the corner, when that cell is on the
      grid. Covered cells hold the card's code unit; no other cell
      changes. */
  method Blit(grid: Grid, width: nat, height: nat, card: seq<string>, startX: int, startY: int)
    returns (out: Grid)
    requires Shaped(grid, width, height)
    ensures Shaped(out, width, height)
    ensures forall v, u :: 0 <= v < height && 0 <= u < width ==>
      out[v][u] == if Covers(card, startX, startY, u, v) then [card[v - startY][u - startX]] else grid[v][u]
  {
    out := grid;
    var y := 0;
    while y < |card|
      invariant 0 <= y <= |card|
      invariant Shaped(out, width, height)
      invariant forall v, u :: 0 <= v < height && 0 <= u < width ==>
        out[v][u] == if Covers(card, startX, startY, u, v) && v - startY < y then [card[v - startY][u - startX]] else grid[v][u]
    {
      out := BlitLine(out, grid, width, height, card, startX, startY, y);
      y := y + 1;
    }
  }

  /** One line of the blit: line y of the card goes to grid row startY + y. */
  method BlitLine(cur: Grid, grid: Grid, width: nat, height: nat, card: seq<string>, startX: int, startY: int, y: nat)
    returns (out: Grid)
    requires y < |card|
    requires Shaped(cur, width, height) && Shaped(grid, width, height)
    requires forall v, u :: 0 <= v < height && 0 <= u < width ==>
      cur[v][u] == if Covers(card, startX, startY, u, v) && v - startY < y then [card[v - startY][u - startX]] else grid[v][u]
    ensures Shaped(out, width, height)
    ensures forall v, u :: 0 <= v < height && 0 <= u < width ==>
      out[v][u] == if Covers(card, startX, startY, u, v) && v - startY < y + 1 then [card[v - startY][u - startX]] else grid[v][u]
  {
    out := cur;
    var line := card[y];
    var x := 0;
    while x < |line|
      invariant 0 <= x <= |line|
      invariant Shaped(out, width, height)
      invariant forall v, u :: 0 <= v < height && 0 <= u < width ==>
        out[v][u] == if Covers(card, startX, startY, u, v) && (v - startY < y || (v - startY == y && u - startX < x))
                     then [card[v - startY][u - startX]] else grid[v][u]
    {
      var gridY := startY + y;
      var gridX := startX + x;
      if gridY >= 0 && gridY < height && gridX >= 0 && gridX < width {
        out := out[gridY := out[gridY][gridX := [line[x]]]];
      }
      x := x + 1;
    }
  }

  /** `Array(height).fill(null).map(() => Array(width).fill(' '))`. */
  function BlankGrid(width: nat, height: nat): (g: Grid)
    ensures Shaped(g, width, height)
    ensures forall v, u :: 0 <= v < height && 0 <= u < width ==> g[v][u] == " "
  {
    seq(height, _ => seq(width, _ => " "))
  }

  /** The grid `render` turns into text, before colouring: blank cells,
      the particles, then the card on top. The card is the box built around
      the card's content; cells it covers hold its code units; every other
      cell holds what the particles left on a blank grid, which is a blank
      or one particle's glyph. */
  method Render(width: nat, height: nat, pin: string, emojis: seq<string>, rnd: nat -> real, offsetX: real, offsetY: real)
    returns (grid: Grid, card: seq<string>)
    requires IsStream(rnd)
    requires |emojis| > 0
    ensures Shaped(grid, width, height)
    ensures CardLayout(card, CardContent(pin))
    ensures forall v, u :: 0 <= v < height && 0 <= u < width ==>
      var startX := Start(width, |card[0]|, offsetX);
      var startY := Start(height, |card|, offsetY);
      if Covers(card, startX, startY, u, v) then grid[v][u] == [card[v - startY][u - startX]]
      else grid[v][u] == AfterParticles(BlankGrid(width, height), width, height, rnd, emojis, ParticleCount, u, v)
    ensures forall v, u :: 0 <= v < height && 0 <= u < width ==>
      var startX := Start(width, |card[0]|, offsetX);
      var startY := Start(height, |card|, offsetY);
      !Covers(card, startX, startY, u, v) ==> BlankOrParticle(grid[v][u], rnd, emojis)
  {
    var content := CardContent(pin);
    card := BuildCard(content);
    var startX := Start(width, |card[0]|, offsetX);
    var startY := Start(height, |card|, offsetY);
    var blank := BlankGrid(width, height);
    var particles := DrawParticles(blank, width, height, rnd, emojis);
    grid := Blit(particles, width, height, card, startX, startY);
    forall v, u | 0 <= v < height && 0 <= u < width
      ensures grid[v][u] == if Covers(card, startX, startY, u, v) then [card[v - startY][u - startX]]
                            else AfterParticles(blank, width, height, rnd, emojis, ParticleCount, u, v)
    {
      if !Covers(card, startX, startY, u, v) {
        assert grid[v][u] == particles[v][u];
      }
    }
    forall v, u | 0 <= v < height && 0 <= u < width
      ensures BlankOrParticle(AfterParticles(BlankGrid(width, height), width, height, rnd, emojis, ParticleCount, u, v), rnd, emojis)
    {
      ParticlesOnBlank(width, height, rnd, emojis, u, v);
    }
  }

  /** A cell is blank or holds one of the particles' glyphs. */
  predicate BlankOrParticle(cell: string, rnd: nat -> real, emojis: seq<string>)
    requires IsStream(rnd)
    requires |emojis| > 0
  {
    cell == " " || exists i :: 0 <= i < ParticleCount && cell == ParticleGlyph(rnd, emojis, i)
  }

  /** On a blank grid, what the particles leave in a cell is a blank or
      one particle's glyph. */
  lemma ParticlesOnBlank(width: nat, height: nat, rnd: nat -> real, emojis: seq<string>, u: int, v: int)
    requires IsStream(rnd)
    requires |emojis| > 0
    requires 0 <= v < height && 0 <= u < width
    ensures BlankOrParticle(AfterParticles(BlankGrid(width, height), width, height, rnd, emojis, ParticleCount, u, v), rnd, emojis)
  {
    match LastHit(rnd, width, height, ParticleCount, u, v)
    case None =>
    case Some(i) =>
  }
}
