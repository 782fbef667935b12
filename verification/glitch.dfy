/** The glitch card: centred lines of content that, at random and more
    often the stronger the glitch level, are shifted right by a few spaces
    or get one code unit overwritten by a block glyph, over a background of
    sparse noise and emoji.

    The block glyphs, the bar and name lines and the emoji list are
    parameters: they hold characters that are given here as code units of
    the source file, not as constants. The glitch level (a sine of the
    time) is a parameter in [0, 1]. */
module Glitch {
  import opened JsBuiltins
  import opened Text

  /** The draws one `addLine` call may take, in the order it takes them:
      the shift gate, the shift amount, the corruption gate, the position
      and the glyph. A draw the call does not reach is unused. */
  datatype LineDraws = LineDraws(shiftGate: real, shiftPick: real, corruptGate: real, posPick: real, glyphPick: real)
  {
    predicate Valid()
    {
      IsDraw(shiftGate) && IsDraw(shiftPick) && IsDraw(corruptGate) && IsDraw(posPick) && IsDraw(glyphPick)
    }
  }

  /** `Math.floor(Math.random() * 5) - 2`: a shift in [-2, 2]. */
  function ShiftAmount(r: real): (shift: int)
    requires IsDraw(r)
    ensures -2 <= shift <= 2
  {
    Pick(r, 5) - 2
  }

  /** The shift effect: max(0, shift) spaces in front of the line, which is
      otherwise kept as it was. */
  function Shift(line: string, r: real): (shifted: string)
    requires IsDraw(r)
    ensures |shifted| == |line| + Max(0, ShiftAmount(r))
    ensures |line| <= |shifted| <= |line| + 2
    ensures forall k :: 0 <= k < |shifted| - |line| ==> shifted[k] == ' '
    ensures shifted[|shifted| - |line|..] == line
  {
    Repeat(' ', Max(0, ShiftAmount(r))) + line
  }

  /** The corruption effect: `split('')`, one position overwritten, `join('')`.
      A non-empty line keeps its length and changes at most the drawn
      position; an empty line has no code units, so the write at index 0
      makes it that single glyph. */
  function Corrupt(line: string, r: real, glyph: char): (corrupted: string)
    requires IsDraw(r)
    ensures |line| > 0 ==> |corrupted| == |line|
    ensures |line| > 0 ==> corrupted[Pick(r, |line|)] == glyph
    ensures |line| > 0 ==> forall k :: 0 <= k < |line| && k != Pick(r, |line|) ==> corrupted[k] == line[k]
    ensures |line| == 0 ==> corrupted == [glyph]
  {
    var pos := Pick(r, |line|);
    if |line| == 0 then [glyph] else line[pos := glyph]
  }

  /** `addLine`: the shift with chance level * 0.3, then the corruption
      with chance level * 0.2. On a non-empty text the result is the text
      behind zero to two spaces with at most one code unit changed; at
      level 0 neither effect ever fires. */
  function AddLine(text: string, level: real, d: LineDraws, glyphs: string): (line: string)
    requires d.Valid() && |glyphs| > 0
    ensures |text| > 0 ==> |text| <= |line| <= |text| + 2
    ensures |text| > 0 ==> forall k, j :: 0 <= k < j < |text| ==>
      line[|line| - |text| + k] == text[k] || line[|line| - |text| + j] == text[j]
    ensures level <= 0.0 ==> line == text
  {
    var shifted := if d.shiftGate < level * 0.3 then Shift(text, d.shiftPick) else text;
    if d.corruptGate < level * 0.2 then Corrupt(shifted, d.posPick, glyphs[Pick(d.glyphPick, |glyphs|)])
    else shifted
  }

  /** The leading spaces the shift adds are never corrupted into anything
      but a block glyph: every code unit in front of the text is a space
      or one of the glyphs. */
  lemma AddLinePrefix(text: string, level: real, d: LineDraws, glyphs: string)
    requires d.Valid() && |glyphs| > 0 && |text| > 0
    ensures var line := AddLine(text, level, d, glyphs);
      forall k :: 0 <= k < |line| - |text| ==> line[k] == ' ' || line[k] in glyphs
  {
  }

  // ---------------------------------------------------------------------------
  // Background
  // ---------------------------------------------------------------------------

  /** A background cell: blank, a block glyph, or emoji number `index`. */
  datatype Cell = Blank | Noise(glyph: char) | Emoji(index: nat)

  /** One background cell from its draws: a glyph with chance
      level * 0.05, else an emoji with chance level * 0.01, else blank. The
      second draw is the glyph pick in the first case and the emoji gate
      otherwise, as the source's call order has it. */
  function BackgroundCell(level: real, glyphs: string, emojiCount: nat, draws: (real, real, real)): (c: Cell)
    requires IsDraw(draws.0) && IsDraw(draws.1) && IsDraw(draws.2)
    requires |glyphs| > 0 && emojiCount > 0
    ensures c.Noise? ==> c.glyph in glyphs
    ensures c.Emoji? ==> c.index < emojiCount
    ensures level <= 0.0 ==> c == Blank
  {
    if draws.0 < level * 0.05 then Noise(glyphs[Pick(draws.1, |glyphs|)])
    else if draws.1 < level * 0.01 then Emoji(Pick(draws.2, emojiCount))
    else Blank
  }

  /** The text of content row k below `centerY`, if row k holds one: the
      bar at 0, 2 and 8, the name at 1 and the urls at 4, 5 and 6. */
  function ContentAt(k: int, bar: string, name: string): (text: Option<string>)
    ensures text.Some? <==> k in {0, 1, 2, 4, 5, 6, 8}
  {
    if k == 0 || k == 2 || k == 8 then Some(bar)
    else if k == 1 then Some(name)
    else if k == 4 then Some("https://spinute.notion.site/")
    else if k == 5 then Some("https://github.com/spinute")
    else if k == 6 then Some("https://x.com/spinute")
    else None
  }

  /** Every background cell's three draws are draws. */
  ghost predicate ValidCellDraws(cellDraws: (int, int) -> (real, real, real))
  {
    forall x, y :: IsDraw(cellDraws(x, y).0) && IsDraw(cellDraws(x, y).1) && IsDraw(cellDraws(x, y).2)
  }

  /** Every row's `addLine` draws and every cell's draws are draws. */
  ghost predicate ValidDraws(lineDraws: int -> LineDraws, cellDraws: (int, int) -> (real, real, real))
  {
    (forall y :: lineDraws(y).Valid()) && ValidCellDraws(cellDraws)
  }

  /** A line of the card before colouring: a content line, or a background
      line as its cells. */
  datatype Line = Content(text: string) | Background(cells: seq<Cell>)

  /** Row y of `render`, centerY being floor(height / 2) - 4: the content
      line when y - centerY is one of 0, 1, 2, 4, 5, 6, 8, centred and put
      through `addLine`; otherwise a background line of `width` cells. */
  function LineAt(y: int, width: nat, height: nat, level: real, glyphs: string, emojiCount: nat, bar: string, name: string,
                  lineDraws: int -> LineDraws, cellDraws: (int, int) -> (real, real, real)): (line: Line)
    requires |glyphs| > 0 && emojiCount > 0
    requires ValidDraws(lineDraws, cellDraws)
    ensures line.Content? <==> y - (height / 2 - 4) in {0, 1, 2, 4, 5, 6, 8}
    ensures line.Background? ==> |line.cells| == width
  {
    var content := ContentAt(y - (height / 2 - 4), bar, name);
    if content.Some? then Content(AddLine(CenterText(content.value, width), level, lineDraws(y), glyphs))
    else Background(seq(width, x requires 0 <= x < width => BackgroundCell(level, glyphs, emojiCount, cellDraws(x, y))))
  }

  /** One pass of `render`'s loop: the row's content line through
      `addLine`, or its background line. */
  method RenderRow(y: int, width: nat, height: nat, level: real, glyphs: string, emojiCount: nat, bar: string, name: string,
                   lineDraws: int -> LineDraws, cellDraws: (int, int) -> (real, real, real))
    returns (line: Line)
    requires |glyphs| > 0 && emojiCount > 0
    requires ValidDraws(lineDraws, cellDraws)
    ensures line == LineAt(y, width, height, level, glyphs, emojiCount, bar, name, lineDraws, cellDraws)
  {
    var content := ContentAt(y - (height / 2 - 4), bar, name);
    if content.Some? {
      line := Content(AddLine(CenterText(content.value, width), level, lineDraws(y), glyphs));
    } else {
      var cells := BackgroundLine(width, y, level, glyphs, emojiCount, cellDraws);
      line := Background(cells);
    }
  }

  /** `render`'s loop over the rows: exactly `height` lines, row y being
      `LineAt(y)`. */
  method Render(width: nat, height: nat, level: real, glyphs: string, emojiCount: nat, bar: string, name: string,
                lineDraws: int -> LineDraws, cellDraws: (int, int) -> (real, real, real))
    returns (lines: seq<Line>)
    requires |glyphs| > 0 && emojiCount > 0
    requires ValidDraws(lineDraws, cellDraws)
    ensures |lines| == height
    ensures forall y :: 0 <= y < height ==>
      lines[y] == LineAt(y, width, height, level, glyphs, emojiCount, bar, name, lineDraws, cellDraws)
  {
    lines := [];
    var y := 0;
    while y < height
      invariant 0 <= y <= height && |lines| == y
      invariant forall v :: 0 <= v < y ==>
        lines[v] == LineAt(v, width, height, level, glyphs, emojiCount, bar, name, lineDraws, cellDraws)
    {
      var line := RenderRow(y, width, height, level, glyphs, emojiCount, bar, name, lineDraws, cellDraws);
      lines := lines + [line];
      y := y + 1;
    }
  }

  /** The background loop of `render`: one cell per column, `width` in all. */
  method BackgroundLine(width: nat, y: int, level: real, glyphs: string, emojiCount: nat, cellDraws: (int, int) -> (real, real, real))
    returns (cells: seq<Cell>)
    requires |glyphs| > 0 && emojiCount > 0
    requires ValidCellDraws(cellDraws)
    ensures |cells| == width
    ensures forall x :: 0 <= x < width ==> cells[x] == BackgroundCell(level, glyphs, emojiCount, cellDraws(x, y))
  {
    cells := [];
    var x := 0;
    while x < width
      invariant 0 <= x <= width && |cells| == x
      invariant forall u :: 0 <= u < x ==> cells[u] == BackgroundCell(level, glyphs, emojiCount, cellDraws(u, y))
    {
      cells := cells + [BackgroundCell(level, glyphs, emojiCount, cellDraws(x, y))];
      x := x + 1;
    }
  }
}
