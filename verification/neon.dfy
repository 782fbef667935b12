/** The neon card: the name between two bars that are lit only while the
    neon glows, three urls marked with '▸ ' while it glows, and a sparse
    grid of sparks behind them.

    Whether the neon glows (a sine of the time above its midpoint) is a
    parameter, and so is whether a spark appears at a grid point (a draw
    below 0.1), the oracle `spark(x, y)`. */
module Neon {
  import opened JsBuiltins
  import opened Text

  /** The bar drawn above and below the name while glowing. */
  function Bar(): string
  {
    Repeat('═', 31)
  }

  const Name: string := "║      S P I N U T E      ║"

  /** The three urls without their marker. */
  const Urls: seq<string> := ["https://spinute.notion.site/", "https://github.com/spinute", "https://x.com/spinute"]

  /** The text of the row k below `centerY`, if that row holds one: the bars
      at -1 and 1 only while glowing, the name at 0, and the urls at 3, 4
      and 5, marked with '▸ ' exactly while glowing. */
  function RowText(k: int, glow: bool): (text: Option<string>)
    ensures text.Some? <==> k in {0, 3, 4, 5} || (glow && k in {-1, 1})
    ensures k == 0 ==> text == Some(Name)
    ensures glow && (k == -1 || k == 1) ==> text == Some(Bar())
    ensures 3 <= k <= 5 ==> text == Some((if glow then "▸ " else "") + Urls[k - 3])
  {
    if k == -1 && glow then Some(Bar())
    else if k == 0 then Some(Name)
    else if k == 1 && glow then Some(Bar())
    else if 3 <= k <= 5 then Some((if glow then "▸ " else "") + Urls[k - 3])
    else None
  }

  /** A grid point of the background: on every tenth column or every fifth
      row. */
  predicate OnGrid(x: int, y: int)
  {
    x % 10 == 0 || y % 5 == 0
  }

  /** The glyph of a spark: '+' while glowing, '·' otherwise. */
  function SparkGlyph(glow: bool): char
  {
    if glow then '+' else '·'
  }

  /** A background line of row y: `width` code units, a spark glyph
      exactly at the grid points that draw a spark, blank elsewhere. */
  predicate Background(line: string, width: nat, y: int, glow: bool, spark: (int, int) -> bool)
  {
    && |line| == width
    && (forall x :: 0 <= x < width ==> (line[x] != ' ' <==> OnGrid(x, y) && spark(x, y)))
    && (forall x :: 0 <= x < width && line[x] != ' ' ==> line[x] == SparkGlyph(glow))
  }

  /** The background loop of `render`: one code unit per column. */
  method BackgroundLine(width: nat, y: int, glow: bool, spark: (int, int) -> bool) returns (line: string)
    ensures Background(line, width, y, glow, spark)
  {
    line := [];
    var x := 0;
    while x < width
      invariant 0 <= x <= width && |line| == x
      invariant forall u :: 0 <= u < x ==> (line[u] != ' ' <==> OnGrid(u, y) && spark(u, y))
      invariant forall u :: 0 <= u < x && line[u] != ' ' ==> line[u] == SparkGlyph(glow)
    {
      if (x % 10 == 0 || y % 5 == 0) && spark(x, y) {
        line := line + [if glow then '+' else '·'];
      } else {
        line := line + [' '];
      }
      x := x + 1;
    }
  }

  /** The row y of `render` is a background line: no bar, name or url. */
  predicate IsBackgroundRow(y: int, height: nat, glow: bool)
  {
    RowText(y - (height / 2 - 3), glow).None?
  }

  /** Line is row y of `render`: a row holding a text is that text centred
      in the width, and every other row is a background line. */
  predicate IsRow(line: string, y: int, width: nat, height: nat, glow: bool, spark: (int, int) -> bool)
  {
    if IsBackgroundRow(y, height, glow) then Background(line, width, y, glow, spark)
    else line == CenterText(RowText(y - (height / 2 - 3), glow).value, width)
  }

  /** One row of `render`. */
  method RenderRow(width: nat, height: nat, y: int, glow: bool, spark: (int, int) -> bool) returns (line: string)
    ensures IsRow(line, y, width, height, glow, spark)
  {
    var centerY := height / 2 - 3;
    var text := RowText(y - centerY, glow);
    if text.Some? {
      line := CenterText(text.value, width);
    } else {
      line := BackgroundLine(width, y, glow, spark);
    }
  }

  /** `render` before colouring: exactly `height` lines, row y being the
      line `IsRow` describes. */
  method Render(width: nat, height: nat, glow: bool, spark: (int, int) -> bool) returns (lines: seq<string>)
    ensures |lines| == height
    ensures forall y :: 0 <= y < height ==> IsRow(lines[y], y, width, height, glow, spark)
  {
    lines := [];
    var y := 0;
    while y < height
      invariant 0 <= y <= height && |lines| == y
      invariant forall v :: 0 <= v < y ==> IsRow(lines[v], v, width, height, glow, spark)
    {
      var line := RenderRow(width, height, y, glow, spark);
      lines := lines + [line];
      y := y + 1;
    }
  }

  /** Without the glow the rows just above and below the name are
      background lines, not bars. */
  lemma NoBarsWithoutGlow(y: int, height: nat)
    requires y == height / 2 - 3 - 1 || y == height / 2 - 3 + 1
    ensures IsBackgroundRow(y, height, false)
    ensures !IsBackgroundRow(y, height, true)
  {
  }

  /** A url centred with or without the '▸ ' marker, read back at the
      text's offset, starts with the marker exactly when it was added, and
      ends with the url. */
  lemma MarkedText(url: string, glow: bool, width: int)
    requires |url| >= 2 && url[0] == 'h'
    ensures var text := (if glow then "▸ " else "") + url;
      var line := CenterText(text, width);
      var pad := CenterPad(text, width);
      && (glow <==> line[pad..pad + 2] == "▸ ")
      && line[pad + |text| - |url|..pad + |text|] == url
  {
    var text := (if glow then "▸ " else "") + url;
    var line := CenterText(text, width);
    var pad := CenterPad(text, width);
    SubSlice(line, pad, text, 0, 2);
    SubSlice(line, pad, text, |text| - |url|, |text|);
    assert text[|text| - |url|..] == url;
    if !glow {
      assert text[..2][0] == 'h';
    }
  }

  /** Each url row, read back at the text's offset, shows the url behind
      the '▸ ' marker exactly while glowing. */
  lemma UrlRowMarker(k: int, glow: bool, width: int)
    requires 3 <= k <= 5
    ensures var text := RowText(k, glow).value;
      var line := CenterText(text, width);
      var pad := CenterPad(text, width);
      && (glow <==> line[pad..pad + 2] == "▸ ")
      && line[pad + |text| - |Urls[k - 3]|..pad + |text|] == Urls[k - 3]
  {
    var url := Urls[k - 3];
    assert |url| >= 2 && url[0] == 'h' by {
      assert k - 3 == 0 || k - 3 == 1 || k - 3 == 2;
    }
    MarkedText(url, glow, width);
  }
}
