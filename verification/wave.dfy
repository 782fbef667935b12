/** The ASCII-wave card: a field of wave glyphs where two sine waves add up
    to more than 1.5 in magnitude, with the name written over it and three
    url rows replacing it below.

    The sum of the two sines at each cell is a parameter, the oracle
    `wave(x, y)`. */
module Wave {
  import opened JsBuiltins
  import opened Text

  /** The eight wave glyphs, by rising intensity. */
  const WaveChars: string := "~≈∼∿〜～━─"

  const Name: string := "spinute"

  const Urls: seq<string> := ["https://spinute.notion.site/", "https://github.com/spinute", "https://x.com/spinute"]

  function Abs(r: real): real
  {
    if r < 0.0 then -r else r
  }

  /** `Math.floor(Math.abs(combined * 3)) % waveChars.length`: always an
      index of a wave glyph. */
  function GlyphIndex(combined: real): (i: int)
    ensures 0 <= i < |WaveChars|
  {
    Abs(combined * 3.0).Floor % |WaveChars|
  }

  /** The cell for a wave sum: a wave glyph when the sum exceeds 1.5 in
      magnitude, blank otherwise. */
  function WaveCell(combined: real): (c: char)
    ensures c != ' ' <==> Abs(combined) > 1.5
    ensures c != ' ' ==> c in WaveChars
  {
    if Abs(combined) > 1.5 then WaveChars[GlyphIndex(combined)] else ' '
  }

  /** The glyph loop of `render` for row y: one cell per column. */
  method WaveLine(width: nat, y: int, wave: (int, int) -> real) returns (line: string)
    ensures |line| == width
    ensures forall x :: 0 <= x < width ==> line[x] == WaveCell(wave(x, y))
  {
    line := [];
    var x := 0;
    while x < width
      invariant 0 <= x <= width && |line| == x
      invariant forall u :: 0 <= u < x ==> line[u] == WaveCell(wave(u, y))
    {
      line := line + [WaveCell(wave(x, y))];
      x := x + 1;
    }
  }

  /** Writing the last code unit of a text is one more overlay after the
      rest. */
  lemma {:induction false} OverlayTextSnoc(line: string, start: int, text: string, c: char)
    ensures OverlayText(line, start, text + [c]) == Overlay(OverlayText(line, start, text), start + |text|, c)
    decreases |text|
  {
    if |text| == 0 {
      assert text + [c] == [c];
      assert [c][1..] == [];
    } else {
      assert (text + [c])[0] == text[0];
      assert (text + [c])[1..] == text[1..] + [c];
      OverlayTextSnoc(Overlay(line, start, text[0]), start + 1, text[1..], c);
    }
  }

  /** Every code unit an overlay leaves comes from the line or the text. */
  lemma {:induction false} OverlayTextFrom(line: string, start: int, text: string)
    ensures forall k :: 0 <= k < |OverlayText(line, start, text)| ==>
      OverlayText(line, start, text)[k] in line || OverlayText(line, start, text)[k] in text
    decreases |text|
  {
    if |text| > 0 {
      var next := Overlay(line, start, text[0]);
      OverlayTextFrom(next, start + 1, text[1..]);
      forall k | 0 <= k < |next|
        ensures next[k] in line || next[k] == text[0]
      {
        if start < 0 {
          assert next == [text[0]] + line;
          if k > 0 {
            assert next[k] == line[k - 1];
          }
        }
      }
      forall k | 0 <= k < |text[1..]|
        ensures text[1..][k] in text
      {
        assert text[1..][k] == text[k + 1];
      }
    }
  }

  /** The overlay loop of `render`: for each code unit of the text, the
      `substring` splice at startX + i when that index is before the end.
      It computes `OverlayText`. */
  method OverlayLoop(line: string, start: int, text: string) returns (r: string)
    ensures r == OverlayText(line, start, text)
  {
    r := line;
    var i := 0;
    while i < |text|
      invariant 0 <= i <= |text|
      invariant r == OverlayText(line, start, text[..i])
    {
      OverlayPrefixStep(line, start, text, i);
      r := Overlay(r, start + i, text[i]);
      i := i + 1;
    }
    assert text[..i] == text;
  }

  /** Overlaying one more code unit of the text extends the overlay of the
      prefix by one `Overlay` step. */
  lemma OverlayPrefixStep(line: string, start: int, text: string, i: nat)
    requires i < |text|
    ensures OverlayText(line, start, text[..i + 1]) == Overlay(OverlayText(line, start, text[..i]), start + i, text[i])
  {
    var prefix := text[..i];
    assert text[..i + 1] == prefix + [text[i]];
    assert |prefix| == i;
    OverlayTextSnoc(line, start, prefix, text[i]);
  }

  /** `Math.floor((width - text.length) / 2)`: where an overlay starts. */
  function StartX(width: nat, text: string): int
  {
    (width - |text|) / 2
  }

  /** A text that fits in the width starts inside the line and ends by
      its end. */
  lemma StartXFits(width: nat, text: string)
    requires |text| <= width
    ensures 0 <= StartX(width, text) && StartX(width, text) + |text| <= width
  {
  }

  /** On a card at least as wide as the longest url (28 code units; the
      default card is 80 wide) every overlay text fits, so `RowLayout`
      fixes every row of `render`. */
  lemma TextsFit(width: nat)
    requires width >= |Urls[0]|
    ensures |Urls[0]| == 28
    ensures forall y, height: nat :: OverlayAt(y, height).Some? ==> |OverlayAt(y, height).value| <= width
  {
  }

  /** The text written over row y, if any: the name two rows above the
      middle row, the urls on the middle row and the two below it. */
  function OverlayAt(y: int, height: nat): (text: Option<string>)
    ensures text.Some? <==> y - height / 2 in {-2, 0, 1, 2}
  {
    var k := y - height / 2;
    if k == -2 then Some(Name)
    else if 0 <= k <= 2 then Some(Urls[k])
    else None
  }

  /** No code unit of the text is a newline. */
  predicate NoNewline(s: string)
  {
    forall k :: 0 <= k < |s| ==> s[k] != '\n'
  }

  /** None of the card's texts or glyphs is a newline. */
  lemma ConstantsHaveNoNewline()
    ensures '\n' !in WaveChars
    ensures NoNewline(Name) && NoNewline(Urls[0]) && NoNewline(Urls[1]) && NoNewline(Urls[2])
  {
  }

  /** An overlay of a text without newlines onto a line without newlines
      leaves none. */
  lemma OverlayNoNewline(line: string, start: int, text: string)
    requires NoNewline(line) && NoNewline(text)
    ensures NoNewline(OverlayText(line, start, text))
  {
    OverlayTextFrom(line, start, text);
  }

  /** Row y is the plain wave line: `width` cells from the wave sums. */
  ghost predicate WaveLayout(line: string, width: nat, y: int, wave: (int, int) -> real)
  {
    |line| == width && forall x :: 0 <= x < width ==> line[x] == WaveCell(wave(x, y))
  }

  /** The name row, when the name fits: `width` long, the name at
      floor((width - 7) / 2), the wave everywhere else. */
  ghost predicate NameLayout(line: string, width: nat, y: int, wave: (int, int) -> real)
  {
    |Name| <= width ==>
      var start := StartX(width, Name);
      && |line| == width
      && line[start..start + |Name|] == Name
      && forall x :: 0 <= x < width && !(start <= x < start + |Name|) ==> line[x] == WaveCell(wave(x, y))
  }

  /** A url row, when the url fits: `width` long, the url at
      floor((width - |url|) / 2), blank everywhere else. */
  predicate UrlLayout(line: string, width: nat, url: string)
  {
    |url| <= width ==>
      var start := StartX(width, url);
      && |line| == width
      && line[start..start + |url|] == url
      && forall x :: 0 <= x < width && !(start <= x < start + |url|) ==> line[x] == ' '
  }

  /** What row y of a card `height` rows high shows: the name row or a
      url row where `OverlayAt` puts a text, the wave line elsewhere. */
  ghost predicate RowLayout(line: string, width: nat, height: nat, y: int, wave: (int, int) -> real)
  {
    match OverlayAt(y, height)
    case None => WaveLayout(line, width, y, wave)
    case Some(text) =>
      if text == Name then NameLayout(line, width, y, wave) else UrlLayout(line, width, text)
  }

  /** The name row: the wave line with the name written over it from
      floor((width - 7) / 2). When the name fits, the row keeps the width,
      shows the name there and the wave everywhere else. */
  method NameRow(width: nat, y: int, wave: (int, int) -> real) returns (line: string)
    ensures NoNewline(line)
    ensures NameLayout(line, width, y, wave)
  {
    var start := StartX(width, Name);
    var base := WaveLine(width, y, wave);
    line := OverlayLoop(base, start, Name);
    if |Name| <= width {
      StartXFits(width, Name);
      OverlayTextInPlace(base, start, Name);
    }
    ConstantsHaveNoNewline();
    OverlayNoNewline(base, start, Name);
  }

  /** A url row: `width` spaces with the url written over them from
      floor((width - |url|) / 2). When the url fits, the row keeps the
      width, shows the url there and is blank everywhere else. */
  method UrlRow(width: nat, url: string) returns (line: string)
    requires NoNewline(url)
    ensures NoNewline(line)
    ensures UrlLayout(line, width, url)
  {
    var start := StartX(width, url);
    var base := Repeat(' ', width);
    line := OverlayLoop(base, start, url);
    if |url| <= width {
      StartXFits(width, url);
      OverlayTextInPlace(base, start, url);
    }
    OverlayNoNewline(base, start, url);
  }

  /** One row of `render`: the name row, a url row, or the wave line, as
      `OverlayAt` picks. */
  method RenderRow(width: nat, height: nat, y: int, wave: (int, int) -> real) returns (line: string)
    ensures NoNewline(line)
    ensures RowLayout(line, width, height, y, wave)
  {
    var text := OverlayAt(y, height);
    if text == Some(Name) {
      line := NameRow(width, y, wave);
    } else if text.Some? {
      ConstantsHaveNoNewline();
      line := UrlRow(width, text.value);
    } else {
      line := WaveLine(width, y, wave);
    }
  }

  /** `render` before colouring: `height` rows, each laid out as its
      position asks, joined by newlines, so the text holds exactly
      height - 1 newlines. */
  method Render(width: nat, height: nat, wave: (int, int) -> real) returns (lines: seq<string>, output: string)
    ensures |lines| == height
    ensures forall y :: 0 <= y < height ==> NoNewline(lines[y])
    ensures forall y :: 0 <= y < height ==> RowLayout(lines[y], width, height, y, wave)
    ensures output == JoinLines(lines)
    ensures height > 0 ==> CountChar(output, '\n') == height - 1
  {
    lines := [];
    var y := 0;
    while y < height
      invariant 0 <= y <= height && |lines| == y
      invariant forall v :: 0 <= v < y ==> NoNewline(lines[v])
      invariant forall v :: 0 <= v < y ==> RowLayout(lines[v], width, height, v, wave)
    {
      var line := RenderRow(width, height, y, wave);
      lines := lines + [line];
      y := y + 1;
    }
    output := JoinLines(lines);
    JoinLinesNewlines(lines);
  }
}
