/** The fixed-width string layout the cards share: centring a text in a
    line, and replacing the code unit at one position the way the wave
    card does it with two `substring` calls. */
module Text {
  import opened JsBuiltins

  /** The left padding of `centerText`: max(0, floor((width - |text|) / 2)). */
  function CenterPad(text: string, width: int): (pad: nat)
    ensures width >= |text| ==> pad == (width - |text|) / 2
    ensures width < |text| + 2 ==> pad == 0
  {
    Max(0, (width - |text|) / 2)
  }

  /** `centerText(text, width)` of the glitch and neon cards: left padding,
      the text, then right padding up to the width. The result has length
      max(width, |text|) and holds the text starting at the left padding;
      around a text that fits, the padding is blank, the left side is never
      wider than the right and the two differ by at most one. */
  function CenterText(text: string, width: int): (line: string)
    ensures |line| == Max(width, |text|)
    ensures line[CenterPad(text, width)..CenterPad(text, width) + |text|] == text
    ensures forall k :: 0 <= k < CenterPad(text, width) ==> line[k] == ' '
    ensures forall k :: CenterPad(text, width) + |text| <= k < |line| ==> line[k] == ' '
    ensures width >= |text| ==>
      var right := |line| - CenterPad(text, width) - |text|;
      CenterPad(text, width) <= right <= CenterPad(text, width) + 1
  {
    var pad := CenterPad(text, width);
    var line := Repeat(' ', pad) + text + Repeat(' ', Max(0, width - pad - |text|));
    assert line[pad..pad + |text|] == text;
    line
  }

  /** A piece of a text that sits at offset a sits at the matching offset. */
  lemma SubSlice(line: string, a: nat, text: string, i: nat, j: nat)
    requires a + |text| <= |line| && line[a..a + |text|] == text
    requires i <= j <= |text|
    ensures line[a + i..a + j] == text[i..j]
  {
    forall k | 0 <= k < j - i
      ensures line[a + i..a + j][k] == text[i..j][k]
    {
      assert line[a + i + k] == line[a..a + |text|][i + k];
    }
  }

  /** `line.substring(0, p) + c + line.substring(p + 1)`, applied only when
      p < line.length, as the wave card's overlay loops do. */
  function Overlay(line: string, p: int, c: char): (r: string)
    ensures 0 <= p < |line| ==> r == line[p := c]
    ensures p < 0 ==> r == [c] + line
    ensures p >= |line| ==> r == line
  {
    if p < |line| then
      var before := Substring(line, 0, p);
      var after := SubstringFrom(line, p + 1);
      assert p < 0 ==> before == [] && after == line;
      assert 0 <= p ==> before == line[..p] && after == line[p + 1..];
      assert 0 <= p ==> before + [c] + after == line[p := c];
      before + [c] + after
    else line
  }

  /** Writing `text` from position `start` on, one code unit at a time with
      `Overlay`, as the wave card does for its name and urls. */
  function OverlayText(line: string, start: int, text: string): (r: string)
    decreases |text|
  {
    if |text| == 0 then line
    else OverlayText(Overlay(line, start, text[0]), start + 1, text[1..])
  }

  /** An overlay inside the line replaces exactly one code unit. */
  lemma OverlayInside(line: string, p: int, c: char)
    requires 0 <= p < |line|
    ensures Overlay(line, p, c) == line[..p] + [c] + line[p + 1..]
  {
    assert line[p := c] == line[..p] + [c] + line[p + 1..];
  }

  /** The first code unit of a fitting text is written in place, and the
      rest of the text is spliced in after it. */
  lemma SpliceStep(line: string, start: nat, text: string)
    requires |text| > 0 && start + |text| <= |line|
    requires var next := Overlay(line, start, text[0]);
      OverlayText(next, start + 1, text[1..]) == next[..start + 1] + text[1..] + next[start + |text|..]
    ensures OverlayText(line, start, text) == line[..start] + text + line[start + |text|..]
  {
    var next := Overlay(line, start, text[0]);
    OverlayInside(line, start, text[0]);
    assert next[..start + 1] == line[..start] + [text[0]];
    assert next[start + |text|..] == line[start + |text|..];
    assert [text[0]] + text[1..] == text;
  }

  /** A line is its part before `start` followed by the rest. */
  lemma SpliceNothing(line: string, start: nat)
    requires start <= |line|
    ensures line[..start] + [] + line[start..] == line
  {
  }

  /** When the text fits on the line from `start`, the overlay splices it
      in: the line before `start`, the text, the line after it. */
  lemma {:induction false} OverlayTextSplice(line: string, start: int, text: string)
    requires 0 <= start && start + |text| <= |line|
    ensures OverlayText(line, start, text) == line[..start] + text + line[start + |text|..]
    decreases |text|
  {
    if |text| == 0 {
      SpliceNothing(line, start);
    } else {
      var next := Overlay(line, start, text[0]);
      OverlayInside(line, start, text[0]);
      assert |next| == |line| && |text[1..]| == |text| - 1;
      OverlayTextSplice(next, start + 1, text[1..]);
      SpliceStep(line, start, text);
    }
  }

  /** When the text fits on the line from `start`, the overlay keeps the
      line's length, puts the text at [start, start + |text|) and changes
      nothing else. */
  lemma OverlayTextInPlace(line: string, start: int, text: string)
    requires 0 <= start && start + |text| <= |line|
    ensures |OverlayText(line, start, text)| == |line|
    ensures OverlayText(line, start, text)[start..start + |text|] == text
    ensures forall k :: 0 <= k < |line| && !(start <= k < start + |text|) ==> OverlayText(line, start, text)[k] == line[k]
  {
    OverlayTextSplice(line, start, text);
    var r := OverlayText(line, start, text);
    assert r[start..start + |text|] == text;
    forall k | 0 <= k < |line| && !(start <= k < start + |text|)
      ensures r[k] == line[k]
    {
      if k < start {
        assert r[k] == line[..start][k];
      } else {
        assert r[k] == line[start + |text|..][k - start - |text|];
      }
    }
  }
}
