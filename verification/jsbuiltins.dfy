/** The handful of JavaScript built-ins the animations rely on, with the
    JavaScript semantics written out: `undefined`-or-value results,
    `Math.floor(Math.random() * n)` draws, `String.prototype.repeat` and the
    index clamping of `String.prototype.substring`.

    A string is a sequence of UTF-16 code units, which is what `.length`,
    indexing and `substring` work on; one `char` stands for one code unit. */
module JsBuiltins {

  /** A value that may be absent (`undefined` in the source). */
  datatype Option<+T> = None | Some(value: T)

  /** A draw of `Math.random()`: a real number in [0, 1). */
  predicate IsDraw(r: real) {
    0.0 <= r < 1.0
  }

  /** A stream of draws, `rnd(0), rnd(1), ...`, in the order the source
      calls `Math.random()`. */
  ghost predicate IsStream(rnd: nat -> real) {
    forall n :: IsDraw(rnd(n))
  }

  /** `Math.floor(r * n)`: the index an animation derives from one draw. */
  function Pick(r: real, n: nat): (k: int)
    requires IsDraw(r)
    ensures n == 0 ==> k == 0
    ensures n > 0 ==> 0 <= k < n
  {
    var k := (r * n as real).Floor;
    assert n > 0 ==> r * n as real < n as real by {
      if n > 0 {
        MulBelow(r, n as real);
      }
    }
    k
  }

  /** The index is the whole part of r * n. */
  lemma PickFloor(r: real, n: nat)
    requires IsDraw(r)
    ensures Pick(r, n) as real <= r * n as real < Pick(r, n) as real + 1.0
  {
  }

  lemma MulBelow(r: real, n: real)
    requires 0.0 <= r < 1.0 && n > 0.0
    ensures r * n < n
  {
  }

  /** `Math.max(a, b)` on integers. */
  function Max(a: int, b: int): (m: int)
    ensures m >= a && m >= b && (m == a || m == b)
  {
    if a >= b then a else b
  }

  /** `c.repeat(n)` for a one-code-unit string `c`; JavaScript throws a
      RangeError for a negative count, so callers must pass n >= 0. */
  function Repeat(c: char, n: nat): (s: string)
    ensures |s| == n
    ensures forall i :: 0 <= i < n ==> s[i] == c
  {
    seq(n, _ => c)
  }

  /** The argument clamping `substring` applies: negative indices become 0
      and indices past the end become the length. */
  function Clamp(i: int, len: nat): (c: nat)
    ensures c <= len
    ensures 0 <= i <= len ==> c == i
    ensures i < 0 ==> c == 0
    ensures i > len ==> c == len
  {
    if i < 0 then 0 else if i > len then len else i
  }

  /** `s.substring(a, b)`: both indices clamped to [0, |s|], then swapped
      when the first exceeds the second. */
  function Substring(s: string, a: int, b: int): (t: string)
    ensures 0 <= a <= b <= |s| ==> t == s[a..b]
    ensures |t| <= |s|
  {
    var i := Clamp(a, |s|);
    var j := Clamp(b, |s|);
    if i <= j then s[i..j] else s[j..i]
  }

  /** `s.substring(a)`: from the clamped index to the end. */
  function SubstringFrom(s: string, a: int): (t: string)
    ensures 0 <= a <= |s| ==> t == s[a..]
    ensures a <= 0 ==> t == s
    ensures a >= |s| ==> t == []
  {
    Substring(s, a, |s|)
  }

  /** `lines.join('\n')`. */
  function JoinLines(lines: seq<string>): (s: string)
    ensures |lines| == 0 ==> s == []
    ensures |lines| == 1 ==> s == lines[0]
  {
    if |lines| == 0 then []
    else if |lines| == 1 then lines[0]
    else lines[0] + "\n" + JoinLines(lines[1..])
  }

  /** The number of newlines `JoinLines` inserts, when no line holds one
      itself: one fewer than the number of lines. */
  lemma {:induction false} JoinLinesNewlines(lines: seq<string>)
    requires forall i, k :: 0 <= i < |lines| && 0 <= k < |lines[i]| ==> lines[i][k] != '\n'
    ensures |lines| > 0 ==> CountChar(JoinLines(lines), '\n') == |lines| - 1
  {
    if |lines| > 1 {
      JoinLinesNewlines(lines[1..]);
      CountCharAppend(lines[0] + "\n", JoinLines(lines[1..]), '\n');
      CountCharAppend(lines[0], "\n", '\n');
      NoCharCount(lines[0], '\n');
    } else if |lines| == 1 {
      NoCharCount(lines[0], '\n');
    }
  }

  function CountChar(s: string, c: char): nat
  {
    if |s| == 0 then 0 else CountChar(s[..|s| - 1], c) + (if s[|s| - 1] == c then 1 else 0)
  }

  lemma {:induction false} CountCharAppend(a: string, b: string, c: char)
    ensures CountChar(a + b, c) == CountChar(a, c) + CountChar(b, c)
  {
    if |b| > 0 {
      assert (a + b)[..|a + b| - 1] == a + b[..|b| - 1];
      CountCharAppend(a, b[..|b| - 1], c);
    } else {
      assert a + b == a;
    }
  }

  lemma {:induction false} NoCharCount(s: string, c: char)
    requires forall k :: 0 <= k < |s| ==> s[k] != c
    ensures CountChar(s, c) == 0
  {
    if |s| > 0 {
      NoCharCount(s[..|s| - 1], c);
    }
  }
}
