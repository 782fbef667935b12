/** Parallel context-free string rewriting (a deterministic L-system): in
    each round every character is replaced by its rule's right-hand side, or
    kept when it has none. Four named systems are built in, and an unknown
    name falls back to the fern. */
module LSystems {
  import opened JsBuiltins

  /** A system: start string, rewriting rules, turtle angle (used only for
      drawing) and the number of rounds to run. */
  datatype System = System(axiom: string, rules: map<char, string>, angle: real, iterations: nat)

  const Fern: System := System("X", map['X' := "F+[[X]-X]-F[-FX]+X", 'F' := "FF"], 25.0, 4)
  const Tree: System := System("F", map['F' := "F[+F]F[-F][F]"], 20.0, 4)
  const Bush: System := System("F", map['F' := "FF+[+F-F-F]-[-F+F+F]"], 22.5, 3)
  const Algae: System := System("A", map['A' := "AB", 'B' := "A"], 45.0, 6)

  /** The built-in table, keyed by name. */
  const Systems: map<string, System> :=
    map["fern" := Fern, "tree" := Tree, "bush" := Bush, "algae" := Algae]

  /** The constructor's choice: the named system, or the fern for any name
      the table does not hold. */
  function SystemNamed(name: string): (s: System)
    ensures name in Systems ==> s == Systems[name]
    ensures name !in Systems ==> s == Fern
    ensures s == Fern || s == Tree || s == Bush || s == Algae
  {
    if name in Systems then Systems[name] else Fern
  }

  /** What one character becomes in a round. A rule whose right-hand side is
      empty counts as missing, as `rules[c] || c` does. */
  function Image(rules: map<char, string>, c: char): (t: string)
    ensures |t| >= 1
    ensures c !in rules ==> t == [c]
  {
    if c in rules && rules[c] != "" then rules[c] else [c]
  }

  /** One rewriting round: the images of the characters, in order. The
      source's `for (const char of current)` walks code points rather than
      code units; the two coincide for the built-in systems, whose strings
      are ASCII, and the model reads one `char` at a time. */
  function Round(rules: map<char, string>, s: string): (t: string)
    ensures |t| >= |s|
  {
    if |s| == 0 then "" else Image(rules, s[0]) + Round(rules, s[1..])
  }

  /** `n` rounds starting from `s`. */
  function Rewrite(rules: map<char, string>, s: string, n: nat): string
  {
    if n == 0 then s else Round(rules, Rewrite(rules, s, n - 1))
  }

  /** A round is a homomorphism of strings: it distributes over concatenation. */
  lemma {:induction false} RoundAppend(rules: map<char, string>, a: string, b: string)
    ensures Round(rules, a + b) == Round(rules, a) + Round(rules, b)
  {
    if |a| == 0 {
      assert a + b == b;
    } else {
      assert (a + b)[1..] == a[1..] + b;
      RoundAppend(rules, a[1..], b);
    }
  }

  /** A string none of whose characters has a rule is a fixed point. */
  lemma {:induction false} RoundWithoutRules(rules: map<char, string>, s: string)
    requires forall i :: 0 <= i < |s| ==> s[i] !in rules
    ensures Round(rules, s) == s
  {
    if |s| > 0 {
      RoundWithoutRules(rules, s[1..]);
    }
  }

  lemma RoundSnoc(rules: map<char, string>, s: string, k: nat)
    requires k < |s|
    ensures Round(rules, s[..k + 1]) == Round(rules, s[..k]) + Image(rules, s[k])
  {
    assert s[..k + 1] == s[..k] + [s[k]];
    RoundAppend(rules, s[..k], [s[k]]);
    assert Round(rules, [s[k]]) == Image(rules, s[k]) + Round(rules, []);
  }

  /** `generate`: `iterations` rounds starting from the axiom, each round
      appending every character's image to a fresh string. */
  method Generate(system: System) returns (current: string)
    ensures current == Rewrite(system.rules, system.axiom, system.iterations)
  {
    current := system.axiom;
    var i := 0;
    while i < system.iterations
      invariant 0 <= i <= system.iterations
      invariant current == Rewrite(system.rules, system.axiom, i)
    {
      var next := "";
      var k := 0;
      while k < |current|
        invariant 0 <= k <= |current|
        invariant next == Round(system.rules, current[..k])
      {
        RoundSnoc(system.rules, current, k);
        next := next + Image(system.rules, current[k]);
        k := k + 1;
      }
      assert current[..|current|] == current;
      current := next;
      i := i + 1;
    }
  }

  // ---------------------------------------------------------------------------
  // Bracket balance
  // ---------------------------------------------------------------------------

  /** The bracket depth after reading `c` at depth `d`, or None when a ']'
      has nothing to close. */
  function Bracket(c: char, d: nat): Option<nat>
  {
    if c == '[' then Some(d + 1)
    else if c == ']' then (if d == 0 then None else Some(d - 1))
    else Some(d)
  }

  /** Reading `s` from depth `d`: the final depth, or None if some ']' is
      unmatched on the way. */
  function Walk(s: string, d: nat): Option<nat>
  {
    if |s| == 0 then Some(d)
    else match Bracket(s[0], d)
      case None => None
      case Some(e) => Walk(s[1..], e)
  }

  /** Every '[' is closed by a later ']' and every ']' closes an earlier '['. */
  predicate Balanced(s: string)
  {
    Walk(s, 0) == Some(0)
  }

  lemma {:induction false} WalkAppend(a: string, b: string, d: nat)
    ensures Walk(a + b, d) == (match Walk(a, d) case None => None case Some(e) => Walk(b, e))
  {
    if |a| == 0 {
      assert a + b == b;
    } else {
      assert (a + b)[0] == a[0];
      assert (a + b)[1..] == a[1..] + b;
      match Bracket(a[0], d)
      case None =>
      case Some(e) => WalkAppend(a[1..], b, e);
    }
  }

  /** Starting deeper only shifts the final depth. */
  lemma {:induction false} WalkShift(s: string, d: nat, k: nat)
    requires Walk(s, d).Some?
    ensures Walk(s, d + k) == Some(Walk(s, d).value + k)
  {
    if |s| > 0 {
      match Bracket(s[0], d)
      case Some(e) => WalkShift(s[1..], e, k);
    }
  }

  /** Rules that keep brackets: no rule rewrites '[' or ']', and every
      right-hand side is balanced. */
  predicate BracketSafe(rules: map<char, string>)
  {
    '[' !in rules && ']' !in rules && forall c :: c in rules ==> Balanced(rules[c])
  }

  /** Under bracket-safe rules a round leaves the bracket walk unchanged. */
  lemma {:induction false} RoundKeepsWalk(rules: map<char, string>, s: string, d: nat)
    requires BracketSafe(rules)
    ensures Walk(Round(rules, s), d) == Walk(s, d)
  {
    if |s| > 0 {
      var c := s[0];
      var img := Image(rules, c);
      WalkAppend(img, Round(rules, s[1..]), d);
      if c in rules && rules[c] != "" {
        WalkShift(img, 0, d);
        assert Walk(img, d) == Some(d) == Bracket(c, d);
      } else {
        assert Walk(img, d) == Bracket(c, d);
      }
      match Bracket(c, d)
      case None =>
      case Some(e) => RoundKeepsWalk(rules, s[1..], e);
    }
  }

  /** A balanced axiom under bracket-safe rules generates a balanced string,
      however many rounds are run. */
  lemma {:induction false} RewriteBalanced(rules: map<char, string>, s: string, n: nat)
    requires BracketSafe(rules) && Balanced(s)
    ensures Balanced(Rewrite(rules, s, n))
  {
    if n > 0 {
      RewriteBalanced(rules, s, n - 1);
      RoundKeepsWalk(rules, Rewrite(rules, s, n - 1), 0);
    }
  }

  /** A string without brackets never changes the depth. */
  lemma {:induction false} PlainWalk(s: string, d: nat)
    requires forall i :: 0 <= i < |s| ==> s[i] != '[' && s[i] != ']'
    ensures Walk(s, d) == Some(d)
  {
    if |s| > 0 {
      PlainWalk(s[1..], d);
    }
  }

  /** The walk of `s` read by index from position i: the same depths as
      the walk of the suffix s[i..]. */
  function WalkFrom(s: string, i: nat, d: nat): Option<nat>
    requires i <= |s|
    decreases |s| - i
  {
    if i == |s| then Some(d)
    else match Bracket(s[i], d)
      case None => None
      case Some(e) => WalkFrom(s, i + 1, e)
  }

  lemma {:induction false} WalkFromSuffix(s: string, i: nat, d: nat)
    requires i <= |s|
    ensures WalkFrom(s, i, d) == Walk(s[i..], d)
    decreases |s| - i
  {
    if i < |s| {
      assert s[i..][0] == s[i];
      assert s[i..][1..] == s[i + 1..];
      match Bracket(s[i], d)
      case None =>
      case Some(e) => WalkFromSuffix(s, i + 1, e);
    }
  }

  /** One character read backwards: if the rest of `s` from depth `e`
      closes at depth 0 and the character at i takes depth `d` to `e`, then
      `s` from position i and depth `d` closes at depth 0. */
  lemma StepBack(s: string, i: nat, d: nat, e: nat)
    requires i < |s| && Bracket(s[i], d) == Some(e) && WalkFrom(s, i + 1, e) == Some(0)
    ensures WalkFrom(s, i, d) == Some(0)
  {
  }

  /** The fern's rule for X, read backwards with its depth before each character. */
  lemma FernRuleBalanced(s: string)
    requires s == "F+[[X]-X]-F[-FX]+X"
    ensures Balanced(s)
  {
    StepBack(s, 17, 0, 0);
    StepBack(s, 16, 0, 0);
    StepBack(s, 15, 1, 0);
    StepBack(s, 14, 1, 1);
    StepBack(s, 13, 1, 1);
    StepBack(s, 12, 1, 1);
    StepBack(s, 11, 0, 1);
    StepBack(s, 10, 0, 0);
    StepBack(s, 9, 0, 0);
    StepBack(s, 8, 1, 0);
    StepBack(s, 7, 1, 1);
    StepBack(s, 6, 1, 1);
    StepBack(s, 5, 2, 1);
    StepBack(s, 4, 2, 2);
    StepBack(s, 3, 1, 2);
    StepBack(s, 2, 0, 1);
    StepBack(s, 1, 0, 0);
    StepBack(s, 0, 0, 0);
    WalkFromSuffix(s, 0, 0);
    assert s[0..] == s;
  }

  /** The tree's rule for F. */
  lemma TreeRuleBalanced(s: string)
    requires s == "F[+F]F[-F][F]"
    ensures Balanced(s)
  {
    StepBack(s, 12, 1, 0);
    StepBack(s, 11, 1, 1);
    StepBack(s, 10, 0, 1);
    StepBack(s, 9, 1, 0);
    StepBack(s, 8, 1, 1);
    StepBack(s, 7, 1, 1);
    StepBack(s, 6, 0, 1);
    StepBack(s, 5, 0, 0);
    StepBack(s, 4, 1, 0);
    StepBack(s, 3, 1, 1);
    StepBack(s, 2, 1, 1);
    StepBack(s, 1, 0, 1);
    StepBack(s, 0, 0, 0);
    WalkFromSuffix(s, 0, 0);
    assert s[0..] == s;
  }

  /** The bush's rule for F. */
  lemma BushRuleBalanced(s: string)
    requires s == "FF+[+F-F-F]-[-F+F+F]"
    ensures Balanced(s)
  {
    StepBack(s, 19, 1, 0);
    StepBack(s, 18, 1, 1);
    StepBack(s, 17, 1, 1);
    StepBack(s, 16, 1, 1);
    StepBack(s, 15, 1, 1);
    StepBack(s, 14, 1, 1);
    StepBack(s, 13, 1, 1);
    StepBack(s, 12, 0, 1);
    StepBack(s, 11, 0, 0);
    StepBack(s, 10, 1, 0);
    StepBack(s, 9, 1, 1);
    StepBack(s, 8, 1, 1);
    StepBack(s, 7, 1, 1);
    StepBack(s, 6, 1, 1);
    StepBack(s, 5, 1, 1);
    StepBack(s, 4, 1, 1);
    StepBack(s, 3, 0, 1);
    StepBack(s, 2, 0, 0);
    StepBack(s, 1, 0, 0);
    StepBack(s, 0, 0, 0);
    WalkFromSuffix(s, 0, 0);
    assert s[0..] == s;
  }

  lemma FernSafe()
    ensures BracketSafe(Fern.rules) && Balanced(Fern.axiom)
  {
    FernRuleBalanced(Fern.rules['X']);
    PlainWalk(Fern.rules['F'], 0);
    PlainWalk(Fern.axiom, 0);
  }

  lemma TreeSafe()
    ensures BracketSafe(Tree.rules) && Balanced(Tree.axiom)
  {
    TreeRuleBalanced(Tree.rules['F']);
    PlainWalk(Tree.axiom, 0);
  }

  lemma BushSafe()
    ensures BracketSafe(Bush.rules) && Balanced(Bush.axiom)
  {
    BushRuleBalanced(Bush.rules['F']);
    PlainWalk(Bush.axiom, 0);
  }

  lemma AlgaeSafe()
    ensures BracketSafe(Algae.rules) && Balanced(Algae.axiom)
  {
    PlainWalk(Algae.rules['A'], 0);
    PlainWalk(Algae.rules['B'], 0);
    PlainWalk(Algae.axiom, 0);
  }

  /** All four built-in systems have a balanced axiom and bracket-safe rules,
      so whatever name is given, `generate` yields a balanced string. */
  lemma GenerateBalanced(name: string)
    ensures Balanced(Rewrite(SystemNamed(name).rules, SystemNamed(name).axiom, SystemNamed(name).iterations))
  {
    var s := SystemNamed(name);
    FernSafe();
    TreeSafe();
    BushSafe();
    AlgaeSafe();
    RewriteBalanced(s.rules, s.axiom, s.iterations);
  }

  // ---------------------------------------------------------------------------
  // Algae growth
  // ---------------------------------------------------------------------------

  function Fib(n: nat): nat
  {
    if n < 2 then n else Fib(n - 1) + Fib(n - 2)
  }

  predicate OverAB(s: string)
  {
    forall i :: 0 <= i < |s| ==> s[i] == 'A' || s[i] == 'B'
  }

  lemma OverABAppend(a: string, b: string)
    requires OverAB(a) && OverAB(b)
    ensures OverAB(a + b)
  {
  }

  /** Rules acting on A and B as the algae system does: A -> AB, B -> A. */
  predicate AlgaeLike(rules: map<char, string>)
  {
    Image(rules, 'A') == ['A', 'B'] && Image(rules, 'B') == ['A']
  }

  lemma {:induction false} AlgaeRound(rules: map<char, string>, s: string)
    requires AlgaeLike(rules) && OverAB(s)
    ensures OverAB(Round(rules, s))
    ensures CountChar(Round(rules, s), 'A') == CountChar(s, 'A') + CountChar(s, 'B')
    ensures CountChar(Round(rules, s), 'B') == CountChar(s, 'A')
  {
    if |s| > 0 {
      var img := Image(rules, s[0]);
      var rest := Round(rules, s[1..]);
      AlgaeRound(rules, s[1..]);
      assert s == [s[0]] + s[1..];
      CountCharAppend([s[0]], s[1..], 'A');
      CountCharAppend([s[0]], s[1..], 'B');
      CountCharAppend(img, rest, 'A');
      CountCharAppend(img, rest, 'B');
      ImageCounts(rules, s[0]);
      OverABAppend(img, rest);
    }
  }

  /** The image of one symbol has one A for either symbol, and a B only
      for an A. */
  lemma ImageCounts(rules: map<char, string>, c: char)
    requires AlgaeLike(rules) && (c == 'A' || c == 'B')
    ensures OverAB(Image(rules, c))
    ensures CountChar(Image(rules, c), 'A') == 1
    ensures CountChar(Image(rules, c), 'B') == CountChar([c], 'A')
  {
    assert ['A', 'B'][..1] == ['A'];
  }

  lemma {:induction false} OverABLength(s: string)
    requires OverAB(s)
    ensures |s| == CountChar(s, 'A') + CountChar(s, 'B')
  {
    if |s| > 0 {
      OverABLength(s[..|s| - 1]);
    }
  }

  /** After n rounds from "A" the algae string holds Fib(n+1) A's and
      Fib(n) B's, so its length is Fib(n+2): 1, 2, 3, 5, 8, ... */
  lemma {:induction false} AlgaeFibonacci(rules: map<char, string>, n: nat)
    requires AlgaeLike(rules)
    ensures OverAB(Rewrite(rules, ['A'], n))
    ensures CountChar(Rewrite(rules, ['A'], n), 'A') == Fib(n + 1)
    ensures CountChar(Rewrite(rules, ['A'], n), 'B') == Fib(n)
    ensures |Rewrite(rules, ['A'], n)| == Fib(n + 2)
  {
    if n > 0 {
      AlgaeFibonacci(rules, n - 1);
      AlgaeRound(rules, Rewrite(rules, ['A'], n - 1));
    }
    OverABLength(Rewrite(rules, ['A'], n));
  }

  /** The algae system's six rounds from "A" give a word of 21 symbols. */
  lemma AlgaeLength(system: System)
    requires system == SystemNamed("algae")
    ensures |Rewrite(system.rules, system.axiom, system.iterations)| == 21
  {
    assert system == Algae;
    assert AlgaeLike(system.rules);
    assert system.axiom == ['A'] && system.iterations == 6;
    AlgaeFibonacci(system.rules, 6);
    FibEight();
  }

  lemma FibEight()
    ensures Fib(8) == 21
  {
  }
}
