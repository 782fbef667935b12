/** The seedable linear congruential generator behind `--seed`, and the two
    Fisher–Yates shuffles that choose the order of the visual effects and
    of the cards.

    The state update is modelled with unbounded integers and `%`. Once
    the state is below the modulus, as it is after the first call, the
    update's intermediate values stay below 2^53, where a JavaScript
    number is an exact integer, so the model and the source agree
    (`NextExact`). From a seed of 5,411,272,430 on, the first
    `seed * 1664525 + 1013904223` reaches 2^53, where the source's
    doubles may round and the model keeps the exact residue. A draw is the state divided by the
    modulus; the shuffles see draws only through `Pick`, so they are
    written against a sequence of draws, which covers both the seeded
    generator and `Math.random`. */
module Seeded {
  import opened JsBuiltins

  const Modulus: nat := 2147483647
  const Multiplier: nat := 1664525
  const Increment: nat := 1013904223

  /** 2^53: every integer below it is exactly representable as a double. */
  const ExactLimit: nat := 0x20_0000_0000_0000

  /** The generator; its whole state is the seed. */
  datatype Rng = Rng(seed: nat)

  /** `next()`: advance the state and return it as a fraction of the
      modulus. Whatever the seed, the new state is below the modulus and
      the returned value is a draw in [0, 1) that recovers the state. */
  function Next(g: Rng): (r: (Rng, real))
    ensures r.0.seed < Modulus
    ensures IsDraw(r.1)
    ensures r.1 * Modulus as real == r.0.seed as real
  {
    var s := (g.seed * Multiplier + Increment) % Modulus;
    (Rng(s), s as real / Modulus as real)
  }

  /** For a state below the modulus the intermediate product of `next()`
      stays below 2^53, so the double arithmetic of the source computes it
      exactly; every state after the first call is of that kind. */
  lemma NextExact(g: Rng)
    requires g.seed < Modulus
    ensures g.seed * Multiplier + Increment < ExactLimit
    ensures Next(g).0.seed * Multiplier + Increment < ExactLimit
  {
  }

  /** The first n values `next()` returns, and the generator afterwards. */
  function Draws(g: Rng, n: nat): (r: (seq<real>, Rng))
    ensures |r.0| == n
    ensures forall k :: 0 <= k < n ==> IsDraw(r.0[k])
    ensures n > 0 ==> r.1.seed < Modulus
    ensures n == 0 ==> r.1 == g
    decreases n
  {
    if n == 0 then ([], g)
    else
      var step := Next(g);
      var rest := Draws(step.0, n - 1);
      ([step.1] + rest.0, rest.1)
  }

  /** Drawing a + b values is drawing a values and then b more from where
      the first run left the generator: consumers sharing one generator
      see consecutive stretches of a single stream. */
  lemma {:induction false} DrawsSplit(g: Rng, a: nat, b: nat)
    ensures Draws(g, a + b).0 == Draws(g, a).0 + Draws(Draws(g, a).1, b).0
    ensures Draws(g, a + b).1 == Draws(Draws(g, a).1, b).1
    decreases a
  {
    if a > 0 {
      var g1 := Next(g).0;
      DrawsSplit(g1, a - 1, b);
      assert Draws(g, a + b).0 == [Next(g).1] + Draws(g1, a - 1 + b).0;
      assert Draws(g, a).0 == [Next(g).1] + Draws(g1, a - 1).0;
    }
  }

  /** `reset(seed)`: afterwards the generator yields exactly the sequence a
      freshly constructed `new SeededRandom(seed)` would, whatever state it
      was in before. */
  function Reset(g: Rng, seed: nat): (r: Rng)
    ensures forall n: nat :: Draws(r, n) == Draws(Rng(seed), n)
  {
    Rng(seed)
  }

  // ---------------------------------------------------------------------------
  // Fisher–Yates
  // ---------------------------------------------------------------------------

  /** Exchange the elements at i and j (the destructuring swap). */
  function Swap<T>(s: seq<T>, i: nat, j: nat): (t: seq<T>)
    requires i < |s| && j < |s|
    ensures |t| == |s|
    ensures t[i] == s[j] && t[j] == s[i]
    ensures forall k :: 0 <= k < |s| && k != i && k != j ==> t[k] == s[k]
  {
    s[i := s[j]][j := s[i]]
  }

  /** A swap permutes. */
  lemma SwapPermutes<T>(s: seq<T>, i: nat, j: nat)
    requires i < |s| && j < |s|
    ensures multiset(Swap(s, i, j)) == multiset(s)
  {
    var u := s[i := s[j]];
    assert multiset(u) == multiset(s) - multiset{s[i]} + multiset{s[j]};
    assert multiset(u[j := s[i]]) == multiset(u) - multiset{u[j]} + multiset{s[i]};
  }

  /** The swap index of a Fisher–Yates step at position i: a draw scaled
      to i + 1 slots, so an index in [0, i]. */
  function SwapIndex(r: real, i: nat): (j: nat)
    requires IsDraw(r)
    ensures j <= i
  {
    Pick(r, i + 1)
  }

  /** With a seeded draw (the state over the modulus) the swap index is the
      integer quotient state * (i + 1) / modulus. */
  lemma SeededSwapIndex(s: nat, i: nat)
    requires s < Modulus
    ensures IsDraw(s as real / Modulus as real)
    ensures SwapIndex(s as real / Modulus as real, i) == s * (i + 1) / Modulus
  {
    var m := Modulus as real;
    var x := s as real / m;
    var q := s * (i + 1) / Modulus;
    var rem := s * (i + 1) % Modulus;
    assert s * (i + 1) == q * Modulus + rem;
    assert x * (i + 1) as real == (q as real) + rem as real / m by {
      assert x * m == s as real;
      assert (s * (i + 1)) as real == s as real * (i + 1) as real;
      assert (q * Modulus + rem) as real == q as real * m + rem as real;
    }
    assert 0.0 <= rem as real / m < 1.0;
    var k := SwapIndex(x, i);
    PickFloor(x, i + 1);
    assert k as real <= x * (i + 1) as real < k as real + 1.0;
  }

  /** Swap choices for the shuffle steps at positions i, i - 1, ..., 1,
      read from `js` starting at `next`: the choice for position p lies in
      [0, p]. */
  predicate ValidChoices(js: seq<nat>, next: nat, i: nat)
  {
    next + i <= |js| && forall k :: next <= k < next + i ==> js[k] <= next + i - k
  }

  /** The swap choices the draws give for the steps at positions top down
      to 1, one draw per step in that order. */
  function SwapChoices(draws: seq<real>, top: nat): (js: seq<nat>)
    requires top <= |draws|
    requires forall k :: 0 <= k < |draws| ==> IsDraw(draws[k])
    ensures |js| == top
    ensures ValidChoices(js, 0, top)
  {
    if top == 0 then []
    else [SwapIndex(draws[0], top)] + SwapChoices(draws[1..], top - 1)
  }

  /** The shuffle loop from position i down to 1, where the step at
      position i takes choice number `next`: swap position i with a
      position j in [0, i]. */
  function ShuffleFrom<T>(s: seq<T>, js: seq<nat>, next: nat, i: nat): (t: seq<T>)
    requires i < |s| && ValidChoices(js, next, i)
    ensures |t| == |s|
    decreases i
  {
    if i == 0 then s
    else ShuffleFrom(Swap(s, i, js[next]), js, next + 1, i - 1)
  }

  /** Whatever the choices, the shuffle only rearranges: it is a
      permutation of its input. */
  lemma {:induction false} ShufflePermutes<T>(s: seq<T>, js: seq<nat>, next: nat, i: nat)
    requires i < |s| && ValidChoices(js, next, i)
    ensures multiset(ShuffleFrom(s, js, next, i)) == multiset(s)
    decreases i
  {
    if i > 0 {
      SwapPermutes(s, i, js[next]);
      ShufflePermutes(Swap(s, i, js[next]), js, next + 1, i - 1);
    }
  }

  /** The shuffle of `[...items]`: a copy is shuffled in place, swapping
      each position from the last down to 1 with an earlier or equal one.
      The result is a permutation of the input, and the input sequence
      itself is a value that nothing changes. */
  method Shuffle<T>(items: seq<T>, js: seq<nat>) returns (shuffled: seq<T>)
    requires |items| == 0 || ValidChoices(js, 0, |items| - 1)
    ensures |shuffled| == |items|
    ensures multiset(shuffled) == multiset(items)
    ensures |items| > 0 ==> shuffled == ShuffleFrom(items, js, 0, |items| - 1)
  {
    shuffled := items;
    if |items| == 0 {
      return;
    }
    var i: nat := |items| - 1;
    var next: nat := 0;
    while i > 0
      invariant i < |items| == |shuffled| && next + i == |items| - 1
      invariant ValidChoices(js, next, i)
      invariant ShuffleFrom(shuffled, js, next, i) == ShuffleFrom(items, js, 0, |items| - 1)
      decreases i
    {
      shuffled := Swap(shuffled, i, js[next]);
      i := i - 1;
      next := next + 1;
    }
    ShufflePermutes(items, js, 0, |items| - 1);
  }

  /** The number of visual effects and of animated cards `main` orders. */
  const EffectCount: nat := 10
  const CardCount: nat := 5

  /** The indices 0 .. n-1, standing for an array of n distinct entries. */
  function Indices(n: nat): (s: seq<int>)
    ensures |s| == n
    ensures forall k :: 0 <= k < n ==> s[k] == k
  {
    seq(n, k => k)
  }

  /** The orders `main` plays, for `effects` visual effects and `cards`
      cards (10 and 5 in the source): the effects are shuffled with the
      first effects - 1 draws of the generator, the cards with the
      cards - 1 draws after those. */
  function PlayOrder(g: Rng, effects: nat, cards: nat): (r: (seq<int>, seq<int>))
    requires effects > 0 && cards > 0
    ensures |r.0| == effects && |r.1| == cards
  {
    var effectDraws := Draws(g, effects - 1);
    var cardDraws := Draws(effectDraws.1, cards - 1);
    (ShuffleFrom(Indices(effects), SwapChoices(effectDraws.0, effects - 1), 0, effects - 1),
     ShuffleFrom(Indices(cards), SwapChoices(cardDraws.0, cards - 1), 0, cards - 1))
  }

  /** Every effect and every card is played exactly once, in an order fixed
      by the seed. */
  lemma PlayOrderPermutes(seed: nat, effects: nat, cards: nat)
    requires effects > 0 && cards > 0
    ensures multiset(PlayOrder(Rng(seed), effects, cards).0) == multiset(Indices(effects))
    ensures multiset(PlayOrder(Rng(seed), effects, cards).1) == multiset(Indices(cards))
    ensures forall e :: 0 <= e < effects ==> multiset(PlayOrder(Rng(seed), effects, cards).0)[e] == 1
    ensures forall c :: 0 <= c < cards ==> multiset(PlayOrder(Rng(seed), effects, cards).1)[c] == 1
  {
    var g := Rng(seed);
    var effectDraws := Draws(g, effects - 1);
    var cardDraws := Draws(effectDraws.1, cards - 1);
    var order := PlayOrder(g, effects, cards);
    assert order.0 == ShuffleFrom(Indices(effects), SwapChoices(effectDraws.0, effects - 1), 0, effects - 1);
    assert order.1 == ShuffleFrom(Indices(cards), SwapChoices(cardDraws.0, cards - 1), 0, cards - 1);
    ShufflePermutes(Indices(effects), SwapChoices(effectDraws.0, effects - 1), 0, effects - 1);
    ShufflePermutes(Indices(cards), SwapChoices(cardDraws.0, cards - 1), 0, cards - 1);
    forall e | 0 <= e < effects
      ensures multiset(Indices(effects))[e] == 1
    {
      IndicesOnce(effects, e);
    }
    forall c | 0 <= c < cards
      ensures multiset(Indices(cards))[c] == 1
    {
      IndicesOnce(cards, c);
    }
  }

  /** The cards are shuffled with the stretch of the one stream that
      follows the draws the effects' shuffle used. */
  lemma CardsFollowEffects(seed: nat, effects: nat, cards: nat)
    requires effects > 0 && cards > 0
    ensures PlayOrder(Rng(seed), effects, cards).1
         == ShuffleFrom(Indices(cards),
                        SwapChoices(Draws(Rng(seed), (effects - 1) + (cards - 1)).0[effects - 1..], cards - 1),
                        0, cards - 1)
  {
    var g := Rng(seed);
    var effectDraws := Draws(g, effects - 1);
    var cardDraws := Draws(effectDraws.1, cards - 1);
    DrawsSplit(g, effects - 1, cards - 1);
    assert (effectDraws.0 + cardDraws.0)[effects - 1..] == cardDraws.0;
  }

  lemma {:induction false} IndicesOnce(n: nat, e: nat)
    requires e < n
    ensures multiset(Indices(n))[e] == 1
  {
    if n - 1 == e {
      assert Indices(n) == Indices(n - 1) + [e];
      NotInIndices(n - 1, e);
    } else {
      assert Indices(n) == Indices(n - 1) + [n - 1];
      IndicesOnce(n - 1, e);
    }
  }

  lemma NotInIndices(n: nat, e: nat)
    requires e >= n
    ensures multiset(Indices(n))[e] == 0
  {
    assert e !in Indices(n);
  }
}
