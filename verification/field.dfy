/** The interactive particle field: a cursor moved with the keyboard, an
    attract / repel / spawn mode, and a population of particles that age
    by one each frame and are topped up when too few remain.

    Particle positions, velocities and forces are floating-point physics
    and are not modelled: a particle here is its remaining life. */
module Field {

  datatype Mode = Attract | Repel | Spawn

  datatype Particle = Particle(life: int)

  /** The number of particles `initParticles` adds and their life. */
  const InitialCount: nat := 30
  const InitialLife: int := 1000

  /** The number of particles a burst adds and their life. */
  const BurstCount: nat := 10
  const BurstLife: int := 50

  /** Below this many particles `update` tops the population up. */
  const MinimumCount: nat := 20

  datatype Field = Field(width: nat, height: nat, mouseX: real, mouseY: real, mode: Mode, particles: seq<Particle>)
  {
    /** The cursor lies on the grid. */
    predicate CursorOnGrid()
    {
      0.0 <= mouseX <= width as real - 1.0 && 0.0 <= mouseY <= height as real - 1.0
    }
  }

  /** `n` particles of the given life. */
  function Batch(n: nat, life: int): (ps: seq<Particle>)
    ensures |ps| == n
    ensures forall k :: 0 <= k < n ==> ps[k].life == life
  {
    seq(n, _ => Particle(life))
  }

  /** The constructor: the cursor in the middle, attract mode, 30 fresh
      particles. With both dimensions at least 2 the cursor starts on the
      grid. */
  function NewField(width: nat, height: nat): (f: Field)
    ensures f.width == width && f.height == height
    ensures f.mouseX * 2.0 == width as real && f.mouseY * 2.0 == height as real
    ensures f.mode == Attract
    ensures |f.particles| == InitialCount
    ensures forall k :: 0 <= k < |f.particles| ==> f.particles[k].life == InitialLife
    ensures width >= 2 && height >= 2 ==> f.CursorOnGrid()
  {
    Field(width, height, width as real / 2.0, height as real / 2.0, Attract, Batch(InitialCount, InitialLife))
  }

  // ---------------------------------------------------------------------------
  // Keys
  // ---------------------------------------------------------------------------

  /** `toLowerCase` on the ASCII letters. */
  function Lower(s: string): (t: string)
    ensures |t| == |s|
    ensures forall k :: 0 <= k < |s| ==> t[k] == (if 'A' <= s[k] <= 'Z' then (s[k] as int + 32) as char else s[k])
  {
    seq(|s|, k requires 0 <= k < |s| => if 'A' <= s[k] <= 'Z' then (s[k] as int + 32) as char else s[k])
  }

  /** Lower-casing twice is lower-casing once. */
  lemma LowerIdempotent(s: string)
    ensures Lower(Lower(s)) == Lower(s)
  {
    assert forall k :: 0 <= k < |s| ==> Lower(Lower(s))[k] == Lower(s)[k];
  }

  function MaxReal(a: real, b: real): real
  {
    if a >= b then a else b
  }

  function MinReal(a: real, b: real): real
  {
    if a <= b then a else b
  }

  /** A burst at the cursor: ten more particles of life 50 after the
      existing ones (their directions are trigonometric and not modelled). */
  function SpawnBurst(f: Field): (g: Field)
    ensures |g.particles| == |f.particles| + BurstCount
    ensures g.particles[..|f.particles|] == f.particles
    ensures forall k :: |f.particles| <= k < |g.particles| ==> g.particles[k].life == BurstLife
    ensures g.width == f.width && g.height == f.height && g.mouseX == f.mouseX && g.mouseY == f.mouseY && g.mode == f.mode
  {
    f.(particles := f.particles + Batch(BurstCount, BurstLife))
  }

  /** `handleKey`, after lower-casing the key: w/a/s/d or the arrow names
      move the cursor by 2 rows or 3 columns, clamped to the grid; space
      bursts; r, e and q pick repel, attract and spawn (q also bursts); c
      replaces the particles by 30 fresh ones. Any other key changes
      nothing. */
  function HandleKey(f: Field, key: string): (g: Field)
    ensures g.width == f.width && g.height == f.height
  {
    match Lower(key)
    case "w" => f.(mouseY := MaxReal(0.0, f.mouseY - 2.0))
    case "up" => f.(mouseY := MaxReal(0.0, f.mouseY - 2.0))
    case "s" => f.(mouseY := MinReal(f.height as real - 1.0, f.mouseY + 2.0))
    case "down" => f.(mouseY := MinReal(f.height as real - 1.0, f.mouseY + 2.0))
    case "a" => f.(mouseX := MaxReal(0.0, f.mouseX - 3.0))
    case "left" => f.(mouseX := MaxReal(0.0, f.mouseX - 3.0))
    case "d" => f.(mouseX := MinReal(f.width as real - 1.0, f.mouseX + 3.0))
    case "right" => f.(mouseX := MinReal(f.width as real - 1.0, f.mouseX + 3.0))
    case " " => SpawnBurst(f)
    case "r" => f.(mode := Repel)
    case "e" => f.(mode := Attract)
    case "q" => SpawnBurst(f.(mode := Spawn))
    case "c" => f.(particles := Batch(InitialCount, InitialLife))
    case _ => f
  }

  /** Every key keeps an on-grid cursor on the grid. */
  lemma HandleKeyKeepsCursor(f: Field, key: string)
    requires f.width >= 1 && f.height >= 1
    requires f.CursorOnGrid()
    ensures HandleKey(f, key).CursorOnGrid()
  {
  }

  /** Keys are matched without regard to case. */
  lemma HandleKeyIgnoresCase(f: Field, key: string)
    ensures HandleKey(f, key) == HandleKey(f, Lower(key))
  {
    LowerIdempotent(key);
  }

  /** The mode keys, in either case, set the mode they name and move
      nothing; a key outside the table leaves the field as it was. */
  lemma ModeKeys(f: Field, key: string)
    ensures Lower(key) == "r" ==> HandleKey(f, key) == f.(mode := Repel)
    ensures Lower(key) == "e" ==> HandleKey(f, key) == f.(mode := Attract)
    ensures Lower(key) == "q" ==> HandleKey(f, key).mode == Spawn
    ensures Lower(key) !in {"w", "up", "s", "down", "a", "left", "d", "right", " ", "r", "e", "q", "c"}
            ==> HandleKey(f, key) == f
  {
  }

  /** Space and q add exactly ten particles of life 50 after the existing
      ones; c leaves exactly thirty of life 1000. */
  lemma ParticleKeys(f: Field, key: string)
    ensures Lower(key) in {" ", "q"} ==>
      && |HandleKey(f, key).particles| == |f.particles| + BurstCount
      && HandleKey(f, key).particles[..|f.particles|] == f.particles
      && forall k :: |f.particles| <= k < |HandleKey(f, key).particles| ==> HandleKey(f, key).particles[k].life == BurstLife
    ensures Lower(key) == "c" ==>
      && |HandleKey(f, key).particles| == InitialCount
      && forall k :: 0 <= k < InitialCount ==> HandleKey(f, key).particles[k].life == InitialLife
  {
  }

  // ---------------------------------------------------------------------------
  // Update
  // ---------------------------------------------------------------------------

  /** The strength of the cursor's attractor: negative (pushing away) in
      repel mode, positive otherwise. */
  function Strength(mode: Mode): (s: int)
    ensures s == -3 <==> mode == Repel
    ensures s == 3 <==> mode != Repel
  {
    if mode == Repel then -3 else 3
  }

  /** The particles left by one round of ageing, in their order: each one
      loses a unit of life, and those left with none are dropped. */
  function Aged(ps: seq<Particle>): (r: seq<Particle>)
    ensures |r| <= |ps|
    ensures forall k :: 0 <= k < |r| ==> r[k].life > 0
  {
    if |ps| == 0 then []
    else (if ps[0].life - 1 > 0 then [Particle(ps[0].life - 1)] else []) + Aged(ps[1..])
  }

  lemma {:induction false} AgedAppend(a: seq<Particle>, b: seq<Particle>)
    ensures Aged(a + b) == Aged(a) + Aged(b)
  {
    if |a| > 0 {
      assert (a + b)[1..] == a[1..] + b;
      AgedAppend(a[1..], b);
    } else {
      assert a + b == b;
    }
  }

  /** When every particle has more than one unit of life, ageing keeps them
      all, each with one unit less. */
  lemma {:induction false} AgedKeepsLiving(ps: seq<Particle>)
    requires forall k :: 0 <= k < |ps| ==> ps[k].life > 1
    ensures |Aged(ps)| == |ps|
    ensures forall k :: 0 <= k < |ps| ==> Aged(ps)[k].life == ps[k].life - 1
  {
    if |ps| > 0 {
      AgedKeepsLiving(ps[1..]);
    }
  }

  /** A particle of life L >= 1 survives exactly L - 1 rounds: it is present
      after n rounds iff n < L, with L - n life left. */
  lemma {:induction false} LifeSpan(life: int, n: nat)
    requires life >= 1
    ensures |AgeRounds([Particle(life)], n)| == (if n < life then 1 else 0)
    ensures n < life ==> AgeRounds([Particle(life)], n) == [Particle(life - n)]
  {
    if n > 0 {
      LifeSpan(life, n - 1);
      if n - 1 < life {
        assert AgeRounds([Particle(life)], n) == Aged([Particle(life - (n - 1))]);
        assert [Particle(life - (n - 1))][1..] == [];
      } else {
        assert AgeRounds([Particle(life)], n) == Aged([]);
      }
    }
  }

  function AgeRounds(ps: seq<Particle>, n: nat): seq<Particle>
  {
    if n == 0 then ps else Aged(AgeRounds(ps, n - 1))
  }

  /** Ageing a suffix from position i: particle i's survivor, if any, then
      the aged rest. */
  lemma AgedFrom(ps: seq<Particle>, i: nat)
    requires i < |ps|
    ensures Aged(ps[i..]) == (if ps[i].life - 1 > 0 then [Particle(ps[i].life - 1)] else []) + Aged(ps[i + 1..])
  {
    assert ps[i..][1..] == ps[i + 1..];
  }

  lemma ReplaceMiddle<T>(a: seq<T>, x: T, b: seq<T>, y: T)
    ensures (a + [x] + b)[|a| := y] == a + [y] + b
  {
  }

  lemma RemoveMiddle<T>(a: seq<T>, x: T, b: seq<T>)
    ensures (a + [x] + b)[..|a|] + (a + [x] + b)[|a| + 1..] == a + b
  {
    assert (a + [x] + b)[..|a|] == a;
    assert (a + [x] + b)[|a| + 1..] == b;
  }

  /** The life loop of `update`: from the last particle down to the first,
      take one unit of life and splice the particle out when it has none
      left. It ends with exactly the aged population. */
  method AgeParticles(ps: seq<Particle>) returns (r: seq<Particle>)
    ensures r == Aged(ps)
  {
    r := ps;
    var i := |ps|;
    assert ps[i..] == [];
    while i > 0
      invariant 0 <= i <= |ps|
      invariant r == ps[..i] + Aged(ps[i..])
    {
      i := i - 1;
      ghost var rest := Aged(ps[i + 1..]);
      assert r == ps[..i] + [ps[i]] + rest by {
        assert ps[..i + 1] == ps[..i] + [ps[i]];
      }
      AgedFrom(ps, i);
      var p := Particle(r[i].life - 1);
      if p.life <= 0 {
        RemoveMiddle(ps[..i], ps[i], rest);
        r := r[..i] + r[i + 1..];
      } else {
        ReplaceMiddle(ps[..i], ps[i], rest, p);
        r := r[i := p];
      }
    }
    assert ps[0..] == ps;
  }

  /** `update` as far as the population goes: age every particle, then add
      thirty fresh ones when fewer than twenty are left. */
  method Update(f: Field) returns (g: Field, strength: int)
    ensures strength == Strength(f.mode)
    ensures |g.particles| >= MinimumCount
    ensures forall k :: 0 <= k < |g.particles| ==> g.particles[k].life > 0
    ensures |Aged(f.particles)| < MinimumCount ==> g.particles == Aged(f.particles) + Batch(InitialCount, InitialLife)
    ensures |Aged(f.particles)| >= MinimumCount ==> g.particles == Aged(f.particles)
    ensures g.width == f.width && g.height == f.height && g.mouseX == f.mouseX && g.mouseY == f.mouseY && g.mode == f.mode
  {
    strength := if f.mode == Repel then -3 else 3;
    var survivors := AgeParticles(f.particles);
    if |survivors| < MinimumCount {
      survivors := survivors + Batch(InitialCount, InitialLife);
    }
    g := f.(particles := survivors);
  }
}
