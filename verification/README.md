# spinute, the discrete core, in Dafny

spinute is a terminal self-introduction. It plays a shuffled sequence of
animations and "cards". This project models the parts of it that are
discrete logic rather than trigonometry or terminal plumbing, and it proves
what those parts promise.

- **Conway's Game of Life** (`life.dfy`, module `Life`).
  - The engine is a bounded boolean grid with closed edges and a spare buffer.
  - It covers neighbour counting, the B3/S23 step with the buffer swap and the generation counter, and random filling.
  - It covers pattern stamping, loading by name, and the text rendering.
- **L-systems** (`lsystem.dfy`, module `LSystems`).
  - The four built-in systems, the fallback to `fern` for an unknown name, and parallel string rewriting.
  - Proved: rewriting is a homomorphism, it keeps brackets balanced, and the Fibonacci growth of `algae`.
- **The constellation card** (`constellation.dfy`, module `Constellation`).
  - The star positions on even-sized grids, and the connection table.
  - Bresenham's integer line walk with its glyph choice, and the URL stamping at the bottom.
- **The seeded generator and the shuffles** (`rng.dfy`, module `Seeded`).
  - The LCG `next`/`reset`, the Fisher–Yates shuffle, and the order in which `main` plays effects and cards for a given seed.
- **The interactive field** (`field.dfy`, module `Field`).
  - The cursor and mode state machine driven by keys, bursts, particle lives, and the minimum particle count.
- **Matrix rain** (`rain.dfy`, module `Rain`): the drop counters and the brightness tiers of a column.
- **The circuit board** (`circuit.dfy`, module `Circuit`): the random-walk generator and the flashing overlay.
- **The floating, glitch, neon and ASCII-wave cards** (`floating.dfy`, `glitch.dfy`, `neon.dfy`, `wave.dfy`).
  - Their fixed-width layout: the bordered box, centring, and the shift and corruption edits.
  - Also the row layout of each card, and the one-code-unit overlay.

Shared pieces:
- `jsbuiltins.dfy` (module `JsBuiltins`) holds the JavaScript built-ins the sources lean on. These are `Math.floor(Math.random() * n)`, `String.prototype.repeat`, `substring` with its index clamping, and `join('\n')`.
- `canvas.dfy` holds grids of code units.
- `text.dfy` holds `centerText` and the substring overlay.

Modelling conventions:
- **Strings** are `seq<char>` with one `char` per UTF-16 code unit, as JavaScript's `.length` and indexing see them.
  - The L-system round iterates with `for … of`, which walks code points. The built-in systems are ASCII, where code points and code units coincide.
  - Some constants are emoji (two code units each): the floating card's pin and particle emoji, and the glitch card's emoji.
  - Some constants are shown in the glitch card's file as mis-decoded bytes: its block glyphs, bar and name lines.
  - These constants are parameters rather than literals.
- **`Math.random()`** is never called. Its results are parameters:
  - a draw is a `real` in [0, 1) (`JsBuiltins.IsDraw`);
  - a stream of draws is a function `nat -> real` (`IsStream`);
  - a per-row or per-cell choice is a function of the coordinates.
- **Sines and cosines of the time** are parameters too: the wave sum, the neon `glow`, the glitch level, and the floating card's offsets.
- **Colouring** (chalk, gradient-string) is left out. Rendering functions return the uncoloured text or cells.

## Model

| member | source | states |
|---|---|---|
| Life.CreateGrid | src/simulations/gameOfLife.ts:11-13 | a fresh grid has `height` rows of `width` cells, all dead |
| Life.NewGame | src/simulations/gameOfLife.ts:4-13 | a new engine keeps the dimensions it is given, starts at generation 0, and its grid is entirely dead |
| Life.Neighbors | src/simulations/gameOfLife.ts:73-88 | a neighbour count is never more than 8 |
| Life.CountNeighbors | src/simulations/gameOfLife.ts:73-88 | the nested scan over dy, dx counts exactly the live cells among the eight neighbours that lie inside the grid, and the count is at most 8 |
| Life.CountRow | src/simulations/gameOfLife.ts:76-85 | one row of the scan adds that row's in-grid live neighbours to the count so far, skipping the cell itself |
| Life.NoWrapAround | src/simulations/gameOfLife.ts:82 | the edges do not wrap: changing the cell in the last column does not change the count of a cell in column 0 |
| Life.CornerNeighbors | src/simulations/gameOfLife.ts:79-84 | cells outside the grid count as dead, so a corner cell has at most 3 neighbours |
| Life.StepGrid | src/simulations/gameOfLife.ts:90-102 | the loop writing into the spare buffer makes every cell alive iff it was alive with 2 or 3 neighbours or dead with exactly 3, all counted on the old grid; whatever the buffer held before does not matter |
| Life.Rule | src/simulations/gameOfLife.ts:94-99 | a cell with fewer than 2 or more than 3 neighbours is dead next, one with exactly 3 is alive, and one with exactly 2 keeps its state |
| Life.NextGrid | src/simulations/gameOfLife.ts:90-102 | the next generation has the grid's shape, and a cell is alive in it iff it has 3 live neighbours, or 2 and was alive |
| Life.Step | src/simulations/gameOfLife.ts:90-106 | a step applies the B3/S23 rule to every cell from the pre-step grid, moves the old grid into the spare buffer, adds exactly one to the generation and keeps the dimensions |
| Life.Steps | src/simulations/gameOfLife.ts:90-106 | n steps add exactly n to the generation and never change the dimensions |
| Life.DeadStaysDead | src/simulations/gameOfLife.ts:90-104 | an all-dead grid stays all dead |
| Life.BlockIsStill | src/simulations/gameOfLife.ts:90-104 | a 2×2 block inside the grid is unchanged by a step |
| Life.BlinkerFlips | src/simulations/gameOfLife.ts:90-104 | a blinker away from the edges turns from horizontal to vertical and back |
| Life.BlinkerPeriodTwo | src/simulations/gameOfLife.ts:90-106 | a blinker comes back after two steps, and not after one |
| Life.Randomize | src/simulations/gameOfLife.ts:15-21 | every cell is overwritten and is alive iff its draw is below the density; the buffer, the dimensions and the generation are untouched |
| Life.PlacePattern | src/simulations/gameOfLife.ts:65-71 | a cell is alive afterwards iff it was alive before or a shifted pattern entry lands on it; cells are only set, never cleared, and off-grid entries are skipped |
| Life.PatternNamed | src/simulations/gameOfLife.ts:26-62 | exactly "glider", "pulsar" and "gospergun" name a fixed pattern |
| Life.LoadPattern | src/simulations/gameOfLife.ts:23-63 | the grid is cleared first; "random" fills it at density 0.3, a known name holds exactly its pattern, and any other name leaves it entirely dead |
| Life.RenderRow | src/simulations/gameOfLife.ts:111-114 | a row renders as one glyph per cell, '█' iff the cell is alive and ' ' iff it is dead, then a newline |
| Life.Render | src/simulations/gameOfLife.ts:108-117 | the text has exactly height × (width + 1) code units |
| Life.RenderAt | src/simulations/gameOfLife.ts:108-117 | code unit y·(width+1)+x of the text is code unit x of row y's rendering |
| Life.RenderLayout | src/simulations/gameOfLife.ts:108-117 | each row occupies width + 1 code units ending in '\n', and the glyph at (x, y) shows whether that cell is alive |
| Life.RenderParses | src/simulations/gameOfLife.ts:108-117 | the rendering loses nothing: reading the text back gives the grid |
| LSystems.SystemNamed | src/creative/lsystem.ts:54 | a known name gives its system, and any other name falls back to fern |
| LSystems.Image | src/creative/lsystem.ts:66 | a character is replaced by its rule's right-hand side, or copied when it has no rule (or an empty one); the replacement is never empty |
| LSystems.Round | src/creative/lsystem.ts:64-68 | a rewriting round never shortens the string |
| LSystems.RoundSnoc | src/creative/lsystem.ts:65-67 | reading one more character appends exactly that character's replacement |
| LSystems.RoundAppend | src/creative/lsystem.ts:64-68 | a round is a homomorphism: rewriting s1 + s2 gives the rewriting of s1 followed by that of s2 |
| LSystems.RoundWithoutRules | src/creative/lsystem.ts:66 | a string none of whose characters has a rule is left as it is |
| LSystems.Generate | src/creative/lsystem.ts:60-72 | `generate` performs exactly `iterations` rounds starting from the axiom |
| LSystems.RoundKeepsWalk | src/creative/lsystem.ts:64-68 | when every rule's right-hand side is bracket-balanced, a round leaves the bracket walk of any string, from any starting depth, as it was: the same final depth, and an unmatched ']' in the result exactly when there is one in the original |
| LSystems.RewriteBalanced | src/creative/lsystem.ts:60-72 | with balanced rules, any number of rounds keeps a balanced string balanced |
| LSystems.FernRuleBalanced | src/creative/lsystem.ts:13 | fern's X rule is balanced |
| LSystems.TreeRuleBalanced | src/creative/lsystem.ts:22 | tree's F rule is balanced |
| LSystems.BushRuleBalanced | src/creative/lsystem.ts:30 | bush's F rule is balanced |
| LSystems.FernSafe | src/creative/lsystem.ts:10-18 | fern's axiom and every right-hand side are balanced |
| LSystems.TreeSafe | src/creative/lsystem.ts:19-26 | tree's axiom and its right-hand side are balanced |
| LSystems.BushSafe | src/creative/lsystem.ts:27-34 | bush's axiom and its right-hand side are balanced |
| LSystems.AlgaeSafe | src/creative/lsystem.ts:35-43 | algae has no brackets at all |
| LSystems.GenerateBalanced | src/creative/lsystem.ts:60-72 | whatever name is asked for, the generated string is bracket-balanced |
| LSystems.AlgaeRound | src/creative/lsystem.ts:38-39 | under A→AB, B→A a round makes as many A's as there were letters, and as many B's as there were A's |
| LSystems.AlgaeFibonacci | src/creative/lsystem.ts:35-43 | after n rounds from "A" there are Fib(n+1) A's and Fib(n) B's, and Fib(n+2) letters in all |
| LSystems.AlgaeLength | src/creative/lsystem.ts:35-43 | algae's six iterations produce 21 letters |
| Constellation.Stars | src/cards/constellationCard.ts:23-43 | there are 31 stars, star k at (width / 2 - 18, height / 2 - 6) plus its letter offset |
| Constellation.StarsOnGrid | src/cards/constellationCard.ts:23-43 | on an even grid at least 36 wide and 10 high every star is on the grid |
| Constellation.LinksSymmetric | src/cards/constellationCard.ts:55-65 | the connection table has one entry per star, every index in it is a star, and every link is recorded at both ends |
| Constellation.LineGlyph | src/cards/constellationCard.ts:155-163 | '─' iff the remaining vector is wider than tall, '│' iff taller than wide, '\\' iff diagonal with dx·dy > 0, '/' otherwise |
| Constellation.Visit | src/cards/constellationCard.ts:154-164 | a visit paints the current cell with its line glyph when it is on the grid and blank, and changes nothing else |
| Constellation.XStepBounded | src/cards/constellationCard.ts:168-172 | once the walk's x has reached the target column, the error term stops any further x step |
| Constellation.YStepBounded | src/cards/constellationCard.ts:173-176 | once the walk's y has reached the target row, the error term stops any further y step |
| Constellation.DrawLine | src/cards/constellationCard.ts:146-178 | the walk terminates, starts at (x1, y1), stops exactly at (x2, y2), and each step moves each coordinate by at most one, toward the target; the only cells that change are blank on-grid cells of its path, each given the glyph for the vector still to go |
| Constellation.DrawLinks | src/cards/constellationCard.ts:83-88 | the connection pass changes only blank cells, each into a line glyph, and both ends of every link that are grid cells and were blank hold a line glyph afterwards |
| Constellation.DrawStarLinks | src/cards/constellationCard.ts:84-87 | drawing one star's lines still changes only blank cells, each into a line glyph; ends drawn earlier stay drawn, and both ends of each of the star's links are drawn |
| Constellation.DrawCardLinks | src/cards/constellationCard.ts:83-88 | on the card's own stars and link table, only blank cells change, each into a line glyph, and both ends of every link that are blank grid cells get a line glyph |
| Constellation.StampRow | src/cards/constellationCard.ts:116-121 | a stamped row holds the url's characters at the columns [startX, startX + length) that fall on the grid, and the old row elsewhere |
| Constellation.StampUrls | src/cards/constellationCard.ts:107-122 | the urls go, centred, on rows height-5 to height-3 and every other row is untouched; a grid under 5 rows high has no row height-5 to write to and fails |
| Seeded.Next | src/index.ts:37-41 | the new state lies in [0, 2147483647) and the returned value is state / 2147483647, a draw in [0, 1) |
| Seeded.NextExact | src/index.ts:39 | from any state below the modulus, state·1664525 + 1013904223 stays below 2^53, so the double arithmetic is exact |
| Seeded.Draws | src/index.ts:37-41 | n calls of `next` give n draws in [0, 1) |
| Seeded.DrawsSplit | src/index.ts:37-41 | a + b draws are the first a draws followed by b draws from the state they leave |
| Seeded.Reset | src/index.ts:43-45 | after `reset(s)` the draws are those of a fresh generator seeded with s |
| Seeded.Swap | src/index.ts:578 | the destructuring swap exchanges positions i and j and leaves every other position alone |
| Seeded.SwapPermutes | src/index.ts:578 | a swap is a permutation |
| Seeded.SwapIndex | src/index.ts:577 | j = floor(r·(i+1)) lies in [0, i] |
| Seeded.SeededSwapIndex | src/index.ts:577 | with a seeded draw, j is the integer quotient state·(i+1) / 2147483647 |
| Seeded.SwapChoices | src/index.ts:576-577 | the draws give one valid swap index per step, from the top position down to 1 |
| Seeded.ShuffleFrom | src/index.ts:576-579 | a shuffle keeps the length |
| Seeded.ShufflePermutes | src/index.ts:576-579 | any sequence of valid swap choices permutes the sequence |
| Seeded.Shuffle | src/index.ts:575-579 | the loop over a copy returns a permutation of the items, and the items themselves are left as they were |
| Seeded.PlayOrderPermutes | src/index.ts:574-585 | for a seed, every effect and every card is played exactly once |
| Seeded.PlayOrder | src/index.ts:574-585 | the effects' order has one entry per effect and the cards' order one per card |
| Seeded.CardsFollowEffects | src/index.ts:574-585 | the cards are shuffled with the stretch of the one seeded stream that follows the effects' draws, so the seed alone fixes both orders |
| Field.Batch | src/creative/interactiveField.ts:28-40 | `initParticles` adds exactly the given number of particles, each with the given life |
| Field.NewField | src/creative/interactiveField.ts:19-26 | a new field keeps the width and height it is given, starts its cursor at (width / 2, height / 2), is in attract mode with 30 particles of life 1000, and its cursor is on the grid when both sides are at least 2 |
| Field.Lower | src/creative/interactiveField.ts:43 | lower-casing keeps the length and maps exactly 'A'..'Z' to 'a'..'z' |
| Field.LowerIdempotent | src/creative/interactiveField.ts:43 | lower-casing twice is lower-casing once |
| Field.SpawnBurst | src/creative/interactiveField.ts:80-94 | a burst appends exactly 10 particles of life 50 after the existing ones and changes nothing else |
| Field.HandleKey | src/creative/interactiveField.ts:42-78 | no key changes the field's dimensions |
| Field.HandleKeyKeepsCursor | src/creative/interactiveField.ts:44-59 | on a grid at least 1 × 1, every key keeps an on-grid cursor in [0, width-1] × [0, height-1] |
| Field.HandleKeyIgnoresCase | src/creative/interactiveField.ts:43 | a key and its lower-case form have the same effect |
| Field.ModeKeys | src/creative/interactiveField.ts:42-78 | 'r' sets repel and 'e' attract, changing nothing else; 'q' sets spawn; a key outside the table leaves the field as it was |
| Field.ParticleKeys | src/creative/interactiveField.ts:60-76 | ' ' and 'q' add exactly 10 particles of life 50 behind the existing ones; 'c' leaves exactly 30 particles of life 1000 |
| Field.Strength | src/creative/interactiveField.ts:98-102 | the attractor strength is -3 exactly in repel mode and 3 otherwise |
| Field.Aged | src/creative/interactiveField.ts:135-139 | aging never adds particles and every survivor is still alive |
| Field.AgedAppend | src/creative/interactiveField.ts:105-139 | particles age independently, so the order of the pass over them does not matter |
| Field.AgedKeepsLiving | src/creative/interactiveField.ts:135-139 | particles with more than one life left all survive, each with one life less |
| Field.LifeSpan | src/creative/interactiveField.ts:135-139 | a particle of life L survives exactly L - 1 updates, losing one life per update |
| Field.AgeParticles | src/creative/interactiveField.ts:105-140 | the backward pass with `splice` decrements every life and removes exactly the particles at 0 or below, keeping the others' order |
| Field.Update | src/creative/interactiveField.ts:96-146 | after an update every particle is alive and there are at least 20; 30 fresh ones of life 1000 are added exactly when fewer than 20 survived; the strength follows the mode |
| Rain.NewDrops | src/creative/matrixRain.ts:9 | there is one drop per column, each in [0, height) |
| Rain.Update | src/creative/matrixRain.ts:13-21 | each drop is reset to 0 or moved down by exactly one; a drop past the bottom is always reset, and a non-negative drop is reset iff its draw exceeds 0.98 or it is past the bottom |
| Rain.DropsStayInRange | src/creative/matrixRain.ts:13-21 | across any number of updates every drop stays in [0, height + 1] |
| Rain.TierByDistance | src/creative/matrixRain.ts:34-42 | five or more rows above the drop is white, three or four bright green, one or two green, and the drop's own row and below stay blank |
| Rain.TierAt | src/creative/matrixRain.ts:34-42 | a cell is blank iff it is at or below the drop |
| Rain.PaintColumn | src/creative/matrixRain.ts:30-43 | painting a column gives each row its tier and touches no other column |
| Rain.Render | src/creative/matrixRain.ts:23-46 | a cell is painted iff its row lies above its column's drop, with the tier of its distance to it |
| Circuit.Walk | src/creative/circuitBoard.ts:19-35 | a path has 10 to 29 positions and starts on the grid; each step changes exactly one coordinate by one; exactly the path's on-grid cells get a trace glyph |
| Circuit.Generate | src/creative/circuitBoard.ts:11-38 | the circuit is a height × width grid of 8 such paths, and a cell is non-blank iff some path crosses it, holding '●', '─' or '│' |
| Circuit.Render | src/creative/circuitBoard.ts:41-61 | the output copies the circuit except that a non-blank cell may flash to '◉'; blank cells stay blank, and the stored circuit is not changed |
| Text.CenterPad | src/cards/glitchCard.ts:78 | the left padding is floor((width - length) / 2), and 0 when the text does not fit |
| Text.CenterText | src/cards/glitchCard.ts:77-80 | the line is max(width, length) long with the text at the left padding and spaces around it; when the text fits, the right padding equals the left or exceeds it by one |
| Text.Overlay | src/cards/asciiWaveCard.ts:36-38 | inside the line one code unit is replaced; before the line the character is prepended (substring clamps a negative index); past the end nothing changes |
| Text.OverlayInside | src/cards/asciiWaveCard.ts:37 | inside the line, the substring splice is the line up to p, the character, then the rest after p |
| Text.OverlayTextSplice | src/cards/asciiWaveCard.ts:35-39 | writing a text that fits from `start` yields the line with exactly that stretch replaced by the text |
| Text.OverlayTextInPlace | src/cards/asciiWaveCard.ts:35-39 | writing a text that fits keeps the length, shows the text at [start, start + length), and leaves every other code unit alone |
| JsBuiltins.Pick | src/cards/floatingCard.ts:64 | `Math.floor(Math.random() * n)` is an index below n |
| JsBuiltins.Substring | src/cards/asciiWaveCard.ts:37 | within bounds `substring(a, b)` is the slice [a, b) |
| JsBuiltins.SubstringFrom | src/cards/asciiWaveCard.ts:37 | `substring(a)` is the suffix from a, the whole string for a ≤ 0, and empty past the end |
| JsBuiltins.JoinLinesNewlines | src/cards/asciiWaveCard.ts:76 | joining n lines without newlines by '\n' puts exactly n - 1 newlines in the text |
| Floating.CardSize | src/cards/floatingCard.ts:16-50 | with the two-code-unit pin the card is 36 code units wide and 11 lines high |
| Floating.Longest | src/cards/floatingCard.ts:26 | the longest length bounds every content line and is reached by one |
| Floating.CardWidth | src/cards/floatingCard.ts:27 | the card is eight wider than its longest content line: every line leaves at least eight columns and the longest exactly eight |
| Floating.BoxLine | src/cards/floatingCard.ts:30 | a border or blank line is `width` long with its corner characters at the ends and the fill between |
| Floating.ContentLine | src/cards/floatingCard.ts:36-40 | a content line is card-width long between '│' borders, with the text at offset 1 + floor((width - 2 - length) / 2) and spaces elsewhere |
| Floating.AddItem | src/cards/floatingCard.ts:36-46 | one pass of the content loop pushes the next content line, then the spacer after item 2 |
| Floating.BuildCard | src/cards/floatingCard.ts:29-50 | the card has content + 5 lines, all card-width long: top border, blank line, content with the spacer after item 2, blank line, bottom border |
| Floating.LastHitIsLast | src/cards/floatingCard.ts:63-71 | no later particle lands where the last hit did, so the last hit's glyph is what the cell keeps |
| Floating.DrawParticles | src/cards/floatingCard.ts:63-71 | each cell holds the glyph of the last of the 20 particles that landed on it, or its old content when none did; off-grid particles change nothing |
| Floating.Blit | src/cards/floatingCard.ts:73-82 | every on-grid cell the card covers holds the card's code unit at the matching offset, and no other cell changes |
| Floating.Start | src/cards/floatingCard.ts:58-59 | the card's corner is the floor of half the free space plus the offset |
| Floating.ParticleAt | src/cards/floatingCard.ts:64-65 | on a non-empty grid each particle's cell is on the grid |
| Floating.Render | src/cards/floatingCard.ts:10-82 | the card is the bordered box around the pin, the name and the urls, laid out as `BuildCard` states; cells under the card hold its code units; every other cell holds exactly what the twenty particles leave on a blank grid (the last one's glyph, or a blank), so it is blank or a particle's glyph |
| Glitch.ShiftAmount | src/cards/glitchCard.ts:25 | the shift lies in [-2, 2] |
| Glitch.Shift | src/cards/glitchCard.ts:23-27 | the shift prepends exactly max(0, shift) spaces and leaves the rest of the line as it was |
| Glitch.Corrupt | src/cards/glitchCard.ts:29-35 | on a non-empty line corruption keeps the length and changes at most the picked position, to the glyph; an empty line becomes the glyph alone |
| Glitch.AddLine | src/cards/glitchCard.ts:19-38 | a non-empty text comes back behind at most two spaces with at most one of its code units changed, and at level 0 unchanged |
| Glitch.AddLinePrefix | src/cards/glitchCard.ts:19-38 | everything in front of the text is a space or a block glyph |
| Glitch.BackgroundCell | src/cards/glitchCard.ts:62-68 | a background cell is blank, a block glyph or an emoji index in range, and blank at level 0 |
| Glitch.ContentAt | src/cards/glitchCard.ts:44-57 | exactly rows 0, 1, 2, 4, 5, 6 and 8 below centerY hold content |
| Glitch.LineAt | src/cards/glitchCard.ts:41-71 | a row is a content line exactly at centerY + {0, 1, 2, 4, 5, 6, 8} with centerY = floor(height / 2) - 4; every other row is a background line of `width` cells |
| Glitch.BackgroundLine | src/cards/glitchCard.ts:60-69 | a background line is made of exactly `width` cells, one per column |
| Glitch.Render | src/cards/glitchCard.ts:41-74 | `render` produces exactly `height` lines, row y being the content or background line for y |
| Glitch.RenderRow | src/cards/glitchCard.ts:43-70 | one pass of the loop makes row y's content or background line, as `LineAt` describes it |
| Neon.RowText | src/cards/neonCard.ts:17-35 | exactly the rows -1 and 1 around centerY while glowing, 0, and 3 to 5 hold a text; the urls carry the '▸ ' marker iff glowing |
| Neon.BackgroundLine | src/cards/neonCard.ts:38-45 | a background line is `width` long; a cell is non-blank iff it is on every tenth column or fifth row and sparks, and then it is '+' while glowing and '·' otherwise |
| Neon.Render | src/cards/neonCard.ts:10-50 | `render` produces exactly `height` lines: text rows centred in the width, every other row a background line |
| Neon.RenderRow | src/cards/neonCard.ts:19-47 | one pass of the loop makes row y: its text centred in the width, or a background line |
| Neon.NoBarsWithoutGlow | src/cards/neonCard.ts:20-26 | without the glow the rows right above and below the name are background lines, with it they are bars |
| Neon.MarkedText | src/cards/neonCard.ts:28-34 | a centred url shows the '▸ ' marker at the text's offset exactly when it was added, and the url after it |
| Neon.UrlRowMarker | src/cards/neonCard.ts:27-35 | each url row shows its url, behind the '▸ ' marker exactly while glowing |
| Wave.GlyphIndex | src/cards/asciiWaveCard.ts:24 | the glyph index is always inside the wave glyph string |
| Wave.WaveCell | src/cards/asciiWaveCard.ts:23-28 | a cell is a wave glyph iff the wave sum exceeds 1.5 in magnitude, blank otherwise |
| Wave.WaveLine | src/cards/asciiWaveCard.ts:17-29 | the glyph loop makes `width` cells, the cell of column x coming from the wave sum at (x, y) |
| Wave.OverlayLoop | src/cards/asciiWaveCard.ts:35-39 | the loop of single-position overlays writes the text from `start` on, one code unit at a time |
| Wave.OverlayAt | src/cards/asciiWaveCard.ts:32-61 | exactly the rows two above the middle, the middle and the two below it get an overlay |
| Wave.NameRow | src/cards/asciiWaveCard.ts:31-40 | when the name fits, the row keeps the width, shows the name at floor((width - 7) / 2), and keeps the wave everywhere else |
| Wave.UrlRow | src/cards/asciiWaveCard.ts:41-50 | when the url fits, the row is `width` long, blank except for the url at floor((width - length) / 2) |
| Wave.RenderRow | src/cards/asciiWaveCard.ts:14-73 | a row holds no newline; the row two above the middle is the name row, with the name at floor((width - 7) / 2) over the wave; the middle row and the two below it are url rows, blank but for the url centred; every other row is the plain wave line |
| Wave.TextsFit | src/cards/asciiWaveCard.ts:31-50 | on a card at least 28 wide, the longest url's length, every overlay text fits, so the name and url rows are fully described |
| Wave.Render | src/cards/asciiWaveCard.ts:10-77 | `render` produces exactly `height` lines joined by newlines, so the text holds height - 1 newlines; each line is the name row, a url row or the wave line for its position, as `RenderRow` states |

## Left out

- Boids, the particle system, fireflies, kaleidoscope, DNA helix, spiral, wave animation and fractal tree: these are floating-point painters built on sin, cos and sqrt.
- `LSystem.draw`: a trigonometric turtle with float angles.
- Terminal and timing: `index.ts` apart from `SeededRandom` and the two shuffles. This covers screen clearing, `sleep`, the timed sequencing, argument parsing, `process.exit`, and the burst and loading animations.
- Colouring: chalk, gradient-string, figlet and boxen are foreign libraries, so only the uncoloured text or cells are modelled.
- Seeded.Next: the seed is a `nat`. With a negative `--seed`, JavaScript's sign-keeping `%` gives negative draws, and that case is not modelled.
- Seeded.Next: for a seed of 5,411,272,430 or more, the first `seed * 1664525 + 1013904223` reaches 2^53. JavaScript's doubles may round there, and the model keeps the exact residue instead (seed 10^10 gives 39308520 here and 39308521 in JavaScript). From the second call on the state is below the modulus and the two agree, as `Seeded.NextExact` states.
- Seeded.SeededSwapIndex: it relates the floor of the exact quotient. The rounding of the double division `seed / 2147483647` and of its product with i + 1 is not modelled.
- Constellation.Stars: only grids with even sides are modelled. On odd sides every star shares one fractional part, so the line walk still ends, but its positions are not cells. With an odd width, `grid[y1][x1] === ' '` reads `undefined` at a fractional column and no line glyph is ever drawn. With an odd height, `grid[y1]` is `undefined` at a fractional row and reading `[x1]` from it throws a TypeError.
- The constellation's background stars and the star pulse glyphs are left out. Both are drawn from the time's sine and random brightness.
- Field: the particle physics is left out: forces, damping, positions, velocities, edge wrapping and `render`. Particles are modelled by their life only, and the cursor as a `real`.
- Field.Lower: it lower-cases ASCII letters only. `toLowerCase` also maps other scripts, and no key in the table needs them.
- Rain.PaintColumn: which katakana, digit or emoji glyph goes in a painted cell is left out. Only the cell's tier is modelled.
- Glitch.Render: background lines are modelled as cells (blank, block glyph index or emoji index) rather than concatenated text, because the emoji are two code units.
- Glitch: the glitch level and the `addLine` draws are per-row and per-cell oracles. The order in which the source consumes one shared random stream across rows is not modelled.
- Neon.BackgroundLine: whether a grid point sparks is an oracle of its coordinates.
- Floating.Render: the card's position offsets (a sine and a cosine of the time) are parameters. The final gradient and dimming of the rows are left out.
- Floating.CardContent, Glitch, Circuit.Render: the emoji, the pin, the glitch block glyphs and bar, and the flash pulse are parameters rather than constants.
- Wave.NameRow: its placement is stated only when the name fits in the width. When it does not, startX is negative and the overlay prepends characters, as `Text.Overlay` states.
- Wave.UrlRow: its placement is stated only when the url fits in the width, for the same reason.
- Wave.RenderRow: the name and url rows are stated only when their text fits, as for `NameRow` and `UrlRow`. `Wave.TextsFit` shows that every text fits once the width is at least 28.
- Wave.Render: its rows carry the same fit condition as `RenderRow`.
- Constellation.DrawLinks: it states the ends of every link and the frame. The cells between the ends are stated line by line by `Constellation.DrawLine`, not gathered over the whole pass.
- LSystems.SystemNamed: looking up inherited `Object.prototype` names such as "constructor" is not modelled. Such names are treated as unknown and fall back to fern.
