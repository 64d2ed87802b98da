# ConwaysVoronoi in Dafny

ConwaysVoronoi is a console program that runs Conway's Game of Life on a framed
grid of glyph strings. A Voronoi-noise sampler seeds the grid and drives a random
population cull. This project models two parts of it and proves properties of both:

- **The integer-mixing catalogue** of the sampler (`grng/GRandomAlgorithms.cs`):
  - the `AlgorithmChoices` enum, `GetAlgorithmCount` and the `SelectAlgorithm`
    switch;
  - the fifteen straight-line functions on a 32-bit `int`.

  They are written over bit vectors, with C#'s semantics spelled out in module
  `CSharpInt`:
  - wrapping arithmetic;
  - shift counts masked to five bits (`int`) or six bits (`long`/`ulong`);
  - sign-filling `>>` on `int` and `long`;
  - sign-extending widening and truncating `(int)` casts.

  So `rand >> 34` is `rand >> 2`, `(ulong)v * c >> 64` keeps the whole product, and
  `rol64(x, 7)` is a rotation for non-negative `x`, and not in general (`Rol64NotRotation`).
- **The automaton** (`Program.cs`):
  - `Directions2D`;
  - `BlankMapInit`, which draws the frame;
  - `InitializeConwaysGameMaps`, which runs the noise-threshold pass and the budgeted
    seed-blob loop;
  - `RunConwaysIteration`, the in-place generation sweep with its neighbour rule;
  - `KillRandomUntilCountMet`, the population cull.

  Each of these is a method over the two parallel arrays `activeMap` (modelled as
  `array2<Glyph>`) and `activeColors` (modelled as `array2<ConsoleColor>`). Each loop
  is proved against a pure function over a `Board` value. The properties of the
  program are lemmas about those functions.

The noise sampler's source is not part of this model. Module `VoronoiOracle` gives
its draws as a `Noise` oracle: one stream of draws, indexed by a cursor
(`range(k, min, max)` and `coin(k)`). The one property the automaton relies on is an
explicit assumption, `RangeIsHalfOpen`: `Range(min, max)` with `min < max` lies in
`[min, max)`. The float noise map is a boolean mask, where `mask(x, y)` means
`nm[x, y] >= valueForActive`.

The modelled sweep behaves as the code does:
- It is in place: a cell's neighbour count sees the already-updated cells before it
  in row-major order.
- It visits only rows `1..h-3` and columns `1..w-3`, so row `h-2` and column `w-2`
  are never rewritten.
- The cap is checked only before each cell, so a generation can end with its running
  total at `maxActiveCount + 1` (`VisitCanPassCap`).
- The cap bounds the activations a generation counts, not the number of Active
  cells. `totalActiveCount` restarts at 0 in every generation and rises only when a
  cell's count equals `neighborsToBeActive`. Active cells that survive with a smaller
  count, and Active cells the sweep does not reach, are never counted. So the cull
  keeps the running count within `maxActiveCount + 1`, but a still life outgrows any
  cap: with `maxActiveCount = 1`, a six-cell beehive stays Active in every
  generation, each generation ending with a total of 0 and no cull (`HiveOutgrowsCap`).
- The cull draws from the `(h-2) × (w-2)` block at the top left: the visited
  rectangle plus row 0 and column 0. Those are frame cells, and it kills only Active
  cells. No frame cell is Active on the grid `InitializeConwaysGameMaps` builds, and
  none becomes Active in any number of generations (`GameKeepsFrame`). So the cull
  only kills cells the sweep visits.

Files:
- `csharp_int.dfy`: C# integer semantics.
- `grandom_algorithms.dfy`: the mixing catalogue.
- `voronoi_oracle.dfy`: the sampler oracle.
- `grid.dfy`: glyphs, the board, neighbours and the rule.
- `seeding.dfy`: `BlankMapInit` and `InitializeConwaysGameMaps`.
- `culling.dfy`: `KillRandomUntilCountMet`.
- `sweeping.dfy`: `RunConwaysIteration`.

## Model

| member | source | states |
|---|---|---|
| CSharpInt.SarNonNegative | grng/GRandomAlgorithms.cs:183 | `>>` on a non-negative int is the logical shift by the count masked to five bits |
| CSharpInt.SarNegative | grng/GRandomAlgorithms.cs:248 | `>>` on a negative int fills the vacated high bits with ones |
| CSharpInt.Sar64NonNegative | grng/GRandomAlgorithms.cs:328 | `>>` on a non-negative long is the logical shift by the count masked to six bits |
| CSharpInt.Sar64Negative | grng/GRandomAlgorithms.cs:309 | `>>` on a negative long fills the vacated high bits with ones |
| GRandomAlgorithms.ValueIsPosition | grng/GRandomAlgorithms.cs:17-33 | every enum member's value is its declaration position, and the list of names holds it there |
| GRandomAlgorithms.GetAlgorithmCount | grng/GRandomAlgorithms.cs:35 | the count of enum names is 14 and exceeds every member's value |
| GRandomAlgorithms.SelectAlgorithm | grng/GRandomAlgorithms.cs:39-107 | every value 0..13 selects its own algorithm, and every other value falls to the default, AdaptedLehmer32 |
| GRandomAlgorithms.SelectByName | grng/GRandomAlgorithms.cs:39-107 | selecting by a member's value yields the algorithm that member names |
| GRandomAlgorithms.Xorshift256Result | grng/GRandomAlgorithms.cs:118-139 | xorshift256 depends on the seed only through xorshift32: it is `r ^ XnTohl(r)` with `r = rol64(xorshift32(s) * 5, 7) * 9`; the `randA`..`randD` updates never reach it |
| GRandomAlgorithms.Rol64RotatesNonNegative | grng/GRandomAlgorithms.cs:143-146 | for a non-negative x, `rol64(x, 7)` is the 32-bit left rotation by 7 |
| GRandomAlgorithms.Rol64NotRotation | grng/GRandomAlgorithms.cs:143-146 | for `x = int.MinValue` it is not: the sign copies from `>> 25` overwrite the rotated bits |
| GRandomAlgorithms.XnTohl | grng/GRandomAlgorithms.cs:150-154 | byte i of the result is byte 3 - i of the argument: it is the byte reversal, because the last term is a long and shifts in no sign bits |
| GRandomAlgorithms.XnTohlInvolution | grng/GRandomAlgorithms.cs:150-154 | `XnTohl(XnTohl(x)) == x` for every int x |
| GRandomAlgorithms.Xorshift64starScalesXorshift64 | grng/GRandomAlgorithms.cs:163-170 | xorshift64star is the low 32 bits of the long product of xorshift64(seed) and 0x2545F4914F6CDD1D |
| GRandomAlgorithms.SeededShiftsDiffer | grng/GRandomAlgorithms.cs:179-236 | applying each shift to the original seed changes the result: on seed 1 xorshift32 gives 0x42021 but xorseededshift32 0x2021, and xorshift64 gives 0x40822041 but xorseededshift64 0x22001 |
| GRandomAlgorithms.Reverse17 | grng/GRandomAlgorithms.cs:245-249 | the result is never negative |
| GRandomAlgorithms.Reverse23 | grng/GRandomAlgorithms.cs:258-262 | the result is never negative |
| GRandomAlgorithms.ReverseShiftCounts | grng/GRandomAlgorithms.cs:245-262 | the counts 34, 51 and 46 act as 2, 19 and 14 |
| GRandomAlgorithms.Lehmer64KeepsLowProduct | grng/GRandomAlgorithms.cs:290-294 | `>> 64` on a ulong shifts by 0, so Lehmer64 is the low 32 bits of `(ulong)s * 0xda942042e4dd58b5` |
| GRandomAlgorithms.ShiftMixersFixZero | grng/GRandomAlgorithms.cs:179-219 | xorshift32 and xorshift64 map 0 to 0 |
| GRandomAlgorithms.SeededMixersFixZero | grng/GRandomAlgorithms.cs:195-236 | the seeded variants map 0 to 0 |
| GRandomAlgorithms.Xorshift7FixesZero | grng/GRandomAlgorithms.cs:110-116 | xorshift7 maps 0 to 0 |
| GRandomAlgorithms.ReverseMixersFixZero | grng/GRandomAlgorithms.cs:245-281 | reverse17, reverse23 and xorshift128 map 0 to 0 |
| GRandomAlgorithms.ByteSwapFixesZero | grng/GRandomAlgorithms.cs:118-154 | XnTohl and xorshift256 map 0 to 0 |
| GRandomAlgorithms.ProductMixersFixZero | grng/GRandomAlgorithms.cs:290-294 | Lehmer64 and xorshift64star map 0 to 0 |
| GRandomAlgorithms.OffsetMixersMoveZero | grng/GRandomAlgorithms.cs:303-330 | AdaptedLehmer32 and wyhash add a constant first, so they map 0 to nonzero values (0x53AFFE38 and 0xD86D2F16) |
| GRandomAlgorithms.AdaptedLehmer32Zero | grng/GRandomAlgorithms.cs:305-311 | the wrapping `value += Int32.MaxValue` sends -int.MaxValue to 0, and from there the result is 0 |
| GRandomAlgorithms.NonzeroSeedsGiveZero | grng/GRandomAlgorithms.cs:179-281 | a named nonzero seed maps to 0 under each of xorshift32, xorshift64, xorseededshift32, reverse17, reverse23 and xorshift128; together with the zero lemmas, none of them is one-to-one |
| VoronoiOracle.Half | Program.cs:525 | `maxActiveCount / 2` truncates toward zero: for m >= 0, `2q <= m <= 2q + 1` |
| Grid.OffsetsAreUnit | Program.cs:24-52 | each offset moves at most one row and one column, and none is (0, 0) |
| Grid.Directions2DDistinct | Program.cs:24-52 | the eight offsets are pairwise different |
| Grid.Directions2DIsMooreNeighbourhood | Program.cs:24-52 | an offset is in Directions2D exactly when it is a nonzero step in {-1,0,1}², each listed once |
| Grid.Board.Set | Program.cs:485-486 | a paired glyph and colour write changes cell (y, x) to the given values and no other cell |
| Grid.ActiveAmong | Program.cs:469-475 | the count over the first n directions is at most n |
| Grid.NeighbourAtInjective | Program.cs:471 | two different directions read two different cells |
| Grid.ActiveNeighboursStep | Program.cs:469-475 | one more direction adds its cell to the set of Active neighbours when it is Active, and the cell was not already in it |
| Grid.NeighborCountCountsActiveNeighbours | Program.cs:469-475 | the count equals the number of distinct Active cells among the eight neighbours |
| Grid.NextCell | Program.cs:479-502 | the result is always a game glyph; the cell is counted exactly when it is a game cell with `count == neighborsToBeActive`; it is Active exactly when counted, or when it was Active with `1 < count < neighborsToBeActive`; a counted cell takes activeColor, a surviving one keeps its colour; an Inactive result keeps the colour only for an Inactive cell with a count in that range, and otherwise takes savedColor, which is also what any non-game glyph becomes |
| Grid.NextCellIsConwaysLife | Program.cs:479-502 | with `neighborsToBeActive = 3`, a game cell is Active after the rule exactly when it has 3 Active neighbours, or it was Active and has 2 (B3/S23) |
| Grid.WriteCell | Program.cs:485-486 | the two array writes keep the arrays equal to the board with that cell set |
| Seeding.BlankBoard | Program.cs:361-386 | the blank board is h by w |
| Seeding.BlankBoardLayout | Program.cs:361-386 | top and bottom rows hold edge glyphs with the four corners; the side columns of the middle rows are unset; the interior is Inactive; every colour is the default |
| Seeding.BlankGameCellsAreInterior | Program.cs:366-385 | a blank cell is Active or Inactive exactly when it is in the interior, and none is Active |
| Seeding.BlankMapInit | Program.cs:361-386 | allocates two fresh h by w arrays holding the blank board |
| Seeding.FrameRow | Program.cs:368-379 | the inner loop writes row y's frame glyphs and default colours, and leaves every other row alone |
| Seeding.NoiseBoard | Program.cs:398-409 | the noise pass keeps the board's dimensions |
| Seeding.NoisePassActivatesMaskedCells | Program.cs:398-409 | after the noise pass a cell is Active exactly when it lies in `4 <= y < h-3, 4 <= x < w-3` with its mask bit set; every other cell keeps its glyph and colour |
| Seeding.NoisePass | Program.cs:398-409 | the nested loops leave the arrays holding the noise-pass board |
| Seeding.NoiseRow | Program.cs:400-408 | the inner loop activates row y's masked region cells and changes nothing else |
| Seeding.FanOut | Program.cs:419-435 | a blob activates at most one cell per direction, only cells inside the grid, and takes at most one BoolValue draw each |
| Seeding.Round | Program.cs:413-435 | one pass of the seed loop activates between 1 and 9 cells and takes at least two draws |
| Seeding.RoundInBand | Program.cs:413-431 | on a grid at least 8 by 8, every cell a pass activates lies in rows and columns 3..h-3 / 3..w-3 |
| Seeding.SeedLoop | Program.cs:411-438 | with a budget >= 0 the loop runs between 1 and budget + 1 passes and ends with the budget in [-9, 0); with a negative budget it does nothing; the final budget is the initial budget minus the activations |
| Seeding.FanOutNeighbours | Program.cs:419-431 | every cell of a blob is a neighbour of its centre |
| Seeding.FanStaysInBand | Program.cs:413-431 | a blob around a centre drawn from `[4, h-3) × [4, w-3)` lies in rows 3..h-3 and columns 3..w-3 |
| Seeding.SeedLoopAvoidsFrame | Program.cs:411-438 | no seed-loop write lands on the frame rows or columns |
| Seeding.Paint | Program.cs:415-428 | painting keeps the board's dimensions |
| Seeding.InitialBoard | Program.cs:390-442 | the starting grid is h by w |
| Seeding.InitialBoardKeepsFrame | Program.cs:390-442 | every frame cell of the starting grid holds its blank glyph (never Active) in the default colour |
| Seeding.InitialBoardOnlyActivates | Program.cs:390-442 | every cell of the starting grid either holds its blank glyph and colour or is Active in activeColor, and every cell the seed loop drew is Active |
| Seeding.InitializeConwaysGameMaps | Program.cs:390-442 | the new arrays hold the starting grid, and the returned cursor is where the seed loop stopped drawing |
| Seeding.SeedPass | Program.cs:411-438 | the while loop paints exactly the cells the seed loop draws, and stops at its cursor |
| Seeding.SeedRound | Program.cs:413-435 | one pass draws the centre's column, then its row, activates it and fans out, as Round says |
| Seeding.SeedBlob | Program.cs:419-435 | the foreach loop consumes the draws, lowers the budget and paints the cells that FanOut says |
| Seeding.Activate | Program.cs:415-416 | one activation adds its cell to the painted cells |
| Culling.CullDraw | Program.cs:528-529 | a drawn cell lies in rows `[0, h-2)` and columns `[0, w-2)` |
| Culling.KillLoop | Program.cs:526-537 | the total drops by one per kill; a finished cull ends at `killCount`, or at once when the total is already at most `killCount`; an unfinished one is still above it |
| Culling.KillLoopStep | Program.cs:528-536 | one pass either kills the drawn Active cell and goes on from the new board with total - 1, or wastes the draw and goes on from the same board |
| Culling.Kill | Program.cs:520-539 | a total at most maxActiveCount leaves everything untouched; the total is the old one minus the kills; when the total is above the cap and `maxActiveCount >= 1`, the total ends at least `maxActiveCount / 2` and, when the cull finishes, below maxActiveCount |
| Culling.KillLoopEffect | Program.cs:526-537 | every killed cell was Active in the block and is now Inactive in savedColor; no cell is killed twice; every other cell is kept |
| Culling.KillLoopKillEffect | Program.cs:531-536 | the same, when the first draw hits an Active cell |
| Culling.KillLoopMissEffect | Program.cs:528-531 | the same, when the first draw is wasted |
| Culling.KillStep | Program.cs:531-536 | a kill followed by a cull with that effect has that effect with the kill prepended |
| Culling.KillEffect | Program.cs:520-539 | the whole cull turns only Active cells of the block Inactive in savedColor, each at most once, and keeps every other cell |
| Culling.KillRandomUntilCountMet | Program.cs:520-539 | the arrays, the total and the cursor end as Kill says |
| Culling.CullLoop | Program.cs:526-537 | the while loop ends as KillLoop says |
| Culling.CullStep | Program.cs:528-536 | one pass kills the drawn cell and lowers the total exactly when that cell is Active; otherwise nothing changes |
| Sweeping.Visit | Program.cs:456-502 | a visit keeps the board's shape, and keeps a total in `[0, max + 1]` there |
| Sweeping.Rule | Program.cs:479-502 | the rule always writes a game cell |
| Sweeping.SweepRow | Program.cs:454-507 | a row pass keeps the board's shape and the total bound |
| Sweeping.VisitFrom | Program.cs:454-507 | the same from one visit on |
| Sweeping.SweepRows | Program.cs:452-508 | the outer loop keeps the board's shape and the total bound |
| Sweeping.Iteration | Program.cs:447-516 | when `maxActiveCount >= 1`, a generation ends with its total in `[0, maxActiveCount + 1]` |
| Sweeping.CellEvolvesTransitive | Program.cs:447-516 | the per-cell sweep constraint composes |
| Sweeping.VisitEvolves | Program.cs:456-502 | after one visit every game cell is still a game cell; a cell outside the visited rectangle is kept or killed (Active to Inactive in savedColor); the last two rows and columns are kept; and a finished visit leaves its own cell a game cell |
| Sweeping.SweepRowEvolves | Program.cs:454-507 | a row pass from column x keeps game cells game cells, keeps or kills each cell outside the visited rectangle, keeps the last two rows and columns, and, when it finishes, leaves every cell of the row from column x to w-3 Active or Inactive |
| Sweeping.VisitFromEvolves | Program.cs:454-507 | the same, from a visit on |
| Sweeping.SweepRowsEvolves | Program.cs:452-508 | the same for the outer loop from row y; when it finishes, every visited cell from row y on is Active or Inactive |
| Sweeping.IterationEvolves | Program.cs:447-516 | a generation never changes the last two rows and columns, only keeps or kills each other cell outside the visited rectangle, keeps game cells game cells, and, when it finishes, leaves every visited cell Active or Inactive |
| Sweeping.VisitCanPassCap | Program.cs:456-502 | the cap is checked before each cell: a visit that starts with the total at maxActiveCount runs no cull, and when the rule activates its cell the total ends at maxActiveCount + 1 |
| Sweeping.SettledVisit | Program.cs:456-502 | on a board the rule leaves as it is, a visit below the cap runs no cull, changes nothing and counts nothing |
| Sweeping.SettledSweepRow | Program.cs:454-507 | the same for a row pass from column x |
| Sweeping.SettledVisitFrom | Program.cs:454-507 | the same from a visit on |
| Sweeping.SettledSweepRows | Program.cs:452-508 | the same for the outer loop from row y |
| Sweeping.SettledGenerations | Program.cs:566-592 | any number of generations of such a board end with a total of 0, take no draw and change no cell, however many cells are Active |
| Sweeping.HiveOutgrowsCap | Program.cs:447-516 | with maxActiveCount 1 and neighborsToBeActive 3, the 12 by 12 grid InitializeConwaysGameMaps builds from a beehive mask and liveCount -1 (no seed blob) holds exactly the six beehive cells Active, and any number of generations leave it unchanged with a total of 0 |
| Sweeping.IterationKeepsFrame | Program.cs:447-516 | a generation on a board whose frame holds no Active cell keeps every frame cell's glyph and colour, so the frame still holds no Active cell |
| Sweeping.Generations | Program.cs:566-592 | n generations in a row keep the board's shape and only move the draw cursor forward |
| Sweeping.GenerationsKeepFrame | Program.cs:566-592 | any number of generations keep every frame cell of such a board |
| Sweeping.GameKeepsFrame | Program.cs:556-592 | on the grid InitializeConwaysGameMaps builds with savedColor as its default (as RunConwaysGame calls it), any number of generations leave every frame cell with its blank glyph in savedColor |
| Sweeping.VisitAppliesRule | Program.cs:469-502 | a finished visit makes the cell Active exactly when it is a game cell with `neighborsToBeActive` distinct Active neighbours, or was Active with between 2 and `neighborsToBeActive - 1`; the total rises by one exactly in the first case |
| Sweeping.CountActiveNeighbors | Program.cs:469-475 | the foreach loop returns the number of distinct Active neighbours |
| Sweeping.RunConwaysIteration | Program.cs:447-516 | the arrays, the total and the cursor end as Iteration says |
| Sweeping.RowPass | Program.cs:454-507 | the inner loop ends as SweepRow says |
| Sweeping.VisitCell | Program.cs:456-502 | the loop body ends as Visit says |
| Sweeping.ApplyRule | Program.cs:469-502 | the count and the if-chain write the rule's glyph and colour to cell (y, x), and count the cell exactly when the rule activates it |

## Left out

- The noise sampler (`VoronoiNoise`): its source is not part of this model.
  - `Range` and `BoolValue` are the `Noise` oracle. They are read from one cursor in
    the order the code calls them.
  - The half-open bound of `Range` is the assumption `RangeIsHalfOpen`.
  - `SampleNoiseMap`, the octaves and the float threshold `valueForActive` are the
    boolean `mask`.
  - Whether `SampleNoiseMap` itself takes draws is covered by the cursor parameter.
- Floating point: the noise values are reduced to the mask.
- The generic `Convert.ToInt32(seed)` of each mixer: the model takes the `int` directly.
  The conversions from other types (rounding, overflow exceptions) are not modelled.
- Console I/O:
  - `Main`, the menu and `EnterSettings` (Program.cs:71-357) are left out.
  - Line 256 declares a local `neighborsToBeActive`, so the setting never reaches the
    static, which stays 3. The model takes it as a parameter, and
    `NextCellIsConwaysLife` states the rule for 3.
  - The cursor, colour and write calls and `Thread.Sleep` inside the sweep
    (Program.cs:504-515) are left out.
- The statics: `maxActiveCount`, `neighborsToBeActive`, `width` and `height` are
  parameters.
- Concurrency:
  - `RunConwaysGame`, `RunConwaysThreads` and `RunningInputListener` busy-wait on the
    unsynchronised `currentInput`. These are threads, not modelled.
  - `Sweeping.Generations` models only the repeated `RunConwaysIteration` of the game
    loop (Program.cs:566-592), without the input checks and the `p` restart.
- The commented-out overloads in grng/GRandomAlgorithms.cs, `mountainString` and
  `AllActivePositions`: dead code.
- Statistical quality of the generators: not a stateable property.
- 32-bit overflow of the counters `totalActiveCount` and `liveCount`: modelled as
  unbounded integers, because neither can overflow.
  - `totalActiveCount` starts each generation at 0 and rises by at most one per
    visited cell, so it stays below the grid's cell count.
  - `liveCount` may be any int. The seed loop only lowers it, by at most nine per
    pass, and stops once it is negative, so it never goes below -9 (`SeedLoop`).
- Culling.KillRandomUntilCountMet: whether the cull loop ends depends on the draws.
  - It is given `fuel`, a number of cell draws.
  - When the fuel runs out it reports `done == false` where the source would keep
    drawing.
  - The sweep then stops too.
  - Its contract says nothing about termination.
- Sweeping.RunConwaysIteration: its result depends on the cull's fuel in the same way.
  `done == false` marks a generation cut short by an unfinished cull.
- Seeding.BlankMapInit:
  - It requires `height, width >= 1`.
  - On an empty grid the corner writes throw `IndexOutOfRangeException`, which the
    model does not represent.
- Seeding.InitializeConwaysGameMaps:
  - When `liveCount >= 0`, it requires a grid of at least 8 by 8.
  - On a smaller grid, `Range(4, w - 3)` is asked for an empty span, and the sampler's
    answer is unknown.
- Culling.Kill: it is used only on boards at least 3 by 3, since `Range(0, w - 2)` needs
  `w > 2`. Every visited cell implies this.
- The order of the seed loop's writes: every write stores the same glyph and colour,
  so the model records the set of cells painted, not the sequence of writes.
