/**
 * One generation, RunConwaysIteration (Program.cs:447-516): the cells with
 * 1 <= y < h - 2 and 1 <= x < w - 2 are visited in row-major order and updated in
 * place, so a cell's count sees the new state of the neighbours visited before it.
 * Before each cell, a running total above maxActiveCount triggers the cull. The total
 * starts at 0 and counts the cells the rule activates in this sweep.
 *
 * The sweep's outcome is a `Sweep`; `done == false` means that a cull ran out of fuel,
 * where the source would still be looping, and the sweep stops there.
 */
module Sweeping {
  import opened Grid
  import opened VoronoiOracle
  import opened Culling
  import opened Seeding

  /** The two statics the sweep reads, and the two colours it is given. */
  datatype Settings = Settings(maxActiveCount: int, neighborsToBeActive: int, savedColor: ConsoleColor, activeColor: ConsoleColor)

  /** The board, the running total and the draw cursor after a sweep, and whether it finished. */
  datatype Sweep = Sweep(board: Board, total: int, next: nat, done: bool)

  /** The cells the sweep visits (lines 452-454): rows [1, h - 2), columns [1, w - 2). */
  predicate InSweep(b: Board, y: int, x: int)
  {
    1 <= y < b.height - 2 && 1 <= x < b.width - 2
  }

  /**
   * The body of the inner loop for cell (y, x), from draw k: the cull when the total is
   * above the cap, the count of Active neighbours on the board the cull left, and the rule.
   */
  function Visit(s: Settings, b: Board, total: int, y: int, x: int, noise: Noise, k: nat, fuel: nat): (r: Sweep)
    requires RangeIsHalfOpen(noise) && b.Valid() && InSweep(b, y, x)
    ensures r.board.Valid() && r.board.height == b.height && r.board.width == b.width && k <= r.next
    ensures s.maxActiveCount >= 1 && 0 <= total <= s.maxActiveCount + 1 ==> 0 <= r.total <= s.maxActiveCount + 1
  {
    var c := Kill(b, total, s.maxActiveCount, s.savedColor, noise, k, fuel);
    if !c.done then Sweep(c.board, c.total, c.next, false)
    else
      var u := Rule(s, c.board, y, x);
      Sweep(c.board.Set(y, x, u.glyph, u.color), if u.activated then c.total + 1 else c.total, c.next, true)
  }

  /** The rule at cell (y, x) of b, with its count of Active neighbours. */
  function Rule(s: Settings, b: Board, y: int, x: int): (u: Update)
    requires b.Valid() && InSweep(b, y, x)
    ensures IsLifeGlyph(u.glyph)
  {
    NextCell(b.glyphs[y][x], b.colors[y][x], NeighborCount(b, y, x), s.neighborsToBeActive, s.savedColor, s.activeColor)
  }

  /** The inner for loop (line 454) from column x. */
  function SweepRow(s: Settings, b: Board, total: int, y: int, x: int, noise: Noise, k: nat, fuel: nat): (r: Sweep)
    requires RangeIsHalfOpen(noise) && b.Valid() && 1 <= y < b.height - 2 && 1 <= x
    ensures r.board.Valid() && r.board.height == b.height && r.board.width == b.width && k <= r.next
    ensures s.maxActiveCount >= 1 && 0 <= total <= s.maxActiveCount + 1 ==> 0 <= r.total <= s.maxActiveCount + 1
    decreases b.width - x, 1
  {
    if x >= b.width - 2 then Sweep(b, total, k, true) else VisitFrom(s, b, total, y, x, noise, k, fuel)
  }

  /** One pass of the inner loop's body at column x, then the rest of the row. */
  function VisitFrom(s: Settings, b: Board, total: int, y: int, x: int, noise: Noise, k: nat, fuel: nat): (r: Sweep)
    requires RangeIsHalfOpen(noise) && b.Valid() && InSweep(b, y, x)
    ensures r.board.Valid() && r.board.height == b.height && r.board.width == b.width && k <= r.next
    ensures s.maxActiveCount >= 1 && 0 <= total <= s.maxActiveCount + 1 ==> 0 <= r.total <= s.maxActiveCount + 1
    decreases b.width - x, 0
  {
    var v := Visit(s, b, total, y, x, noise, k, fuel);
    if !v.done then v else SweepRow(s, v.board, v.total, y, x + 1, noise, v.next, fuel)
  }

  /** The outer for loop (line 452) from row y. */
  function SweepRows(s: Settings, b: Board, total: int, y: int, noise: Noise, k: nat, fuel: nat): (r: Sweep)
    requires RangeIsHalfOpen(noise) && b.Valid() && 1 <= y
    ensures r.board.Valid() && r.board.height == b.height && r.board.width == b.width && k <= r.next
    ensures s.maxActiveCount >= 1 && 0 <= total <= s.maxActiveCount + 1 ==> 0 <= r.total <= s.maxActiveCount + 1
    decreases b.height - y
  {
    if y >= b.height - 2 then Sweep(b, total, k, true)
    else
      var r := SweepRow(s, b, total, y, 1, noise, k, fuel);
      if !r.done then r else SweepRows(s, r.board, r.total, y + 1, noise, r.next, fuel)
  }

  /** A whole generation from draw k: the total starts at 0. */
  function Iteration(s: Settings, b: Board, noise: Noise, k: nat, fuel: nat): (r: Sweep)
    requires RangeIsHalfOpen(noise) && b.Valid()
    ensures r.board.Valid() && r.board.height == b.height && r.board.width == b.width && k <= r.next
    ensures s.maxActiveCount >= 1 ==> 0 <= r.total <= s.maxActiveCount + 1
  {
    SweepRows(s, b, 0, 1, noise, k, fuel)
  }

  // ---------------------------------------------------------------------------
  // What a sweep may change

  /** Cell (y, x) holds the same glyph and colour on both boards. */
  predicate Kept(before: Board, after: Board, y: int, x: int)
    requires before.Valid() && after.Valid() && after.height == before.height && after.width == before.width
    requires before.Contains(y, x)
  {
    after.glyphs[y][x] == before.glyphs[y][x] && after.colors[y][x] == before.colors[y][x]
  }

  /** Cell (y, x) was Active and is now Inactive in savedColor: what the cull does. */
  predicate Killed(before: Board, after: Board, y: int, x: int, savedColor: ConsoleColor)
    requires before.Valid() && after.Valid() && after.height == before.height && after.width == before.width
    requires before.Contains(y, x)
  {
    before.glyphs[y][x] == Active && after.glyphs[y][x] == Inactive && after.colors[y][x] == savedColor
  }

  /** Two valid boards of the same dimensions. */
  predicate SameShape(before: Board, after: Board)
  {
    before.Valid() && after.Valid() && after.height == before.height && after.width == before.width
  }

  /**
   * What any part of a sweep does to cell (y, x): a game cell stays a game cell; a
   * cell outside the visited rectangle is kept or killed; a cell of the last two rows
   * or columns, which neither the sweep nor the cull reaches, is kept.
   */
  ghost predicate CellEvolves(before: Board, after: Board, savedColor: ConsoleColor, y: int, x: int)
  {
    SameShape(before, after) && before.Contains(y, x) &&
    (IsLifeGlyph(before.glyphs[y][x]) ==> IsLifeGlyph(after.glyphs[y][x])) &&
    (!InSweep(before, y, x) ==> Kept(before, after, y, x) || Killed(before, after, y, x, savedColor)) &&
    (y >= before.height - 2 || x >= before.width - 2 ==> Kept(before, after, y, x))
  }

  /** The same for every cell of the board. */
  ghost predicate Evolves(before: Board, after: Board, savedColor: ConsoleColor)
  {
    SameShape(before, after) &&
    forall y, x :: before.Contains(y, x) ==> CellEvolves(before, after, savedColor, y, x)
  }

  lemma CellEvolvesTransitive(a: Board, b: Board, c: Board, savedColor: ConsoleColor, y: int, x: int)
    requires CellEvolves(a, b, savedColor, y, x) && CellEvolves(b, c, savedColor, y, x)
    ensures CellEvolves(a, c, savedColor, y, x)
  {
  }

  /** One visit changes the visited cell, to a game cell, and otherwise only kills. */
  lemma VisitEvolves(s: Settings, b: Board, total: int, y: int, x: int, noise: Noise, k: nat, fuel: nat, i: int, j: int)
    requires RangeIsHalfOpen(noise) && b.Valid() && InSweep(b, y, x) && b.Contains(i, j)
    ensures var r := Visit(s, b, total, y, x, noise, k, fuel);
      CellEvolves(b, r.board, s.savedColor, i, j) && (r.done && i == y && j == x ==> IsLifeGlyph(r.board.glyphs[i][j]))
  {
    var c := Kill(b, total, s.maxActiveCount, s.savedColor, noise, k, fuel);
    KillEffect(b, total, s.maxActiveCount, s.savedColor, noise, k, fuel);
    if Pos(i, j) in c.killed {
      assert InCullBlock(b, Pos(i, j));
    }
    assert CellEvolves(b, c.board, s.savedColor, i, j);
    if c.done {
      var u := Rule(s, c.board, y, x);
      var after := c.board.Set(y, x, u.glyph, u.color);
      assert CellEvolves(c.board, after, s.savedColor, i, j);
      CellEvolvesTransitive(b, c.board, after, s.savedColor, i, j);
    }
  }

  /**
   * A row pass from column x does to cell (i, j) what a sweep may, and when it
   * finishes, a cell of the row it visited is a game cell.
   */
  lemma {:induction false} SweepRowEvolves(s: Settings, b: Board, total: int, y: int, x: int, noise: Noise, k: nat, fuel: nat,
                                          i: int, j: int, r: Sweep)
    requires RangeIsHalfOpen(noise) && b.Valid() && 1 <= y < b.height - 2 && 1 <= x && b.Contains(i, j)
    requires r == SweepRow(s, b, total, y, x, noise, k, fuel)
    ensures CellEvolves(b, r.board, s.savedColor, i, j)
    ensures r.done && i == y && x <= j < b.width - 2 ==> IsLifeGlyph(r.board.glyphs[i][j])
    decreases b.width - x, 1
  {
    if x < b.width - 2 {
      VisitFromEvolves(s, b, total, y, x, noise, k, fuel, i, j, r);
    }
  }

  /** The same, from a visit of cell (y, x). */
  lemma {:induction false} VisitFromEvolves(s: Settings, b: Board, total: int, y: int, x: int, noise: Noise, k: nat, fuel: nat,
                                           i: int, j: int, r: Sweep)
    requires RangeIsHalfOpen(noise) && b.Valid() && InSweep(b, y, x) && b.Contains(i, j)
    requires r == VisitFrom(s, b, total, y, x, noise, k, fuel)
    ensures CellEvolves(b, r.board, s.savedColor, i, j)
    ensures r.done && i == y && x <= j < b.width - 2 ==> IsLifeGlyph(r.board.glyphs[i][j])
    decreases b.width - x, 0
  {
    var v := Visit(s, b, total, y, x, noise, k, fuel);
    VisitEvolves(s, b, total, y, x, noise, k, fuel, i, j);
    if v.done {
      SweepRowEvolves(s, v.board, v.total, y, x + 1, noise, v.next, fuel, i, j, r);
    }
  }

  /**
   * The outer loop from row y does to cell (i, j) what a sweep may, and when it
   * finishes, a cell it visited is a game cell.
   */
  lemma {:induction false} SweepRowsEvolves(s: Settings, b: Board, total: int, y: int, noise: Noise, k: nat, fuel: nat,
                                           i: int, j: int, r: Sweep)
    requires RangeIsHalfOpen(noise) && b.Valid() && 1 <= y && b.Contains(i, j)
    requires r == SweepRows(s, b, total, y, noise, k, fuel)
    ensures CellEvolves(b, r.board, s.savedColor, i, j)
    ensures r.done && y <= i < b.height - 2 && 1 <= j < b.width - 2 ==> IsLifeGlyph(r.board.glyphs[i][j])
    decreases b.height - y
  {
    if y < b.height - 2 {
      var v := SweepRow(s, b, total, y, 1, noise, k, fuel);
      SweepRowEvolves(s, b, total, y, 1, noise, k, fuel, i, j, v);
      if v.done {
        var r' := SweepRows(s, v.board, v.total, y + 1, noise, v.next, fuel);
        SweepRowsEvolves(s, v.board, v.total, y + 1, noise, v.next, fuel, i, j, r');
      }
    }
  }

  /**
   * A generation never writes the last two rows or columns, only kills outside the
   * visited rectangle, keeps game cells game cells, and when it finishes leaves every
   * visited cell Active or Inactive.
   */
  lemma IterationEvolves(s: Settings, b: Board, noise: Noise, k: nat, fuel: nat)
    requires RangeIsHalfOpen(noise) && b.Valid()
    ensures var r := Iteration(s, b, noise, k, fuel);
      Evolves(b, r.board, s.savedColor) &&
      (r.done ==> forall y, x :: InSweep(b, y, x) ==> IsLifeGlyph(r.board.glyphs[y][x]))
  {
    var r := Iteration(s, b, noise, k, fuel);
    forall y, x | b.Contains(y, x)
      ensures CellEvolves(b, r.board, s.savedColor, y, x) && (r.done && InSweep(b, y, x) ==> IsLifeGlyph(r.board.glyphs[y][x]))
    {
      SweepRowsEvolves(s, b, 0, 1, noise, k, fuel, y, x, r);
    }
  }

  // ---------------------------------------------------------------------------
  // The frame across generations

  /** Cell (y, x) is on the frame: the top or bottom row, or the left or right column. */
  predicate OnFrame(b: Board, y: int, x: int)
  {
    b.Contains(y, x) && (y == 0 || y == b.height - 1 || x == 0 || x == b.width - 1)
  }

  /** No frame cell is Active, so the cull has nothing to kill there. */
  ghost predicate FrameHoldsNoActive(b: Board)
  {
    b.Valid() && forall y, x :: OnFrame(b, y, x) ==> b.glyphs[y][x] != Active
  }

  /**
   * A generation on a board whose frame holds no Active cell keeps every frame cell:
   * the frame is outside the visited rectangle, and the cull kills only Active cells.
   */
  lemma IterationKeepsFrame(s: Settings, b: Board, noise: Noise, k: nat, fuel: nat)
    requires RangeIsHalfOpen(noise) && FrameHoldsNoActive(b)
    ensures var r := Iteration(s, b, noise, k, fuel);
      FrameHoldsNoActive(r.board) &&
      forall y, x :: OnFrame(b, y, x) ==> r.board.glyphs[y][x] == b.glyphs[y][x] && r.board.colors[y][x] == b.colors[y][x]
  {
    var r := Iteration(s, b, noise, k, fuel);
    IterationEvolves(s, b, noise, k, fuel);
    forall y, x | OnFrame(b, y, x)
      ensures r.board.glyphs[y][x] == b.glyphs[y][x] && r.board.colors[y][x] == b.colors[y][x]
    {
      assert CellEvolves(b, r.board, s.savedColor, y, x) && !InSweep(b, y, x);
    }
  }

  /**
   * n generations in a row from draw k, each from the board and cursor the previous one
   * left, as the game loop runs RunConwaysIteration; they stop early if a cull does not
   * finish.
   */
  function Generations(s: Settings, b: Board, noise: Noise, k: nat, fuel: nat, n: nat): (r: Sweep)
    requires RangeIsHalfOpen(noise) && b.Valid()
    ensures r.board.Valid() && r.board.height == b.height && r.board.width == b.width && k <= r.next
    decreases n
  {
    if n == 0 then Sweep(b, 0, k, true)
    else
      var r := Iteration(s, b, noise, k, fuel);
      if !r.done then r else Generations(s, r.board, noise, r.next, fuel, n - 1)
  }

  /** Any number of generations keep the frame of a board whose frame holds no Active cell. */
  lemma {:induction false} GenerationsKeepFrame(s: Settings, b: Board, noise: Noise, k: nat, fuel: nat, n: nat)
    requires RangeIsHalfOpen(noise) && FrameHoldsNoActive(b)
    ensures var r := Generations(s, b, noise, k, fuel, n);
      FrameHoldsNoActive(r.board) &&
      forall y, x :: OnFrame(b, y, x) ==> r.board.glyphs[y][x] == b.glyphs[y][x] && r.board.colors[y][x] == b.colors[y][x]
    decreases n
  {
    if n > 0 {
      var r := Iteration(s, b, noise, k, fuel);
      IterationKeepsFrame(s, b, noise, k, fuel);
      if r.done {
        GenerationsKeepFrame(s, r.board, noise, r.next, fuel, n - 1);
      }
    }
  }

  /**
   * On the board InitializeConwaysGameMaps builds, any number of generations keep the
   * frame BlankMapInit drew, glyph and colour.
   */
  lemma GameKeepsFrame(s: Settings, h: nat, w: nat, liveCount: int, mask: (int, int) -> bool,
                       noise: Noise, k: nat, k': nat, fuel: nat, n: nat, y: int, x: int)
    requires RangeIsHalfOpen(noise) && h >= 1 && w >= 1
    requires liveCount >= 0 ==> h >= 8 && w >= 8
    requires 0 <= y < h && 0 <= x < w && (y == 0 || y == h - 1 || x == 0 || x == w - 1)
    ensures var b := InitialBoard(h, w, liveCount, s.savedColor, s.activeColor, mask, noise, k);
      var r := Generations(s, b, noise, k', fuel, n);
      r.board.glyphs[y][x] == BlankGlyph(h, w, y, x) && r.board.colors[y][x] == s.savedColor
  {
    var b := InitialBoard(h, w, liveCount, s.savedColor, s.activeColor, mask, noise, k);
    forall i, j | OnFrame(b, i, j)
      ensures b.glyphs[i][j] != Active
    {
      InitialBoardKeepsFrame(h, w, liveCount, s.savedColor, s.activeColor, mask, noise, k, i, j);
    }
    InitialBoardKeepsFrame(h, w, liveCount, s.savedColor, s.activeColor, mask, noise, k, y, x);
    GenerationsKeepFrame(s, b, noise, k', fuel, n);
    assert OnFrame(b, y, x);
  }

  // ---------------------------------------------------------------------------
  // What the cap bounds: activations, not the population

  /**
   * The rule leaves every visited cell of b as it is and counts none of them: a still
   * life, as far as the sweep can see.
   */
  ghost predicate Settled(s: Settings, b: Board)
  {
    b.Valid() && forall y, x :: InSweep(b, y, x) ==> Rule(s, b, y, x) == Update(b.glyphs[y][x], b.colors[y][x], false)
  }

  /** A visit of a settled board below the cap runs no cull and changes nothing. */
  lemma SettledVisit(s: Settings, b: Board, total: int, y: int, x: int, noise: Noise, k: nat, fuel: nat)
    requires RangeIsHalfOpen(noise) && Settled(s, b) && InSweep(b, y, x) && total <= s.maxActiveCount
    ensures Visit(s, b, total, y, x, noise, k, fuel) == Sweep(b, total, k, true)
  {
    SetOwnValues(b, y, x);
  }

  /** A row pass over a settled board below the cap changes nothing. */
  lemma {:induction false} SettledSweepRow(s: Settings, b: Board, total: int, y: int, x: int, noise: Noise, k: nat, fuel: nat)
    requires RangeIsHalfOpen(noise) && Settled(s, b) && 1 <= y < b.height - 2 && 1 <= x && total <= s.maxActiveCount
    ensures SweepRow(s, b, total, y, x, noise, k, fuel) == Sweep(b, total, k, true)
    decreases b.width - x, 1
  {
    if x < b.width - 2 {
      SettledVisitFrom(s, b, total, y, x, noise, k, fuel);
    }
  }

  /** The same, from a visit of cell (y, x). */
  lemma {:induction false} SettledVisitFrom(s: Settings, b: Board, total: int, y: int, x: int, noise: Noise, k: nat, fuel: nat)
    requires RangeIsHalfOpen(noise) && Settled(s, b) && InSweep(b, y, x) && total <= s.maxActiveCount
    ensures VisitFrom(s, b, total, y, x, noise, k, fuel) == Sweep(b, total, k, true)
    decreases b.width - x, 0
  {
    SettledVisit(s, b, total, y, x, noise, k, fuel);
    SettledSweepRow(s, b, total, y, x + 1, noise, k, fuel);
  }

  /** The outer loop over a settled board below the cap changes nothing. */
  lemma {:induction false} SettledSweepRows(s: Settings, b: Board, total: int, y: int, noise: Noise, k: nat, fuel: nat)
    requires RangeIsHalfOpen(noise) && Settled(s, b) && 1 <= y && total <= s.maxActiveCount
    ensures SweepRows(s, b, total, y, noise, k, fuel) == Sweep(b, total, k, true)
    decreases b.height - y
  {
    if y < b.height - 2 {
      SettledSweepRow(s, b, total, y, 1, noise, k, fuel);
      SettledSweepRows(s, b, total, y + 1, noise, k, fuel);
    }
  }

  /**
   * Any number of generations of a settled board finish with a total of 0, take no
   * draw and leave the board as it is, however many Active cells it holds: the cap
   * limits the activations a generation counts, not the population.
   */
  lemma {:induction false} SettledGenerations(s: Settings, b: Board, noise: Noise, k: nat, fuel: nat, n: nat)
    requires RangeIsHalfOpen(noise) && Settled(s, b) && s.maxActiveCount >= 0
    ensures Generations(s, b, noise, k, fuel, n) == Sweep(b, 0, k, true)
    decreases n
  {
    if n > 0 {
      SettledSweepRows(s, b, 0, 1, noise, k, fuel);
      SettledGenerations(s, b, noise, k, fuel, n - 1);
    }
  }

  /** A beehive still life of six cells, inside the noise region of a 12 by 12 grid. */
  predicate InHive(p: Pos)
  {
    ((p.y == 4 || p.y == 6) && (p.x == 5 || p.x == 6)) || (p.y == 5 && (p.x == 4 || p.x == 7))
  }

  /** The noise mask, indexed `[x, y]`, that is set exactly on the beehive. */
  function HiveMask(x: int, y: int): bool
  {
    InHive(Pos(y, x))
  }

  function HiveAt(p: Pos): nat
  {
    if InHive(p) then 1 else 0
  }

  /** How many of the first n directions from (y, x) lead to a beehive cell. */
  function HiveAmong(y: int, x: int, n: nat): nat
    requires n <= |Directions2D|
  {
    if n == 0 then 0 else HiveAmong(y, x, n - 1) + HiveAt(NeighbourAt(y, x, n - 1))
  }

  /** On a board whose Active cells are the beehive, the neighbour count is the beehive count. */
  lemma {:induction false} ActiveAmongHive(b: Board, y: int, x: int, n: nat)
    requires HasNeighbours(b, y, x) && n <= |Directions2D|
    requires forall i, j :: b.Contains(i, j) ==> (b.glyphs[i][j] == Active <==> InHive(Pos(i, j)))
    ensures ActiveAmong(b, y, x, n) == HiveAmong(y, x, n)
  {
    if n > 0 {
      ActiveAmongHive(b, y, x, n - 1);
      OffsetsAreUnit(n - 1);
    }
  }

  /** The eight beehive terms of HiveAmong, in the order of Directions2D. */
  function HiveSum(y: int, x: int): nat
  {
    HiveAt(Pos(y, x + 1)) + HiveAt(Pos(y + 1, x)) + HiveAt(Pos(y, x - 1)) + HiveAt(Pos(y - 1, x)) +
    HiveAt(Pos(y + 1, x + 1)) + HiveAt(Pos(y - 1, x - 1)) + HiveAt(Pos(y + 1, x - 1)) + HiveAt(Pos(y - 1, x + 1))
  }

  lemma HiveAmongIsSum(y: int, x: int)
    ensures HiveAmong(y, x, |Directions2D|) == HiveSum(y, x)
  {
    assert HiveAmong(y, x, 8) == HiveAmong(y, x, 7) + HiveAt(Pos(y - 1, x + 1));
    assert HiveAmong(y, x, 7) == HiveAmong(y, x, 6) + HiveAt(Pos(y + 1, x - 1));
    assert HiveAmong(y, x, 6) == HiveAmong(y, x, 5) + HiveAt(Pos(y - 1, x - 1));
    assert HiveAmong(y, x, 5) == HiveAmong(y, x, 4) + HiveAt(Pos(y + 1, x + 1));
    assert HiveAmong(y, x, 4) == HiveAmong(y, x, 3) + HiveAt(Pos(y - 1, x));
    assert HiveAmong(y, x, 3) == HiveAmong(y, x, 2) + HiveAt(Pos(y, x - 1));
    assert HiveAmong(y, x, 2) == HiveAmong(y, x, 1) + HiveAt(Pos(y + 1, x));
    assert HiveAmong(y, x, 1) == HiveAt(Pos(y, x + 1));
  }

  /**
   * The beehive is a still life under B3/S23: each of its cells has two neighbours in
   * it, and no cell anywhere has exactly three.
   */
  lemma HiveIsStill(y: int, x: int)
    ensures HiveAmong(y, x, |Directions2D|) != 3
    ensures InHive(Pos(y, x)) ==> HiveAmong(y, x, |Directions2D|) == 2
  {
    HiveAmongIsSum(y, x);
    HiveSumIsStill(y, x);
  }

  lemma HiveSumIsStill(y: int, x: int)
    ensures HiveSum(y, x) != 3
    ensures InHive(Pos(y, x)) ==> HiveSum(y, x) == 2
  {
    // Only rows 3 to 7 touch the beehive; each is taken on its own.
    if y == 3 {} else if y == 4 {} else if y == 5 {} else if y == 6 {} else if y == 7 {}
  }

  /**
   * With maxActiveCount = 1 and neighborsToBeActive = 3, InitializeConwaysGameMaps with
   * the beehive mask and a negative liveCount builds a grid with six Active cells, and
   * any number of generations leave it so: every generation ends with a total of 0,
   * runs no cull and changes no cell.
   */
  lemma HiveOutgrowsCap(savedColor: ConsoleColor, activeColor: ConsoleColor, noise: Noise, k: nat, k': nat, fuel: nat, n: nat)
    requires RangeIsHalfOpen(noise)
    ensures var b := InitialBoard(12, 12, -1, savedColor, activeColor, HiveMask, noise, k);
      (forall y, x :: b.Contains(y, x) ==> (b.glyphs[y][x] == Active <==> InHive(Pos(y, x)))) &&
      Generations(Settings(1, 3, savedColor, activeColor), b, noise, k', fuel, n) == Sweep(b, 0, k', true)
  {
    var s := Settings(1, 3, savedColor, activeColor);
    var b := InitialBoard(12, 12, -1, savedColor, activeColor, HiveMask, noise, k);
    forall y, x | b.Contains(y, x)
      ensures b.glyphs[y][x] == Active <==> InHive(Pos(y, x))
      ensures !InHive(Pos(y, x)) && InSweep(b, y, x) ==> b.glyphs[y][x] == Inactive && b.colors[y][x] == savedColor
    {
      NoisePassActivatesMaskedCells(12, 12, savedColor, HiveMask, activeColor, y, x);
      BlankGameCellsAreInterior(12, 12, savedColor, y, x);
      InitialBoardOnlyActivates(12, 12, -1, savedColor, activeColor, HiveMask, noise, k, y, x);
    }
    forall y, x | InSweep(b, y, x)
      ensures Rule(s, b, y, x) == Update(b.glyphs[y][x], b.colors[y][x], false)
    {
      ActiveAmongHive(b, y, x, |Directions2D|);
      HiveIsStill(y, x);
    }
    SettledGenerations(s, b, noise, k', fuel, n);
  }

  /**
   * The cap is checked before each cell, not after it: a visit that starts with the
   * total at the cap runs no cull, and when it activates its cell the total ends one
   * above the cap.
   */
  lemma VisitCanPassCap(s: Settings, b: Board, y: int, x: int, noise: Noise, k: nat, fuel: nat)
    requires RangeIsHalfOpen(noise) && b.Valid() && InSweep(b, y, x) && Rule(s, b, y, x).activated
    ensures var u := Rule(s, b, y, x);
      Visit(s, b, s.maxActiveCount, y, x, noise, k, fuel) == Sweep(b.Set(y, x, u.glyph, u.color), s.maxActiveCount + 1, k, true)
  {
  }

  // ---------------------------------------------------------------------------
  // The rule at a visited cell

  /**
   * A finished visit applies the rule to the board the cull left: the cell becomes
   * Active exactly when it is a game cell with neighborsToBeActive distinct Active
   * neighbours, or was Active with a count strictly between 1 and neighborsToBeActive;
   * the total rises by one exactly when the count is met on a game cell.
   */
  lemma VisitAppliesRule(s: Settings, b: Board, total: int, y: int, x: int, noise: Noise, k: nat, fuel: nat)
    requires RangeIsHalfOpen(noise) && b.Valid() && InSweep(b, y, x)
    ensures var c := Kill(b, total, s.maxActiveCount, s.savedColor, noise, k, fuel);
      var r := Visit(s, b, total, y, x, noise, k, fuel);
      var g := c.board.glyphs[y][x];
      var n := |ActiveNeighbours(c.board, y, x, |Directions2D|)|;
      r.done ==>
        (r.board.glyphs[y][x] == Active <==>
          (IsLifeGlyph(g) && n == s.neighborsToBeActive) || (g == Active && 1 < n < s.neighborsToBeActive)) &&
        r.total == (if IsLifeGlyph(g) && n == s.neighborsToBeActive then c.total + 1 else c.total)
  {
    var c := Kill(b, total, s.maxActiveCount, s.savedColor, noise, k, fuel);
    NeighborCountCountsActiveNeighbours(c.board, y, x, |Directions2D|);
  }

  // ---------------------------------------------------------------------------
  // The arrays

  /** The count of lines 469-475: the Active cells among the eight neighbours of (y, x). */
  method CountActiveNeighbors(activeMap: array2<Glyph>, ghost b: Board, y: int, x: int) returns (count: nat)
    requires GlyphsMirror(activeMap, b) && HasNeighbours(b, y, x)
    ensures count == NeighborCount(b, y, x) == |ActiveNeighbours(b, y, x, |Directions2D|)|
  {
    count := 0;
    for i := 0 to |Directions2D|
      invariant count == ActiveAmong(b, y, x, i)
    {
      OffsetsAreUnit(i);
      var p := NeighbourAt(y, x, i);
      if activeMap[p.y, p.x] == Active {
        count := count + 1;
      }
    }
    NeighborCountCountsActiveNeighbours(b, y, x, |Directions2D|);
  }

  /**
   * RunConwaysIteration (Program.cs:447-516) on arrays that hold the board b, from draw
   * cursor; the statics maxActiveCount and neighborsToBeActive are parameters. It does
   * what Iteration says, and returns the running total, the cursor and whether every
   * cull finished.
   */
  method RunConwaysIteration(activeMap: array2<Glyph>, activeColors: array2<ConsoleColor>, ghost b: Board,
                             savedColor: ConsoleColor, activeColor: ConsoleColor,
                             maxActiveCount: int, neighborsToBeActive: int, noise: Noise, cursor: nat, fuel: nat)
    returns (totalActiveCount: int, next: nat, done: bool)
    requires RangeIsHalfOpen(noise) && Mirrors(activeMap, activeColors, b)
    modifies activeMap, activeColors
    ensures var r := Iteration(Settings(maxActiveCount, neighborsToBeActive, savedColor, activeColor), b, noise, cursor, fuel);
      Mirrors(activeMap, activeColors, r.board) && totalActiveCount == r.total && next == r.next && done == r.done
  {
    var s := Settings(maxActiveCount, neighborsToBeActive, savedColor, activeColor);
    ghost var whole := Iteration(s, b, noise, cursor, fuel);
    ghost var board := b;
    totalActiveCount, next, done := 0, cursor, true;
    var y := 1;
    while y < activeMap.Length0 - 2
      invariant 1 <= y
      invariant board.Valid() && board.height == b.height && board.width == b.width
      invariant Mirrors(activeMap, activeColors, board)
      invariant SweepRows(s, board, totalActiveCount, y, noise, next, fuel) == whole
      decreases activeMap.Length0 - y
    {
      totalActiveCount, next, done, board := RowPass(activeMap, activeColors, board, s, totalActiveCount, y, noise, next, fuel);
      if !done {
        return;
      }
      y := y + 1;
    }
  }

  /** The inner for loop (lines 454-507) for row y, on arrays that hold the board b. It does what SweepRow says. */
  method RowPass(activeMap: array2<Glyph>, activeColors: array2<ConsoleColor>, ghost b: Board, s: Settings,
                 totalActiveCount: int, y: int, noise: Noise, cursor: nat, fuel: nat)
    returns (total: int, next: nat, done: bool, ghost after: Board)
    requires RangeIsHalfOpen(noise) && Mirrors(activeMap, activeColors, b) && 1 <= y < b.height - 2
    modifies activeMap, activeColors
    ensures SweepRow(s, b, totalActiveCount, y, 1, noise, cursor, fuel) == Sweep(after, total, next, done)
    ensures Mirrors(activeMap, activeColors, after)
  {
    ghost var whole := SweepRow(s, b, totalActiveCount, y, 1, noise, cursor, fuel);
    total, next, done, after := totalActiveCount, cursor, true, b;
    var x := 1;
    while x < activeMap.Length1 - 2
      invariant 1 <= x
      invariant after.Valid() && after.height == b.height && after.width == b.width
      invariant Mirrors(activeMap, activeColors, after)
      invariant SweepRow(s, after, total, y, x, noise, next, fuel) == whole
      decreases activeMap.Length1 - x
    {
      total, next, done, after := VisitCell(activeMap, activeColors, after, s, total, y, x, noise, next, fuel);
      if !done {
        return;
      }
      x := x + 1;
    }
  }

  /** The body of the inner loop (lines 456-502) for cell (y, x). It does what Visit says. */
  method VisitCell(activeMap: array2<Glyph>, activeColors: array2<ConsoleColor>, ghost b: Board, s: Settings,
                   totalActiveCount: int, y: int, x: int, noise: Noise, cursor: nat, fuel: nat)
    returns (total: int, next: nat, done: bool, ghost after: Board)
    requires RangeIsHalfOpen(noise) && Mirrors(activeMap, activeColors, b) && InSweep(b, y, x)
    modifies activeMap, activeColors
    ensures Visit(s, b, totalActiveCount, y, x, noise, cursor, fuel) == Sweep(after, total, next, done)
    ensures Mirrors(activeMap, activeColors, after)
  {
    total, next, done, after := totalActiveCount, cursor, true, b;
    if totalActiveCount > s.maxActiveCount {
      total, next, done := KillRandomUntilCountMet(activeMap, activeColors, b, totalActiveCount, s.maxActiveCount,
                                                   s.savedColor, noise, cursor, fuel);
      after := Kill(b, totalActiveCount, s.maxActiveCount, s.savedColor, noise, cursor, fuel).board;
    }
    if !done {
      return;
    }
    total, after := ApplyRule(activeMap, activeColors, after, s, total, y, x);
  }

  /** The count and the rule of lines 469-502 for cell (y, x) of the board b. */
  method ApplyRule(activeMap: array2<Glyph>, activeColors: array2<ConsoleColor>, ghost b: Board, s: Settings,
                   totalActiveCount: int, y: int, x: int)
    returns (total: int, ghost after: Board)
    requires Mirrors(activeMap, activeColors, b) && InSweep(b, y, x)
    modifies activeMap, activeColors
    ensures var u := Rule(s, b, y, x);
      after == b.Set(y, x, u.glyph, u.color) && total == (if u.activated then totalActiveCount + 1 else totalActiveCount)
    ensures Mirrors(activeMap, activeColors, after)
  {
    var count := CountActiveNeighbors(activeMap, b, y, x);
    ghost var u := NextCell(b.glyphs[y][x], b.colors[y][x], count, s.neighborsToBeActive, s.savedColor, s.activeColor);
    total := totalActiveCount;
    if activeMap[y, x] == Active || activeMap[y, x] == Inactive {
      if count == s.neighborsToBeActive {
        WriteCell(activeMap, activeColors, b, y, x, Active, s.activeColor);
        total := total + 1;
      } else if count <= 1 || count > s.neighborsToBeActive {
        WriteCell(activeMap, activeColors, b, y, x, Inactive, s.savedColor);
      }
    } else {
      WriteCell(activeMap, activeColors, b, y, x, Inactive, s.savedColor);
    }
    after := b.Set(y, x, u.glyph, u.color);
  }
}
