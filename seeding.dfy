/**
 * Building the starting grid: `BlankMapInit` draws the frame, and
 * `InitializeConwaysGameMaps` adds the cells the noise map switches on and then the
 * budgeted blobs of random seed cells (Program.cs:361-442).
 *
 * Each method is proved against a board value computed by a function here; the
 * properties of the starting grid are lemmas about those functions.
 */
module Seeding {
  import opened Grid
  import opened VoronoiOracle

  // ---------------------------------------------------------------------------
  // The frame

  /** What the nested loops of BlankMapInit leave in a cell. */
  function FrameGlyph(h: int, w: int, y: int, x: int): Glyph
  {
    if y == 0 || y == h - 1 then Horizontal
    else if 0 < x < w - 1 then Inactive
    else Unset
  }

  /**
   * What BlankMapInit leaves in a cell: the four corner writes come after the loops
   * and in the order top left, top right, bottom left, bottom right, so on a grid one
   * row high or one column wide a later corner replaces an earlier one.
   */
  function BlankGlyph(h: int, w: int, y: int, x: int): Glyph
  {
    if y == h - 1 && x == w - 1 then BottomRight
    else if y == h - 1 && x == 0 then BottomLeft
    else if y == 0 && x == w - 1 then TopRight
    else if y == 0 && x == 0 then TopLeft
    else FrameGlyph(h, w, y, x)
  }

  /** The board BlankMapInit builds. */
  function BlankBoard(h: nat, w: nat, defaultColor: ConsoleColor): (b: Board)
    ensures b.Valid() && b.height == h && b.width == w
  {
    Board(h, w, seq(h, y => seq(w, x => BlankGlyph(h, w, y, x))), seq(h, _ => seq(w, _ => defaultColor)))
  }

  /**
   * On a grid at least two by two: the top and bottom rows are edge glyphs with the
   * four corners in place, the side columns of the middle rows are left unset, the
   * interior is Inactive, and every colour is the default.
   */
  lemma BlankBoardLayout(h: nat, w: nat, defaultColor: ConsoleColor)
    requires h >= 2 && w >= 2
    ensures var b := BlankBoard(h, w, defaultColor);
      b.glyphs[0][0] == TopLeft && b.glyphs[0][w - 1] == TopRight &&
      b.glyphs[h - 1][0] == BottomLeft && b.glyphs[h - 1][w - 1] == BottomRight &&
      (forall x :: 0 < x < w - 1 ==> b.glyphs[0][x] == Horizontal && b.glyphs[h - 1][x] == Horizontal) &&
      (forall y :: 0 < y < h - 1 ==> b.glyphs[y][0] == Unset && b.glyphs[y][w - 1] == Unset) &&
      (forall y, x :: 0 < y < h - 1 && 0 < x < w - 1 ==> b.glyphs[y][x] == Inactive) &&
      (forall y, x :: b.Contains(y, x) ==> b.colors[y][x] == defaultColor)
  {
  }

  /** The cells of the blank board the sweep's rule treats as game cells are exactly the interior. */
  lemma BlankGameCellsAreInterior(h: nat, w: nat, defaultColor: ConsoleColor, y: int, x: int)
    requires 0 <= y < h && 0 <= x < w
    ensures IsLifeGlyph(BlankBoard(h, w, defaultColor).glyphs[y][x]) <==> (0 < y < h - 1 && 0 < x < w - 1)
    ensures BlankBoard(h, w, defaultColor).glyphs[y][x] != Active
  {
  }

  /** BlankMapInit (Program.cs:361-386). */
  method BlankMapInit(height: int, width: int, defaultColor: ConsoleColor)
    returns (activeMap: array2<Glyph>, activeColors: array2<ConsoleColor>)
    requires height >= 1 && width >= 1
    ensures fresh(activeMap) && fresh(activeColors)
    ensures Mirrors(activeMap, activeColors, BlankBoard(height, width, defaultColor))
  {
    activeMap := new Glyph[height, width]((_, _) => Unset);
    activeColors := new ConsoleColor[height, width]((_, _) => 0);
    for y := 0 to height
      invariant forall i, j :: 0 <= i < height && 0 <= j < width ==>
        activeMap[i, j] == if i < y then FrameGlyph(height, width, i, j) else Unset
      invariant forall i, j :: 0 <= i < height && 0 <= j < width ==>
        activeColors[i, j] == if i < y then defaultColor else 0
    {
      FrameRow(activeMap, activeColors, y, defaultColor);
    }
    activeMap[0, 0] := TopLeft;
    activeMap[0, width - 1] := TopRight;
    activeMap[height - 1, 0] := BottomLeft;
    activeMap[height - 1, width - 1] := BottomRight;
    ghost var b := BlankBoard(height, width, defaultColor);
    forall i, j | 0 <= i < height && 0 <= j < width
      ensures activeMap[i, j] == b.glyphs[i][j] && activeColors[i, j] == b.colors[i][j]
    {
    }
  }

  /** The inner loop of BlankMapInit (Program.cs:367-378), on row y. */
  method FrameRow(activeMap: array2<Glyph>, activeColors: array2<ConsoleColor>, y: int, defaultColor: ConsoleColor)
    requires 0 <= y < activeMap.Length0 && activeColors.Length0 == activeMap.Length0 && activeColors.Length1 == activeMap.Length1
    requires forall j :: 0 <= j < activeMap.Length1 ==> activeMap[y, j] == Unset
    modifies activeMap, activeColors
    ensures forall j :: 0 <= j < activeMap.Length1 ==>
      activeMap[y, j] == FrameGlyph(activeMap.Length0, activeMap.Length1, y, j) && activeColors[y, j] == defaultColor
    ensures forall i, j :: 0 <= i < activeMap.Length0 && i != y && 0 <= j < activeMap.Length1 ==>
      activeMap[i, j] == old(activeMap[i, j]) && activeColors[i, j] == old(activeColors[i, j])
  {
    var height, width := activeMap.Length0, activeMap.Length1;
    for x := 0 to width
      invariant forall j :: 0 <= j < width ==>
        activeMap[y, j] == if j < x then FrameGlyph(height, width, y, j) else Unset
      invariant forall j :: 0 <= j < x ==> activeColors[y, j] == defaultColor
      invariant forall i, j :: 0 <= i < height && i != y && 0 <= j < width ==>
        activeMap[i, j] == old(activeMap[i, j]) && activeColors[i, j] == old(activeColors[i, j])
    {
      activeColors[y, x] := defaultColor;
      if y == 0 || y == height - 1 {
        activeMap[y, x] := Horizontal;
      } else if x > 0 && x < width - 1 {
        activeMap[y, x] := Inactive;
      }
    }
  }

  // ---------------------------------------------------------------------------
  // The noise pass

  /** The cells the noise pass looks at (Program.cs:398-400). */
  predicate InNoiseRegion(h: int, w: int, y: int, x: int)
  {
    4 <= y < h - 3 && 4 <= x < w - 3
  }

  /**
   * The board after the noise pass: a cell of the region whose mask bit is set is
   * made Active in activeColor. The mask is indexed `[x, y]`, as the noise map is.
   */
  function NoiseBoard(b: Board, mask: (int, int) -> bool, activeColor: ConsoleColor): (r: Board)
    requires b.Valid()
    ensures r.Valid() && r.height == b.height && r.width == b.width
  {
    Board(b.height, b.width,
      seq(b.height, y requires 0 <= y < b.height => seq(b.width, x requires 0 <= x < b.width =>
        if InNoiseRegion(b.height, b.width, y, x) && mask(x, y) then Active else b.glyphs[y][x])),
      seq(b.height, y requires 0 <= y < b.height => seq(b.width, x requires 0 <= x < b.width =>
        if InNoiseRegion(b.height, b.width, y, x) && mask(x, y) then activeColor else b.colors[y][x])))
  }

  /**
   * On the blank board the noise pass makes a cell Active exactly when it lies in the
   * region and its mask bit is set, and it deactivates nothing: every other cell keeps
   * its glyph and colour.
   */
  lemma NoisePassActivatesMaskedCells(h: nat, w: nat, defaultColor: ConsoleColor, mask: (int, int) -> bool,
                                      activeColor: ConsoleColor, y: int, x: int)
    requires 0 <= y < h && 0 <= x < w
    ensures var b := BlankBoard(h, w, defaultColor);
      var r := NoiseBoard(b, mask, activeColor);
      (r.glyphs[y][x] == Active <==> InNoiseRegion(h, w, y, x) && mask(x, y)) &&
      (!(InNoiseRegion(h, w, y, x) && mask(x, y)) ==> r.glyphs[y][x] == b.glyphs[y][x] && r.colors[y][x] == b.colors[y][x])
  {
    BlankGameCellsAreInterior(h, w, defaultColor, y, x);
  }

  /** The noise pass of Program.cs:398-409, on arrays that hold the board b. */
  method NoisePass(activeMap: array2<Glyph>, activeColors: array2<ConsoleColor>, ghost b: Board,
                   mask: (int, int) -> bool, activeColor: ConsoleColor)
    requires Mirrors(activeMap, activeColors, b)
    modifies activeMap, activeColors
    ensures Mirrors(activeMap, activeColors, NoiseBoard(b, mask, activeColor))
  {
    var y := 4;
    while y < activeMap.Length0 - 3
      invariant 4 <= y
      invariant forall i, j :: 0 <= i < b.height && 0 <= j < b.width ==>
        activeMap[i, j] == if i < y && InNoiseRegion(b.height, b.width, i, j) && mask(j, i) then Active else b.glyphs[i][j]
      invariant forall i, j :: 0 <= i < b.height && 0 <= j < b.width ==>
        activeColors[i, j] == if i < y && InNoiseRegion(b.height, b.width, i, j) && mask(j, i) then activeColor else b.colors[i][j]
    {
      NoiseRow(activeMap, activeColors, y, mask, activeColor);
      y := y + 1;
    }
    ghost var r := NoiseBoard(b, mask, activeColor);
    forall i, j | 0 <= i < b.height && 0 <= j < b.width
      ensures activeMap[i, j] == r.glyphs[i][j] && activeColors[i, j] == r.colors[i][j]
    {
      assert i >= y ==> !InNoiseRegion(b.height, b.width, i, j);
    }
  }

  /** The inner loop of the noise pass: row y, columns [4, w - 3). */
  method NoiseRow(activeMap: array2<Glyph>, activeColors: array2<ConsoleColor>, y: int,
                  mask: (int, int) -> bool, activeColor: ConsoleColor)
    requires activeColors.Length0 == activeMap.Length0 && activeColors.Length1 == activeMap.Length1
    requires 4 <= y < activeMap.Length0 - 3
    modifies activeMap, activeColors
    ensures forall i, j :: 0 <= i < activeMap.Length0 && i != y && 0 <= j < activeMap.Length1 ==>
      activeMap[i, j] == old(activeMap[i, j]) && activeColors[i, j] == old(activeColors[i, j])
    ensures forall j :: 0 <= j < activeMap.Length1 ==>
      activeMap[y, j] == (if InNoiseRegion(activeMap.Length0, activeMap.Length1, y, j) && mask(j, y) then Active else old(activeMap[y, j]))
    ensures forall j :: 0 <= j < activeMap.Length1 ==>
      activeColors[y, j] == (if InNoiseRegion(activeMap.Length0, activeMap.Length1, y, j) && mask(j, y) then activeColor else old(activeColors[y, j]))
  {
    var x := 4;
    while x < activeMap.Length1 - 3
      invariant 4 <= x && (x <= activeMap.Length1 - 3 || x == 4)
      invariant forall i, j :: 0 <= i < activeMap.Length0 && i != y && 0 <= j < activeMap.Length1 ==>
        activeMap[i, j] == old(activeMap[i, j]) && activeColors[i, j] == old(activeColors[i, j])
      invariant forall j :: 0 <= j < activeMap.Length1 ==>
        activeMap[y, j] == (if 4 <= j < x && mask(j, y) then Active else old(activeMap[y, j]))
      invariant forall j :: 0 <= j < activeMap.Length1 ==>
        activeColors[y, j] == (if 4 <= j < x && mask(j, y) then activeColor else old(activeColors[y, j]))
    {
      if mask(x, y) {
        activeMap[y, x] := Active;
        activeColors[y, x] := activeColor;
      }
      x := x + 1;
    }
  }

  // ---------------------------------------------------------------------------
  // The seed loop

  /** The cells one blob activates around its centre, and the draw cursor after it. */
  datatype Fan = Fan(cells: seq<Pos>, next: nat)

  /** Direction i of a blob, after the ones before it left f. */
  function FanStep(h: int, w: int, centre: Pos, noise: Noise, i: nat, f: Fan): Fan
    requires i < |Directions2D|
  {
    var p := NeighbourAt(centre.y, centre.x, i);
    if 0 <= p.y < h && 0 <= p.x < w then
      if noise.coin(f.next) then Fan(f.cells + [p], f.next + 1) else Fan(f.cells, f.next + 1)
    else f
  }

  /**
   * The first n directions of one blob around `centre` on an h by w grid: each
   * neighbour inside the grid takes one BoolValue draw, and is activated when it is
   * true (Program.cs:419-431).
   */
  function FanOut(h: int, w: int, centre: Pos, noise: Noise, k: nat, n: nat): (f: Fan)
    requires n <= |Directions2D|
    ensures |f.cells| <= n && k <= f.next <= k + n
    ensures forall p :: p in f.cells ==> 0 <= p.y < h && 0 <= p.x < w
  {
    if n == 0 then Fan([], k)
    else FanStep(h, w, centre, noise, n - 1, FanOut(h, w, centre, noise, k, n - 1))
  }

  /** What the seed loop does: the cells it activates, in order, its rounds, its draws and its final budget. */
  datatype Seeding = Seeding(cells: seq<Pos>, rounds: nat, next: nat, final: int)

  /** A cell at most one step from the band the centres are drawn from. */
  predicate InSeedBand(h: int, w: int, p: Pos)
  {
    3 <= p.y <= h - 3 && 3 <= p.x <= w - 3
  }

  /** The centre round k draws: its column first, then its row (Program.cs:413-414). */
  function Centre(h: int, w: int, noise: Noise, k: nat): Pos
  {
    Pos(noise.range(k + 1, 4, h - 3), noise.range(k, 4, w - 3))
  }

  /** One pass of the seed loop's body from draw k: the centre, then its blob. */
  function Round(h: int, w: int, noise: Noise, k: nat): (r: Fan)
    ensures 1 <= |r.cells| <= 1 + |Directions2D| && k + 2 <= r.next
  {
    var f := FanOut(h, w, Centre(h, w, noise, k), noise, k + 2, |Directions2D|);
    Fan([Centre(h, w, noise, k)] + f.cells, f.next)
  }

  /** Under the Range assumption, on a grid at least eight by eight, a round stays one step from the band. */
  lemma RoundInBand(h: int, w: int, noise: Noise, k: nat)
    requires RangeIsHalfOpen(noise) && h >= 8 && w >= 8
    ensures forall p :: p in Round(h, w, noise, k).cells ==> InSeedBand(h, w, p)
  {
    FanStaysInBand(h, w, Centre(h, w, noise, k), noise, k + 2);
  }

  /**
   * The seed loop of Program.cs:411-438, from budget `budget` and draw cursor k: each
   * round draws the centre's column and then its row from the band [4, w-3) by
   * [4, h-3), activates it and fans out; every activation takes one from the budget,
   * and the loop goes on while the budget is not negative.
   */
  function SeedLoop(h: int, w: int, budget: int, noise: Noise, k: nat): (s: Seeding)
    requires RangeIsHalfOpen(noise)
    requires budget >= 0 ==> h >= 8 && w >= 8
    ensures s.final == budget - |s.cells| && k <= s.next
    ensures budget < 0 ==> s.cells == [] && s.rounds == 0 && s.next == k
    ensures budget >= 0 ==> 1 <= s.rounds <= budget + 1 && -9 <= s.final < 0
    ensures forall p :: p in s.cells ==> InSeedBand(h, w, p)
    decreases if budget < 0 then 0 else budget + 1
  {
    if budget < 0 then Seeding([], 0, k, budget)
    else
      var r := Round(h, w, noise, k);
      RoundInBand(h, w, noise, k);
      var rest := SeedLoop(h, w, budget - |r.cells|, noise, r.next);
      Seeding(r.cells + rest.cells, rest.rounds + 1, rest.next, rest.final)
  }

  /** Every cell of a blob is a neighbour of its centre. */
  lemma {:induction false} FanOutNeighbours(h: int, w: int, centre: Pos, noise: Noise, k: nat, n: nat, p: Pos)
    requires n <= |Directions2D| && p in FanOut(h, w, centre, noise, k, n).cells
    ensures exists i :: 0 <= i < n && p == NeighbourAt(centre.y, centre.x, i)
  {
    if p !in FanOut(h, w, centre, noise, k, n - 1).cells {
      assert p == NeighbourAt(centre.y, centre.x, n - 1);
    } else {
      FanOutNeighbours(h, w, centre, noise, k, n - 1, p);
    }
  }

  /** A blob around a centre drawn from the band stays one step from it. */
  lemma FanStaysInBand(h: int, w: int, centre: Pos, noise: Noise, k: nat)
    requires 4 <= centre.y < h - 3 && 4 <= centre.x < w - 3
    ensures forall p :: p in FanOut(h, w, centre, noise, k, |Directions2D|).cells ==> InSeedBand(h, w, p)
  {
    forall p | p in FanOut(h, w, centre, noise, k, |Directions2D|).cells
      ensures InSeedBand(h, w, p)
    {
      FanOutNeighbours(h, w, centre, noise, k, |Directions2D|, p);
      var i :| 0 <= i < |Directions2D| && p == NeighbourAt(centre.y, centre.x, i);
      OffsetsAreUnit(i);
    }
  }

  /**
   * On a grid large enough for the draws, every seed write lands strictly inside the
   * frame: the top and bottom rows and the side columns are never touched.
   */
  lemma SeedLoopAvoidsFrame(h: int, w: int, budget: int, noise: Noise, k: nat, p: Pos)
    requires RangeIsHalfOpen(noise) && h >= 8 && w >= 8
    requires p in SeedLoop(h, w, budget, noise, k).cells
    ensures 0 < p.y < h - 1 && 0 < p.x < w - 1
  {
  }

  /**
   * The board after the listed cells are made Active in activeColor. Every write of the
   * seed loop is the same pair of values, so their order does not matter.
   */
  function Paint(b: Board, cells: seq<Pos>, activeColor: ConsoleColor): (r: Board)
    requires b.Valid()
    ensures r.Valid() && r.height == b.height && r.width == b.width
  {
    Board(b.height, b.width,
      seq(b.height, y requires 0 <= y < b.height => seq(b.width, x requires 0 <= x < b.width =>
        if Pos(y, x) in cells then Active else b.glyphs[y][x])),
      seq(b.height, y requires 0 <= y < b.height => seq(b.width, x requires 0 <= x < b.width =>
        if Pos(y, x) in cells then activeColor else b.colors[y][x])))
  }

  /** The board InitializeConwaysGameMaps leaves: blank, then the noise pass, then the seed loop. */
  function InitialBoard(h: nat, w: nat, liveCount: int, defaultColor: ConsoleColor, activeColor: ConsoleColor,
                        mask: (int, int) -> bool, noise: Noise, k: nat): (b: Board)
    requires RangeIsHalfOpen(noise) && h >= 1 && w >= 1
    requires liveCount >= 0 ==> h >= 8 && w >= 8
    ensures b.Valid() && b.height == h && b.width == w
  {
    var s := SeedLoop(h, w, liveCount, noise, k);
    Paint(NoiseBoard(BlankBoard(h, w, defaultColor), mask, activeColor), s.cells, activeColor)
  }

  /**
   * The starting grid has the blank frame: the top and bottom rows and the side columns
   * hold what BlankMapInit put there, and nothing in them is Active.
   */
  lemma InitialBoardKeepsFrame(h: nat, w: nat, liveCount: int, defaultColor: ConsoleColor, activeColor: ConsoleColor,
                               mask: (int, int) -> bool, noise: Noise, k: nat, y: int, x: int)
    requires RangeIsHalfOpen(noise) && h >= 1 && w >= 1
    requires liveCount >= 0 ==> h >= 8 && w >= 8
    requires 0 <= y < h && 0 <= x < w && (y == 0 || y == h - 1 || x == 0 || x == w - 1)
    ensures InitialBoard(h, w, liveCount, defaultColor, activeColor, mask, noise, k).glyphs[y][x] == BlankGlyph(h, w, y, x) != Active
    ensures InitialBoard(h, w, liveCount, defaultColor, activeColor, mask, noise, k).colors[y][x] == defaultColor
  {
    var s := SeedLoop(h, w, liveCount, noise, k);
    if Pos(y, x) in s.cells {
      SeedLoopAvoidsFrame(h, w, liveCount, noise, k, Pos(y, x));
    }
    NoisePassActivatesMaskedCells(h, w, defaultColor, mask, activeColor, y, x);
  }

  /**
   * Initialisation only ever activates: a cell of the starting grid either holds what
   * BlankMapInit put there or is Active in activeColor, and every cell the seed loop
   * drew is Active.
   */
  lemma InitialBoardOnlyActivates(h: nat, w: nat, liveCount: int, defaultColor: ConsoleColor, activeColor: ConsoleColor,
                                  mask: (int, int) -> bool, noise: Noise, k: nat, y: int, x: int)
    requires RangeIsHalfOpen(noise) && h >= 1 && w >= 1
    requires liveCount >= 0 ==> h >= 8 && w >= 8
    requires 0 <= y < h && 0 <= x < w
    ensures var b := InitialBoard(h, w, liveCount, defaultColor, activeColor, mask, noise, k);
      (b.glyphs[y][x] == BlankGlyph(h, w, y, x) && b.colors[y][x] == defaultColor) ||
      (b.glyphs[y][x] == Active && b.colors[y][x] == activeColor)
    ensures Pos(y, x) in SeedLoop(h, w, liveCount, noise, k).cells ==>
      InitialBoard(h, w, liveCount, defaultColor, activeColor, mask, noise, k).glyphs[y][x] == Active
  {
  }

  /**
   * InitializeConwaysGameMaps (Program.cs:390-442) on an h by w grid. The noise map the
   * sampler would produce is the mask, `mask(x, y)` meaning `nm[x, y] >= valueForActive`;
   * `cursor` is the first draw after the ones SampleNoiseMap takes, and `next` the first
   * draw after the seed loop. liveCount is a value parameter: the caller's budget is not
   * touched.
   */
  method InitializeConwaysGameMaps(h: int, w: int, liveCount: int, defaultColor: ConsoleColor, activeColor: ConsoleColor,
                                   mask: (int, int) -> bool, noise: Noise, cursor: nat)
    returns (activeMap: array2<Glyph>, activeColors: array2<ConsoleColor>, next: nat)
    requires RangeIsHalfOpen(noise) && h >= 1 && w >= 1
    requires liveCount >= 0 ==> h >= 8 && w >= 8
    ensures fresh(activeMap) && fresh(activeColors)
    ensures Mirrors(activeMap, activeColors, InitialBoard(h, w, liveCount, defaultColor, activeColor, mask, noise, cursor))
    ensures next == SeedLoop(h, w, liveCount, noise, cursor).next
  {
    activeMap, activeColors := BlankMapInit(h, w, defaultColor);
    ghost var blank := BlankBoard(h, w, defaultColor);

    NoisePass(activeMap, activeColors, blank, mask, activeColor);
    ghost var noisy := NoiseBoard(blank, mask, activeColor);
    assert noisy.height == h && noisy.width == w;

    next := SeedPass(activeMap, activeColors, noisy, activeColor, noise, liveCount, cursor);
  }

  /** The seed loop of Program.cs:411-438, on arrays that hold the board `noisy`. */
  method SeedPass(activeMap: array2<Glyph>, activeColors: array2<ConsoleColor>, ghost noisy: Board,
                  activeColor: ConsoleColor, noise: Noise, liveCount: int, cursor: nat)
    returns (next: nat)
    requires RangeIsHalfOpen(noise) && noisy.Valid()
    requires liveCount >= 0 ==> noisy.height >= 8 && noisy.width >= 8
    requires Mirrors(activeMap, activeColors, noisy)
    modifies activeMap, activeColors
    ensures var s := SeedLoop(noisy.height, noisy.width, liveCount, noise, cursor);
      next == s.next && Mirrors(activeMap, activeColors, Paint(noisy, s.cells, activeColor))
  {
    ghost var h, w := noisy.height, noisy.width;
    var budget := liveCount;
    next := cursor;
    ghost var painted: seq<Pos> := [];
    ghost var start := Paint(noisy, [], activeColor);
    assert forall y, x :: noisy.Contains(y, x) ==> start.glyphs[y][x] == noisy.glyphs[y][x] && start.colors[y][x] == noisy.colors[y][x];
    while budget >= 0
      invariant budget >= 0 ==> h >= 8 && w >= 8
      invariant Mirrors(activeMap, activeColors, Paint(noisy, painted, activeColor))
      invariant painted + SeedLoop(h, w, budget, noise, next).cells == SeedLoop(h, w, liveCount, noise, cursor).cells
      invariant SeedLoop(h, w, budget, noise, next).next == SeedLoop(h, w, liveCount, noise, cursor).next
      decreases if budget < 0 then 0 else budget + 1
    {
      ghost var r := Round(h, w, noise, next);
      ghost var rest := SeedLoop(h, w, budget - |r.cells|, noise, r.next);
      SeqAssoc(painted, r.cells, rest.cells);
      budget, next, painted := SeedRound(activeMap, activeColors, noisy, painted, activeColor, noise, budget, next);
    }
    assert painted == SeedLoop(h, w, liveCount, noise, cursor).cells;
  }

  /**
   * One pass of the seed loop's body (Program.cs:413-431): it draws a centre, activates
   * it and fans out, doing what Round says.
   */
  method SeedRound(activeMap: array2<Glyph>, activeColors: array2<ConsoleColor>, ghost noisy: Board, ghost painted: seq<Pos>,
                   activeColor: ConsoleColor, noise: Noise, liveCount: int, cursor: nat)
    returns (remaining: int, next: nat, ghost paintedAfter: seq<Pos>)
    requires RangeIsHalfOpen(noise) && noisy.Valid() && noisy.height >= 8 && noisy.width >= 8
    requires Mirrors(activeMap, activeColors, Paint(noisy, painted, activeColor))
    modifies activeMap, activeColors
    ensures var r := Round(noisy.height, noisy.width, noise, cursor);
      remaining == liveCount - |r.cells| && next == r.next && paintedAfter == painted + r.cells
    ensures Mirrors(activeMap, activeColors, Paint(noisy, paintedAfter, activeColor))
  {
    ghost var h, w := noisy.height, noisy.width;
    var currentX := noise.range(cursor, 4, activeMap.Length1 - 3);
    var currentY := noise.range(cursor + 1, 4, activeMap.Length0 - 3);
    var centre := Pos(currentY, currentX);
    assert centre == Centre(h, w, noise, cursor);
    ghost var fan := FanOut(h, w, centre, noise, cursor + 2, |Directions2D|);
    paintedAfter := Activate(activeMap, activeColors, noisy, painted, centre, activeColor);
    remaining, next, paintedAfter := SeedBlob(activeMap, activeColors, noisy, paintedAfter, centre, activeColor, noise, liveCount - 1, cursor + 2);
    SeqAssoc(painted, [centre], fan.cells);
  }

  /**
   * The fan-out of one blob (Program.cs:419-431), on arrays that hold the board
   * `Paint(noisy, painted, activeColor)`: it consumes the draws FanOut says, takes one
   * from the budget per activation and paints what FanOut says.
   */
  method SeedBlob(activeMap: array2<Glyph>, activeColors: array2<ConsoleColor>, ghost noisy: Board, ghost painted: seq<Pos>,
                  centre: Pos, activeColor: ConsoleColor, noise: Noise, liveCount: int, cursor: nat)
    returns (remaining: int, next: nat, ghost paintedAfter: seq<Pos>)
    requires noisy.Valid()
    requires Mirrors(activeMap, activeColors, Paint(noisy, painted, activeColor))
    modifies activeMap, activeColors
    ensures var f := FanOut(noisy.height, noisy.width, centre, noise, cursor, |Directions2D|);
      next == f.next && remaining == liveCount - |f.cells| && paintedAfter == painted + f.cells
    ensures Mirrors(activeMap, activeColors, Paint(noisy, paintedAfter, activeColor))
  {
    remaining, next, paintedAfter := liveCount, cursor, painted;
    ghost var h, w := noisy.height, noisy.width;
    assert activeMap.Length0 == h && activeMap.Length1 == w;
    for i := 0 to |Directions2D|
      invariant var f := FanOut(noisy.height, noisy.width, centre, noise, cursor, i);
        next == f.next && remaining == liveCount - |f.cells| && paintedAfter == painted + f.cells
      invariant Mirrors(activeMap, activeColors, Paint(noisy, paintedAfter, activeColor))
    {
      var p := NeighbourAt(centre.y, centre.x, i);
      ghost var f := FanOut(h, w, centre, noise, cursor, i);
      assert FanOut(h, w, centre, noise, cursor, i + 1) == FanStep(h, w, centre, noise, i, f);
      if p.y >= 0 && p.y < activeMap.Length0 {
        if p.x >= 0 && p.x < activeMap.Length1 {
          var draw := noise.coin(next);
          next := next + 1;
          if draw {
            assert paintedAfter + [p] == painted + (f.cells + [p]);
            paintedAfter := Activate(activeMap, activeColors, noisy, paintedAfter, p, activeColor);
            remaining := remaining - 1;
          }
        }
      }
    }
  }

  /** `activeMap[p.y, p.x] = activeString; activeColors[p.y, p.x] = activeColor;` on arrays holding a painted board. */
  method Activate(activeMap: array2<Glyph>, activeColors: array2<ConsoleColor>, ghost noisy: Board, ghost painted: seq<Pos>,
                  p: Pos, activeColor: ConsoleColor)
    returns (ghost paintedAfter: seq<Pos>)
    requires noisy.Valid() && noisy.Contains(p.y, p.x)
    requires Mirrors(activeMap, activeColors, Paint(noisy, painted, activeColor))
    modifies activeMap, activeColors
    ensures paintedAfter == painted + [p]
    ensures Mirrors(activeMap, activeColors, Paint(noisy, paintedAfter, activeColor))
  {
    activeMap[p.y, p.x] := Active;
    activeColors[p.y, p.x] := activeColor;
    paintedAfter := painted + [p];
    ghost var r := Paint(noisy, paintedAfter, activeColor);
    forall y, x | 0 <= y < noisy.height && 0 <= x < noisy.width
      ensures activeMap[y, x] == r.glyphs[y][x] && activeColors[y, x] == r.colors[y][x]
    {
      assert Pos(y, x) in paintedAfter <==> Pos(y, x) in painted || Pos(y, x) == p;
    }
  }

  lemma SeqAssoc<T>(a: seq<T>, b: seq<T>, c: seq<T>)
    ensures a + b + c == a + (b + c)
  {
  }
}
