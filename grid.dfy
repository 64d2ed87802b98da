/**
 * The automaton's grid: what a cell holds, the eight neighbour offsets, the board as
 * a value (the two parallel arrays of glyphs and colours), the neighbour count and
 * the per-cell rule of the sweep.
 */
module Grid {

  /** The strings the activeMap array holds. */
  datatype Glyph =
    | Active       // activeString, a full block
    | Inactive     // inactiveString, a light shade
    | Horizontal   // the top and bottom edge (mapSideTopMiddle and mapSideBottomMiddle are equal)
    | TopLeft      // mapSideTopLeft
    | TopRight     // mapSideTopRight
    | BottomLeft   // mapSideBottomLeft
    | BottomRight  // mapSideBottomRight
    | Unset        // null: a slot of a new string array that nothing has written

  /** The two glyphs the rule treats as cells of the game. */
  predicate IsLifeGlyph(g: Glyph)
  {
    g == Active || g == Inactive
  }

  /** System.ConsoleColor has sixteen members. */
  newtype ConsoleColor = c: int | 0 <= c < 16

  /** A (row, column) offset, as the two entries of an element of Directions2D. */
  datatype Offset = Offset(dy: int, dx: int)

  /** The neighbour offsets, in the order the source lists them. */
  const Directions2D: seq<Offset> := [
    Offset(0, 1), Offset(1, 0), Offset(0, -1), Offset(-1, 0),
    Offset(1, 1), Offset(-1, -1), Offset(1, -1), Offset(-1, 1)]

  /** Each offset moves at most one row and one column. */
  lemma OffsetsAreUnit(i: int)
    requires 0 <= i < |Directions2D|
    ensures -1 <= Directions2D[i].dy <= 1 && -1 <= Directions2D[i].dx <= 1
    ensures Directions2D[i] != Offset(0, 0)
  {
  }

  /** The eight entries of Directions2D are pairwise different. */
  lemma Directions2DDistinct()
    ensures |Directions2D| == 8
    ensures forall i, j :: 0 <= i < j < |Directions2D| ==> Directions2D[i] != Directions2D[j]
  {
  }

  /** Directions2D lists each of the eight neighbours of a cell exactly once. */
  lemma Directions2DIsMooreNeighbourhood()
    ensures |Directions2D| == 8
    ensures forall i, j :: 0 <= i < j < |Directions2D| ==> Directions2D[i] != Directions2D[j]
    ensures forall d: Offset :: d in Directions2D <==> (-1 <= d.dy <= 1 && -1 <= d.dx <= 1 && d != Offset(0, 0))
  {
    Directions2DDistinct();
    forall d: Offset | -1 <= d.dy <= 1 && -1 <= d.dx <= 1 && d != Offset(0, 0)
      ensures d in Directions2D
    {
      if d.dy == -1 {
        assert d == Directions2D[if d.dx == -1 then 5 else if d.dx == 0 then 3 else 7];
      } else if d.dy == 0 {
        assert d == Directions2D[if d.dx == -1 then 2 else 0];
      } else {
        assert d == Directions2D[if d.dx == -1 then 6 else if d.dx == 0 then 1 else 4];
      }
    }
    forall d: Offset | d in Directions2D
      ensures -1 <= d.dy <= 1 && -1 <= d.dx <= 1 && d != Offset(0, 0)
    {
      var i :| 0 <= i < |Directions2D| && Directions2D[i] == d;
      OffsetsAreUnit(i);
    }
  }

  /** A grid coordinate, row first as in the source's `[y, x]` indexing. */
  datatype Pos = Pos(y: int, x: int)

  /** The glyph and colour arrays, as one value. */
  datatype Board = Board(height: nat, width: nat, glyphs: seq<seq<Glyph>>, colors: seq<seq<ConsoleColor>>)
  {
    predicate Valid()
    {
      |glyphs| == height && |colors| == height &&
      forall y :: 0 <= y < height ==> |glyphs[y]| == width && |colors[y]| == width
    }

    predicate Contains(y: int, x: int)
    {
      0 <= y < height && 0 <= x < width
    }

    /** The board after `activeMap[y, x] = g; activeColors[y, x] = c;`. */
    function Set(y: int, x: int, g: Glyph, c: ConsoleColor): (b: Board)
      requires Valid() && Contains(y, x)
      ensures b.Valid() && b.height == height && b.width == width
      ensures b.glyphs[y][x] == g && b.colors[y][x] == c
      ensures forall i, j :: Contains(i, j) && (i != y || j != x) ==>
        b.glyphs[i][j] == glyphs[i][j] && b.colors[i][j] == colors[i][j]
    {
      Board(height, width, glyphs[y := glyphs[y][x := g]], colors[y := colors[y][x := c]])
    }
  }

  /** Writing a cell's own glyph and colour back leaves the board as it was. */
  lemma SetOwnValues(b: Board, y: int, x: int)
    requires b.Valid() && b.Contains(y, x)
    ensures b.Set(y, x, b.glyphs[y][x], b.colors[y][x]) == b
  {
    assert b.glyphs[y][x := b.glyphs[y][x]] == b.glyphs[y];
    assert b.colors[y][x := b.colors[y][x]] == b.colors[y];
  }

  /** A cell whose eight neighbours all lie on the board. */
  predicate HasNeighbours(b: Board, y: int, x: int)
  {
    b.Valid() && 1 <= y < b.height - 1 && 1 <= x < b.width - 1
  }

  /** The neighbour in direction i. */
  function NeighbourAt(y: int, x: int, i: int): Pos
    requires 0 <= i < |Directions2D|
  {
    Pos(y + Directions2D[i].dy, x + Directions2D[i].dx)
  }

  /** How many of the first n directions lead to an Active cell. */
  function ActiveAmong(b: Board, y: int, x: int, n: nat): (count: nat)
    requires HasNeighbours(b, y, x) && n <= |Directions2D|
    ensures count <= n
  {
    if n == 0 then 0
    else
      OffsetsAreUnit(n - 1);
      var p := NeighbourAt(y, x, n - 1);
      ActiveAmong(b, y, x, n - 1) + (if b.glyphs[p.y][p.x] == Active then 1 else 0)
  }

  /** The count of lines 469-475: Active cells among the eight neighbours of (y, x). */
  function NeighborCount(b: Board, y: int, x: int): nat
    requires HasNeighbours(b, y, x)
  {
    ActiveAmong(b, y, x, |Directions2D|)
  }

  /** The Active neighbours among the first n directions, as a set of positions. */
  ghost function ActiveNeighbours(b: Board, y: int, x: int, n: nat): set<Pos>
    requires HasNeighbours(b, y, x) && n <= |Directions2D|
  {
    set i | 0 <= i < n && IsActiveAt(b, NeighbourAt(y, x, i)) :: NeighbourAt(y, x, i)
  }

  ghost predicate IsActiveAt(b: Board, p: Pos)
  {
    b.Valid() && b.Contains(p.y, p.x) && b.glyphs[p.y][p.x] == Active
  }

  /** Two different directions lead to two different cells. */
  lemma NeighbourAtInjective(y: int, x: int, i: int, j: int)
    requires 0 <= i < j < |Directions2D|
    ensures NeighbourAt(y, x, i) != NeighbourAt(y, x, j)
  {
    Directions2DDistinct();
  }

  /** Adding direction n - 1 adds its cell, when Active, and that cell is new. */
  lemma ActiveNeighboursStep(b: Board, y: int, x: int, n: nat)
    requires HasNeighbours(b, y, x) && 0 < n <= |Directions2D|
    ensures NeighbourAt(y, x, n - 1) !in ActiveNeighbours(b, y, x, n - 1)
    ensures ActiveNeighbours(b, y, x, n) ==
      ActiveNeighbours(b, y, x, n - 1) + (if IsActiveAt(b, NeighbourAt(y, x, n - 1)) then {NeighbourAt(y, x, n - 1)} else {})
  {
    var p := NeighbourAt(y, x, n - 1);
    var before := ActiveNeighbours(b, y, x, n - 1);
    var after := ActiveNeighbours(b, y, x, n);
    forall i | 0 <= i < n - 1
      ensures NeighbourAt(y, x, i) != p
    {
      NeighbourAtInjective(y, x, i, n - 1);
    }
    forall q | q in after
      ensures q in before || (q == p && IsActiveAt(b, p))
    {
      var i :| 0 <= i < n && IsActiveAt(b, NeighbourAt(y, x, i)) && q == NeighbourAt(y, x, i);
      if i < n - 1 {
        assert q in before;
      }
    }
  }

  /** The count is the number of distinct Active cells around (y, x), at most eight. */
  lemma {:induction false} NeighborCountCountsActiveNeighbours(b: Board, y: int, x: int, n: nat)
    requires HasNeighbours(b, y, x) && n <= |Directions2D|
    ensures ActiveAmong(b, y, x, n) == |ActiveNeighbours(b, y, x, n)|
  {
    if n == 0 {
      assert ActiveNeighbours(b, y, x, 0) == {};
    } else {
      NeighborCountCountsActiveNeighbours(b, y, x, n - 1);
      OffsetsAreUnit(n - 1);
      ActiveNeighboursStep(b, y, x, n);
    }
  }

  /** What the rule of lines 479-502 writes into a cell, and whether it adds to the running total. */
  datatype Update = Update(glyph: Glyph, color: ConsoleColor, activated: bool)

  /**
   * The rule: a game cell with exactly neighborsToBeActive Active neighbours becomes
   * Active in activeColor and is counted; one with at most one, or more than
   * neighborsToBeActive, becomes Inactive in savedColor; any other game cell is left
   * alone; a cell holding any other glyph becomes Inactive in savedColor.
   */
  function NextCell(g: Glyph, c: ConsoleColor, count: int, neighborsToBeActive: int,
                    savedColor: ConsoleColor, activeColor: ConsoleColor): (u: Update)
    ensures IsLifeGlyph(u.glyph)
    ensures u.activated <==> IsLifeGlyph(g) && count == neighborsToBeActive
    ensures u.glyph == Active <==> u.activated || (g == Active && 1 < count < neighborsToBeActive)
    ensures u.glyph == Active ==> u.color == (if u.activated then activeColor else c)
    ensures u.glyph == Inactive ==>
      u.color == (if g == Inactive && 1 < count < neighborsToBeActive then c else savedColor)
  {
    if g == Active || g == Inactive then
      if count == neighborsToBeActive then Update(Active, activeColor, true)
      else if count <= 1 || count > neighborsToBeActive then Update(Inactive, savedColor, false)
      else Update(g, c, false)
    else
      Update(Inactive, savedColor, false)
  }

  /** With neighborsToBeActive = 3 the rule on game cells is Conway's B3/S23. */
  lemma NextCellIsConwaysLife(g: Glyph, c: ConsoleColor, count: int, savedColor: ConsoleColor, activeColor: ConsoleColor)
    requires IsLifeGlyph(g)
    ensures NextCell(g, c, count, 3, savedColor, activeColor).glyph == Active <==>
      count == 3 || (g == Active && count == 2)
  {
  }

  // ---------------------------------------------------------------------------
  // The arrays and the board value

  /** The glyph array holds the glyphs of b. */
  ghost predicate GlyphsMirror(activeMap: array2<Glyph>, b: Board)
    reads activeMap
  {
    b.Valid() && activeMap.Length0 == b.height && activeMap.Length1 == b.width &&
    forall y, x :: 0 <= y < b.height && 0 <= x < b.width ==> activeMap[y, x] == b.glyphs[y][x]
  }

  /** The two arrays hold exactly the board b. */
  ghost predicate Mirrors(activeMap: array2<Glyph>, activeColors: array2<ConsoleColor>, b: Board)
    reads activeMap, activeColors
  {
    GlyphsMirror(activeMap, b) && activeColors.Length0 == b.height && activeColors.Length1 == b.width &&
    forall y, x :: 0 <= y < b.height && 0 <= x < b.width ==> activeColors[y, x] == b.colors[y][x]
  }

  /** `activeMap[y, x] = g; activeColors[y, x] = c;` keeps the arrays in step with the board. */
  method WriteCell(activeMap: array2<Glyph>, activeColors: array2<ConsoleColor>, ghost b: Board,
                   y: int, x: int, g: Glyph, c: ConsoleColor)
    requires Mirrors(activeMap, activeColors, b) && b.Contains(y, x)
    modifies activeMap, activeColors
    ensures Mirrors(activeMap, activeColors, b.Set(y, x, g, c))
  {
    activeMap[y, x] := g;
    activeColors[y, x] := c;
  }
}
