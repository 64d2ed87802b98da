/**
 * The population cull, KillRandomUntilCountMet (Program.cs:520-539): once the running
 * total of activations passes maxActiveCount, a target is drawn from
 * [maxActiveCount / 2, maxActiveCount) and random cells of the top-left
 * (h - 2) by (w - 2) block are drawn until that many kills have brought the total down
 * to the target; a drawn cell that is Active becomes Inactive in savedColor, any other
 * draw is wasted.
 *
 * Whether the loop ends depends on the draws, so the model gives it `fuel`: the
 * number of draws of a cell it may still make. A cull that runs out of fuel reports
 * `done == false`; the source would still be looping.
 */
module Culling {
  import opened Grid
  import opened VoronoiOracle

  /** The board, the total and the draw cursor after a cull, the cells it killed, and whether it finished. */
  datatype Cull = Cull(board: Board, total: int, next: nat, killed: seq<Pos>, done: bool)

  /** A board the cull can draw cells from: `Range(0, w - 2)` and `Range(0, h - 2)` need w, h > 2. */
  predicate Cullable(b: Board)
  {
    b.Valid() && b.height >= 3 && b.width >= 3
  }

  /** The cells the cull can draw: rows [0, h - 2), columns [0, w - 2). */
  predicate InCullBlock(b: Board, p: Pos)
  {
    0 <= p.y < b.height - 2 && 0 <= p.x < b.width - 2
  }

  /** The cell draws k and k + 1 pick: the column first, then the row (Program.cs:528-529). */
  function CullDraw(b: Board, noise: Noise, k: nat): (p: Pos)
    requires RangeIsHalfOpen(noise) && Cullable(b)
    ensures InCullBlock(b, p)
  {
    Pos(noise.range(k + 1, 0, b.height - 2), noise.range(k, 0, b.width - 2))
  }

  /**
   * The while loop of Program.cs:526-537 from draw k: the column is drawn first, then
   * the row.
   */
  function KillLoop(b: Board, total: int, killCount: int, savedColor: ConsoleColor, noise: Noise, k: nat, fuel: nat): (c: Cull)
    requires Cullable(b) && RangeIsHalfOpen(noise)
    ensures c.board.Valid() && c.board.height == b.height && c.board.width == b.width
    ensures c.total == total - |c.killed| && k <= c.next
    ensures c.done ==> c.total == (if total <= killCount then total else killCount)
    ensures !c.done ==> c.total > killCount
    decreases fuel
  {
    if total <= killCount then Cull(b, total, k, [], true)
    else if fuel == 0 then Cull(b, total, k, [], false)
    else
      var p := CullDraw(b, noise, k);
      if b.glyphs[p.y][p.x] == Active then
        var c := KillLoop(b.Set(p.y, p.x, Inactive, savedColor), total - 1, killCount, savedColor, noise, k + 2, fuel - 1);
        Cull(c.board, c.total, c.next, [p] + c.killed, c.done)
      else
        KillLoop(b, total, killCount, savedColor, noise, k + 2, fuel - 1)
  }

  /** What a cull from board b ends with, leaving out the list of kills. */
  function Outcome(c: Cull): (Board, int, nat, bool)
  {
    (c.board, c.total, c.next, c.done)
  }

  /** One pass of the loop's body, taken apart. */
  lemma KillLoopStep(b: Board, total: int, killCount: int, savedColor: ConsoleColor, noise: Noise, k: nat, fuel: nat)
    requires Cullable(b) && RangeIsHalfOpen(noise) && total > killCount && fuel > 0
    ensures var p := CullDraw(b, noise, k);
      b.glyphs[p.y][p.x] == Active ==>
        Outcome(KillLoop(b, total, killCount, savedColor, noise, k, fuel)) ==
        Outcome(KillLoop(b.Set(p.y, p.x, Inactive, savedColor), total - 1, killCount, savedColor, noise, k + 2, fuel - 1))
    ensures var p := CullDraw(b, noise, k);
      b.glyphs[p.y][p.x] != Active ==>
        Outcome(KillLoop(b, total, killCount, savedColor, noise, k, fuel)) ==
        Outcome(KillLoop(b, total, killCount, savedColor, noise, k + 2, fuel - 1))
  {
  }

  /** KillRandomUntilCountMet from draw k: guarded by `total > maxActiveCount`, the target is draw k. */
  function Kill(b: Board, total: int, maxActiveCount: int, savedColor: ConsoleColor, noise: Noise, k: nat, fuel: nat): (c: Cull)
    requires Cullable(b) && RangeIsHalfOpen(noise)
    ensures c.board.Valid() && c.board.height == b.height && c.board.width == b.width
    ensures total <= maxActiveCount ==> c == Cull(b, total, k, [], true)
    ensures total > maxActiveCount && maxActiveCount >= 1 ==> Half(maxActiveCount) <= c.total
    ensures total > maxActiveCount && maxActiveCount >= 1 && c.done ==> c.total < maxActiveCount
    ensures c.total == total - |c.killed|
  {
    if total > maxActiveCount then
      var killCount := noise.range(k, Half(maxActiveCount), maxActiveCount);
      KillLoop(b, total, killCount, savedColor, noise, k + 1, fuel)
    else
      Cull(b, total, k, [], true)
  }

  /** Every cell in `killed` lies in the block, was Active on `before` and is Inactive in savedColor on `after`. */
  ghost predicate KilledCells(before: Board, after: Board, killed: seq<Pos>, savedColor: ConsoleColor)
    requires before.Valid() && after.Valid() && after.height == before.height && after.width == before.width
  {
    forall p :: p in killed ==> (InCullBlock(before, p) && before.glyphs[p.y][p.x] == Active &&
      after.glyphs[p.y][p.x] == Inactive && after.colors[p.y][p.x] == savedColor)
  }

  /** Every cell not in `killed` is the same on `after` as on `before`. */
  ghost predicate OtherCellsKept(before: Board, after: Board, killed: seq<Pos>)
    requires before.Valid() && after.Valid() && after.height == before.height && after.width == before.width
  {
    forall y, x :: before.Contains(y, x) && Pos(y, x) !in killed ==>
      after.glyphs[y][x] == before.glyphs[y][x] && after.colors[y][x] == before.colors[y][x]
  }

  /** No cell appears twice in `killed`. */
  predicate Distinct(killed: seq<Pos>)
  {
    forall i, j :: 0 <= i < j < |killed| ==> killed[i] != killed[j]
  }

  /**
   * What a cull c did to the board before: each cell it killed lies in the block, was
   * Active and is now Inactive in savedColor; no cell is killed twice; the other cells
   * are kept.
   */
  ghost predicate CullEffect(before: Board, c: Cull, savedColor: ConsoleColor)
  {
    before.Valid() && c.board.Valid() && c.board.height == before.height && c.board.width == before.width &&
    KilledCells(before, c.board, c.killed, savedColor) && OtherCellsKept(before, c.board, c.killed) &&
    Distinct(c.killed)
  }

  lemma {:induction false} KillLoopEffect(b: Board, total: int, killCount: int, savedColor: ConsoleColor,
                                         noise: Noise, k: nat, fuel: nat)
    requires Cullable(b) && RangeIsHalfOpen(noise)
    ensures CullEffect(b, KillLoop(b, total, killCount, savedColor, noise, k, fuel), savedColor)
    decreases fuel, 1
  {
    if total <= killCount || fuel == 0 {
      assert KillLoop(b, total, killCount, savedColor, noise, k, fuel).killed == [];
    } else {
      var p := CullDraw(b, noise, k);
      if b.glyphs[p.y][p.x] == Active {
        KillLoopKillEffect(b, total, killCount, savedColor, noise, k, fuel);
      } else {
        KillLoopMissEffect(b, total, killCount, savedColor, noise, k, fuel);
      }
    }
  }

  /** A draw that kills: the effect of the kill, then that of the rest of the cull. */
  lemma {:induction false} KillLoopKillEffect(b: Board, total: int, killCount: int, savedColor: ConsoleColor, noise: Noise, k: nat, fuel: nat)
    requires Cullable(b) && RangeIsHalfOpen(noise) && total > killCount && fuel > 0
    requires var p := CullDraw(b, noise, k); b.glyphs[p.y][p.x] == Active
    ensures CullEffect(b, KillLoop(b, total, killCount, savedColor, noise, k, fuel), savedColor)
    decreases fuel, 0
  {
    var p := CullDraw(b, noise, k);
    var b' := b.Set(p.y, p.x, Inactive, savedColor);
    var c' := KillLoop(b', total - 1, killCount, savedColor, noise, k + 2, fuel - 1);
    KillLoopEffect(b', total - 1, killCount, savedColor, noise, k + 2, fuel - 1);
    assert KillLoop(b, total, killCount, savedColor, noise, k, fuel) ==
      Cull(c'.board, c'.total, c'.next, [p] + c'.killed, c'.done);
    KillStep(b, b', p, c', savedColor);
  }

  /** A wasted draw: the cull goes on from the same board. */
  lemma {:induction false} KillLoopMissEffect(b: Board, total: int, killCount: int, savedColor: ConsoleColor, noise: Noise, k: nat, fuel: nat)
    requires Cullable(b) && RangeIsHalfOpen(noise) && total > killCount && fuel > 0
    requires var p := CullDraw(b, noise, k); b.glyphs[p.y][p.x] != Active
    ensures CullEffect(b, KillLoop(b, total, killCount, savedColor, noise, k, fuel), savedColor)
    decreases fuel, 0
  {
    KillLoopEffect(b, total, killCount, savedColor, noise, k + 2, fuel - 1);
    assert KillLoop(b, total, killCount, savedColor, noise, k, fuel) ==
      KillLoop(b, total, killCount, savedColor, noise, k + 2, fuel - 1);
  }

  /** The effect of killing p, then the rest of a cull c'. */
  lemma KillStep(b: Board, b': Board, p: Pos, c': Cull, savedColor: ConsoleColor)
    requires Cullable(b) && InCullBlock(b, p) && b.glyphs[p.y][p.x] == Active
    requires b' == b.Set(p.y, p.x, Inactive, savedColor)
    requires CullEffect(b', c', savedColor)
    ensures CullEffect(b, Cull(c'.board, c'.total, c'.next, [p] + c'.killed, c'.done), savedColor)
  {
    var after, killed := c'.board, c'.killed;
    forall q | q in [p] + killed
      ensures InCullBlock(b, q) && b.glyphs[q.y][q.x] == Active &&
        after.glyphs[q.y][q.x] == Inactive && after.colors[q.y][q.x] == savedColor
    {
      if q != p {
        assert q in killed;
      } else if p !in killed {
        assert b'.Contains(p.y, p.x);
      }
    }
    forall y, x | b.Contains(y, x) && Pos(y, x) !in [p] + killed
      ensures after.glyphs[y][x] == b.glyphs[y][x] && after.colors[y][x] == b.colors[y][x]
    {
      assert Pos(y, x) != p;
    }
    assert p !in killed;
    PrependDistinct(p, killed);
  }

  lemma PrependDistinct(p: Pos, s: seq<Pos>)
    requires Distinct(s) && p !in s
    ensures Distinct([p] + s)
  {
    forall i, j | 0 <= i < j < |[p] + s|
      ensures ([p] + s)[i] != ([p] + s)[j]
    {
      if i == 0 {
        assert s[j - 1] in s;
      }
    }
  }

  /** The same for the whole of KillRandomUntilCountMet. */
  lemma KillEffect(b: Board, total: int, maxActiveCount: int, savedColor: ConsoleColor, noise: Noise, k: nat, fuel: nat)
    requires Cullable(b) && RangeIsHalfOpen(noise)
    ensures CullEffect(b, Kill(b, total, maxActiveCount, savedColor, noise, k, fuel), savedColor)
  {
    if total > maxActiveCount {
      var killCount := noise.range(k, Half(maxActiveCount), maxActiveCount);
      KillLoopEffect(b, total, killCount, savedColor, noise, k + 1, fuel);
    }
  }

  /**
   * KillRandomUntilCountMet (Program.cs:520-539) on arrays that hold the board b; the
   * static maxActiveCount is a parameter. It does what Kill says.
   */
  method KillRandomUntilCountMet(activeMap: array2<Glyph>, activeColors: array2<ConsoleColor>, ghost b: Board,
                                 totalActiveCount: int, maxActiveCount: int, savedColor: ConsoleColor,
                                 noise: Noise, cursor: nat, fuel: nat)
    returns (total: int, next: nat, done: bool)
    requires Cullable(b) && RangeIsHalfOpen(noise) && Mirrors(activeMap, activeColors, b)
    modifies activeMap, activeColors
    ensures var c := Kill(b, totalActiveCount, maxActiveCount, savedColor, noise, cursor, fuel);
      Mirrors(activeMap, activeColors, c.board) && total == c.total && next == c.next && done == c.done
  {
    total, next, done := totalActiveCount, cursor, true;
    if totalActiveCount > maxActiveCount {
      var killCount := noise.range(cursor, Half(maxActiveCount), maxActiveCount);
      total, next, done := CullLoop(activeMap, activeColors, b, totalActiveCount, killCount, savedColor, noise, cursor + 1, fuel);
    }
  }

  /** The while loop of Program.cs:526-537, on arrays that hold the board b. It does what KillLoop says. */
  method CullLoop(activeMap: array2<Glyph>, activeColors: array2<ConsoleColor>, ghost b: Board,
                  totalActiveCount: int, killCount: int, savedColor: ConsoleColor, noise: Noise, cursor: nat, fuel: nat)
    returns (total: int, next: nat, done: bool)
    requires Cullable(b) && RangeIsHalfOpen(noise) && Mirrors(activeMap, activeColors, b)
    modifies activeMap, activeColors
    ensures var c := KillLoop(b, totalActiveCount, killCount, savedColor, noise, cursor, fuel);
      Mirrors(activeMap, activeColors, c.board) && total == c.total && next == c.next && done == c.done
  {
    total, next, done := totalActiveCount, cursor, true;
    ghost var whole := KillLoop(b, totalActiveCount, killCount, savedColor, noise, cursor, fuel);
    ghost var board := b;
    var budget := fuel;
    while total > killCount
      invariant Cullable(board) && board.height == b.height && board.width == b.width
      invariant Mirrors(activeMap, activeColors, board)
      invariant Outcome(KillLoop(board, total, killCount, savedColor, noise, next, budget)) == Outcome(whole)
      decreases budget
    {
      if budget == 0 {
        done := false;
        return;
      }
      KillLoopStep(board, total, killCount, savedColor, noise, next, budget);
      total, board := CullStep(activeMap, activeColors, board, total, savedColor, noise, next);
      next := next + 2;
      budget := budget - 1;
    }
  }

  /** One pass of the loop's body (Program.cs:528-536): draw a cell, and kill it if it is Active. */
  method CullStep(activeMap: array2<Glyph>, activeColors: array2<ConsoleColor>, ghost b: Board,
                  totalActiveCount: int, savedColor: ConsoleColor, noise: Noise, cursor: nat)
    returns (total: int, ghost after: Board)
    requires Cullable(b) && RangeIsHalfOpen(noise) && Mirrors(activeMap, activeColors, b)
    modifies activeMap, activeColors
    ensures var p := CullDraw(b, noise, cursor);
      if b.glyphs[p.y][p.x] == Active
      then after == b.Set(p.y, p.x, Inactive, savedColor) && total == totalActiveCount - 1
      else after == b && total == totalActiveCount
    ensures Mirrors(activeMap, activeColors, after)
  {
    var nx := noise.range(cursor, 0, activeMap.Length1 - 2);
    var ny := noise.range(cursor + 1, 0, activeMap.Length0 - 2);
    total, after := totalActiveCount, b;
    if activeMap[ny, nx] == Active {
      total := total - 1;
      WriteCell(activeMap, activeColors, b, ny, nx, Inactive, savedColor);
      after := b.Set(ny, nx, Inactive, savedColor);
    }
  }
}
