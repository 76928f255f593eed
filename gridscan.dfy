/** Reading a puzzle grid. Checker.py, BFS.py, DFS.py and UCS.py scan the
    grid row by row, left to right, and sort each cell into the agent
    (`@`), a stone (`$`), a switch (`.`), a wall (`#`) or a stone on a
    switch (`*`); stones take the next unused weight in scan order. The
    validator and UCS reject a grid whose stones and weights do not
    match (strict); BFS and DFS silently drop stones beyond the last
    weight (lenient). This module gives the scan as a fold over the
    row-major sequence of cells; the looping parsers are checked
    against it. */
module GridScan {
  import opened Rules

  type Grid = seq<seq<char>>

  /** What a scan finds; `player` stays None when no `@` appears. */
  datatype Puzzle = Puzzle(player: Option<Pos>, stones: map<Pos, int>, switches: set<Pos>, walls: set<Pos>)

  /** A scan in progress: what was found and how many weights were used. */
  datatype Scan = Scan(found: Puzzle, used: nat)

  const Start: Scan := Scan(Puzzle(None, map[], {}, {}), 0)

  /** The cells of row `i`, left to right. */
  function RowCells(i: int, row: seq<char>): seq<(Pos, char)> {
    seq(|row|, j requires 0 <= j < |row| => ((i, j), row[j]))
  }

  /** All cells of the grid in row-major order. */
  function Cells(grid: Grid): seq<(Pos, char)>
    decreases |grid|
  {
    if grid == [] then [] else Cells(grid[..|grid| - 1]) + RowCells(|grid| - 1, grid[|grid| - 1])
  }

  predicate IsStoneChar(ch: char) {
    ch == '$' || ch == '*'
  }

  /** The stone cells (`$` and `*`) in scan order. */
  function StoneCells(cells: seq<(Pos, char)>): (r: seq<Pos>)
    ensures |r| <= |cells|
    decreases |cells|
  {
    if cells == [] then []
    else
      var rest := StoneCells(cells[..|cells| - 1]);
      if IsStoneChar(cells[|cells| - 1].1) then rest + [cells[|cells| - 1].0] else rest
  }

  /** One cell of the scan. A stone takes the next weight if one is left;
      otherwise the strict scan fails and the lenient one ignores the
      stone. A `*` is a switch in either case. */
  function ScanCell(s: Scan, weights: seq<int>, cell: (Pos, char), strict: bool): Option<Scan> {
    var (p, ch) := cell;
    var f := s.found;
    if ch == '@' then Some(s.(found := f.(player := Some(p))))
    else if IsStoneChar(ch) then
      if s.used < |weights| then
        var f' := f.(stones := f.stones[p := weights[s.used]]);
        Some(Scan(if ch == '*' then f'.(switches := f'.switches + {p}) else f', s.used + 1))
      else if strict then None
      else Some(if ch == '*' then s.(found := f.(switches := f.switches + {p})) else s)
    else if ch == '.' then Some(s.(found := f.(switches := f.switches + {p})))
    else if ch == '#' then Some(s.(found := f.(walls := f.walls + {p})))
    else Some(s)
  }

  /** The body of `parse_grid`'s inner loop: one cell updates the agent,
      the stones (taking the next weight), the switches or the walls. With
      `strict`, a stone that finds no weight left fails the parse. */
  method ReadCell(s: Scan, weights: seq<int>, cell: (Pos, char), strict: bool) returns (r: Option<Scan>)
    ensures r == ScanCell(s, weights, cell, strict)
  {
    var (pos, ch) := cell;
    var found := s.found;
    var stoneIndex := s.used;
    if ch == '@' {
      found := found.(player := Some(pos));
    } else if ch == '$' {
      if stoneIndex < |weights| {
        found := found.(stones := found.stones[pos := weights[stoneIndex]]);
        stoneIndex := stoneIndex + 1;
      } else if strict {
        return None;
      }
    } else if ch == '.' {
      found := found.(switches := found.switches + {pos});
    } else if ch == '#' {
      found := found.(walls := found.walls + {pos});
    } else if ch == '*' {
      if stoneIndex < |weights| {
        found := found.(stones := found.stones[pos := weights[stoneIndex]]);
        stoneIndex := stoneIndex + 1;
      } else if strict {
        return None;
      }
      found := found.(switches := found.switches + {pos});
    }
    return Some(Scan(found, stoneIndex));
  }

  /** The scan of a whole cell sequence; None once a strict scan fails. */
  function ScanAll(cells: seq<(Pos, char)>, weights: seq<int>, strict: bool): (r: Option<Scan>)
    ensures !strict ==> r.Some?
    decreases |cells|
  {
    if cells == [] then Some(Start)
    else
      match ScanAll(cells[..|cells| - 1], weights, strict)
      case None => None
      case Some(s) => ScanCell(s, weights, cells[|cells| - 1], strict)
  }

  /** Checker.py and UCS.py: the scan must not run out of weights, and
      must use all of them. */
  function StrictParse(grid: Grid, weights: seq<int>): Option<Puzzle> {
    match ScanAll(Cells(grid), weights, true)
    case None => None
    case Some(s) => if s.used != |weights| then None else Some(s.found)
  }

  /** BFS.py and DFS.py: never fails. */
  function LenientParse(grid: Grid, weights: seq<int>): Puzzle {
    ScanAll(Cells(grid), weights, false).value.found
  }

  lemma ScanAllSnoc(cells: seq<(Pos, char)>, weights: seq<int>, strict: bool, cell: (Pos, char))
    ensures ScanAll(cells + [cell], weights, strict) ==
      match ScanAll(cells, weights, strict)
      case None => None
      case Some(s) => ScanCell(s, weights, cell, strict)
  {
    assert (cells + [cell])[..|cells|] == cells;
  }

  /** A strict scan that has failed stays failed. */
  lemma {:induction false} ScanNoneSticky(a: seq<(Pos, char)>, b: seq<(Pos, char)>, weights: seq<int>)
    requires a <= b
    requires ScanAll(a, weights, true).None?
    ensures ScanAll(b, weights, true).None?
    decreases |b|
  {
    if |b| > |a| {
      var pre := b[..|b| - 1];
      assert a <= pre;
      ScanNoneSticky(a, pre, weights);
    } else {
      assert a == b;
    }
  }

  /** The cells before column `j` of row `i`, in scan order. */
  function CellsUpTo(grid: Grid, i: nat, j: nat): seq<(Pos, char)>
    requires i < |grid| && j <= |grid[i]|
  {
    Cells(grid[..i]) + RowCells(i, grid[i])[..j]
  }

  lemma CellsUpToStart(grid: Grid, i: nat)
    requires i < |grid|
    ensures CellsUpTo(grid, i, 0) == Cells(grid[..i])
  {
  }

  lemma CellsUpToSnoc(grid: Grid, i: nat, j: nat)
    requires i < |grid| && j < |grid[i]|
    ensures CellsUpTo(grid, i, j + 1) == CellsUpTo(grid, i, j) + [((i, j), grid[i][j])]
  {
    assert RowCells(i, grid[i])[..j + 1] == RowCells(i, grid[i])[..j] + [((i, j), grid[i][j])];
  }

  /** Scanning one more cell of row `i`. */
  lemma ScanNext(grid: Grid, i: nat, j: nat, weights: seq<int>, strict: bool, s: Scan)
    requires i < |grid| && j < |grid[i]|
    requires ScanAll(CellsUpTo(grid, i, j), weights, strict) == Some(s)
    ensures ScanAll(CellsUpTo(grid, i, j + 1), weights, strict) == ScanCell(s, weights, ((i, j), grid[i][j]), strict)
  {
    CellsUpToSnoc(grid, i, j);
    ScanAllSnoc(CellsUpTo(grid, i, j), weights, strict, ((i, j), grid[i][j]));
  }

  lemma CellsUpToRowEnd(grid: Grid, i: nat)
    requires i < |grid|
    ensures CellsUpTo(grid, i, |grid[i]|) == Cells(grid[..i + 1])
  {
    assert RowCells(i, grid[i])[..|grid[i]|] == RowCells(i, grid[i]);
    CellsSnocRow(grid, i);
  }

  /** A strict scan that fails on some cell fails on the whole grid. */
  lemma StrictFailsEarly(grid: Grid, i: nat, j: nat, weights: seq<int>)
    requires i < |grid| && j <= |grid[i]|
    requires ScanAll(CellsUpTo(grid, i, j), weights, true).None?
    ensures StrictParse(grid, weights).None?
  {
    CellsUpToRowEnd(grid, i);
    CellsPrefix(grid, i + 1);
    assert CellsUpTo(grid, i, j) <= CellsUpTo(grid, i, |grid[i]|);
    ScanNoneSticky(CellsUpTo(grid, i, j), Cells(grid), weights);
  }

  /** The cells of the first rows come first. */
  lemma {:induction false} CellsPrefix(grid: Grid, i: nat)
    requires i <= |grid|
    ensures Cells(grid[..i]) <= Cells(grid)
    decreases |grid| - i
  {
    if i < |grid| {
      CellsPrefix(grid, i + 1);
      CellsSnocRow(grid, i);
    } else {
      assert grid[..i] == grid;
    }
  }

  lemma StoneCellsSnoc(cells: seq<(Pos, char)>, cell: (Pos, char))
    ensures StoneCells(cells + [cell]) ==
      if IsStoneChar(cell.1) then StoneCells(cells) + [cell.0] else StoneCells(cells)
  {
    assert (cells + [cell])[..|cells|] == cells;
  }

  lemma CellsSnocRow(grid: Grid, i: nat)
    requires i < |grid|
    ensures Cells(grid[..i + 1]) == Cells(grid[..i]) + RowCells(i, grid[i])
  {
    assert grid[..i + 1][..i] == grid[..i];
  }

  function PosSet(cells: seq<(Pos, char)>): set<Pos> {
    set k | 0 <= k < |cells| :: cells[k].0
  }

  predicate DistinctPositions(cells: seq<(Pos, char)>) {
    forall a, b :: 0 <= a < b < |cells| ==> cells[a].0 != cells[b].0
  }

  /** Every cell of the grid lies in its rows, and no cell is listed
      twice. */
  lemma {:induction false} CellsDistinct(grid: Grid)
    ensures forall k :: 0 <= k < |Cells(grid)| ==> 0 <= Cells(grid)[k].0.0 < |grid|
    ensures DistinctPositions(Cells(grid))
    decreases |grid|
  {
    if grid != [] {
      var n := |grid| - 1;
      CellsDistinct(grid[..n]);
      var pre: seq<(Pos, char)>, row: seq<(Pos, char)> := Cells(grid[..n]), RowCells(n, grid[n]);
      assert Cells(grid) == pre + row;
      forall a, b | 0 <= a < b < |pre + row| ensures (pre + row)[a].0 != (pre + row)[b].0 {
        if b >= |pre| && a < |pre| {
          assert (pre + row)[a].0.0 < n;
        }
      }
    }
  }

  lemma StoneCellsInPositions(cells: seq<(Pos, char)>)
    ensures forall k :: 0 <= k < |StoneCells(cells)| ==> StoneCells(cells)[k] in PosSet(cells)
    decreases |cells|
  {
    if cells != [] {
      var pre := cells[..|cells| - 1];
      StoneCellsInPositions(pre);
      assert cells == pre + [cells[|cells| - 1]];
      StoneCellsSnoc(pre, cells[|cells| - 1]);
      forall k | 0 <= k < |StoneCells(pre)| ensures StoneCells(pre)[k] in PosSet(cells) {
        var j :| 0 <= j < |pre| && pre[j].0 == StoneCells(pre)[k];
        assert cells[j] == pre[j];
      }
      assert cells[|cells| - 1].0 in PosSet(cells);
    }
  }

  function Min(a: int, b: int): int {
    if a < b then a else b
  }

  /** A scan state in which the first `used` stone cells of `sc` carry
      the first `used` weights and no other cell carries a stone. */
  predicate Assigned(s: Scan, sc: seq<Pos>, weights: seq<int>) {
    && s.used == Min(|sc|, |weights|)
    && s.found.stones.Keys == (set k | 0 <= k < s.used :: sc[k])
    && (forall k :: 0 <= k < s.used ==> s.found.stones[sc[k]] == weights[k])
  }

  lemma AssignedStep(s: Scan, sc: seq<Pos>, weights: seq<int>, x: (Pos, char), strict: bool)
    requires Assigned(s, sc, weights)
    requires forall k :: 0 <= k < |sc| ==> sc[k] != x.0
    requires ScanCell(s, weights, x, strict).Some?
    ensures Assigned(ScanCell(s, weights, x, strict).value, if IsStoneChar(x.1) then sc + [x.0] else sc, weights)
  {
    var s' := ScanCell(s, weights, x, strict).value;
    if IsStoneChar(x.1) {
      var sc' := sc + [x.0];
      if s.used < |weights| {
        assert s.used == |sc|;
        assert s'.found.stones == s.found.stones[x.0 := weights[s.used]];
        var lhs := set k | 0 <= k < s'.used :: sc'[k];
        var rhs := set k | 0 <= k < s.used :: sc[k];
        forall q | q in lhs ensures q in rhs + {x.0} {
          var k :| 0 <= k < s'.used && sc'[k] == q;
          if k < s.used { assert q in rhs; }
        }
        forall q | q in rhs + {x.0} ensures q in lhs {
          if q != x.0 {
            var k :| 0 <= k < s.used && sc[k] == q;
            assert sc'[k] == q;
          } else {
            assert sc'[s.used] == q;
          }
        }
      } else {
        assert s'.used == s.used && s'.found.stones == s.found.stones;
        var lhs := set k | 0 <= k < s.used :: sc'[k];
        var rhs := set k | 0 <= k < s.used :: sc[k];
        forall q | q in lhs ensures q in rhs {
          var k :| 0 <= k < s.used && sc'[k] == q;
          assert sc[k] == q;
        }
        forall q | q in rhs ensures q in lhs {
          var k :| 0 <= k < s.used && sc[k] == q;
          assert sc'[k] == q;
        }
      }
    }
  }

  /** How a scan assigns weights: the k-th stone cell in row-major order
      carries `weights[k]`, for as many stones as there are weights, and
      no other cell carries a stone. The strict scan fails exactly when
      a stone appears after the weights ran out; the lenient scan then
      stops assigning. */
  lemma {:induction false} ScanAssignsWeightsInOrder(cells: seq<(Pos, char)>, weights: seq<int>, strict: bool)
    requires DistinctPositions(cells)
    ensures ScanAll(cells, weights, strict).None? <==> strict && |StoneCells(cells)| > |weights|
    ensures ScanAll(cells, weights, strict).Some? ==>
              Assigned(ScanAll(cells, weights, strict).value, StoneCells(cells), weights)
    decreases |cells|
  {
    if cells != [] {
      var pre, x := cells[..|cells| - 1], cells[|cells| - 1];
      assert cells == pre + [x];
      ScanAssignsWeightsInOrder(pre, weights, strict);
      StoneCellsSnoc(pre, x);
      StoneCellsInPositions(pre);
      var sc := StoneCells(pre);
      forall k | 0 <= k < |sc| ensures sc[k] != x.0 {
        assert sc[k] in PosSet(pre);
        var j :| 0 <= j < |pre| && pre[j].0 == sc[k];
        assert cells[j].0 != cells[|cells| - 1].0;
      }
      match ScanAll(pre, weights, strict)
      case None =>
      case Some(s) =>
        if ScanCell(s, weights, x, strict).Some? {
          AssignedStep(s, sc, weights, x, strict);
        }
    }
  }

  /** One cell adds its position to the switches when it is `.` or `*`
      and to the walls when it is `#`. */
  lemma ScanCellSorts(s: Scan, weights: seq<int>, x: (Pos, char), strict: bool)
    requires ScanCell(s, weights, x, strict).Some?
    ensures var f := ScanCell(s, weights, x, strict).value.found;
            && f.switches == s.found.switches + (if x.1 == '.' || x.1 == '*' then {x.0} else {})
            && f.walls == s.found.walls + (if x.1 == '#' then {x.0} else {})
            && f.player == (if x.1 == '@' then Some(x.0) else s.found.player)
  {
  }

  /** Switches are exactly the `.` and `*` cells. */
  lemma {:induction false} ScanFindsSwitches(cells: seq<(Pos, char)>, weights: seq<int>, strict: bool)
    requires ScanAll(cells, weights, strict).Some?
    ensures forall p :: p in ScanAll(cells, weights, strict).value.found.switches <==> (p, '.') in cells || (p, '*') in cells
    decreases |cells|
  {
    if cells != [] {
      var pre, x := cells[..|cells| - 1], cells[|cells| - 1];
      assert cells == pre + [x];
      ScanAllSnoc(pre, weights, strict, x);
      ScanFindsSwitches(pre, weights, strict);
      ScanCellSorts(ScanAll(pre, weights, strict).value, weights, x, strict);
    }
  }

  /** Walls are exactly the `#` cells. */
  lemma {:induction false} ScanFindsWalls(cells: seq<(Pos, char)>, weights: seq<int>, strict: bool)
    requires ScanAll(cells, weights, strict).Some?
    ensures forall p :: p in ScanAll(cells, weights, strict).value.found.walls <==> (p, '#') in cells
    decreases |cells|
  {
    if cells != [] {
      var pre, x := cells[..|cells| - 1], cells[|cells| - 1];
      assert cells == pre + [x];
      ScanAllSnoc(pre, weights, strict, x);
      ScanFindsWalls(pre, weights, strict);
      ScanCellSorts(ScanAll(pre, weights, strict).value, weights, x, strict);
    }
  }

  /** The agent is the last `@` cell, if any. */
  lemma {:induction false} ScanFindsPlayer(cells: seq<(Pos, char)>, weights: seq<int>, strict: bool)
    requires ScanAll(cells, weights, strict).Some?
    ensures var f := ScanAll(cells, weights, strict).value.found;
            && (f.player.None? <==> forall k :: 0 <= k < |cells| ==> cells[k].1 != '@')
            && (f.player.Some? ==> exists k :: 0 <= k < |cells| && cells[k] == (f.player.value, '@') &&
                                     forall k' :: k < k' < |cells| ==> cells[k'].1 != '@')
    decreases |cells|
  {
    if cells != [] {
      var pre, x := cells[..|cells| - 1], cells[|cells| - 1];
      assert cells == pre + [x];
      ScanAllSnoc(pre, weights, strict, x);
      ScanFindsPlayer(pre, weights, strict);
      ScanCellSorts(ScanAll(pre, weights, strict).value, weights, x, strict);
      var f := ScanAll(pre, weights, strict).value.found;
      var f' := ScanAll(cells, weights, strict).value.found;
      if x.1 == '@' {
        assert cells[|cells| - 1] == (f'.player.value, '@');
      } else if f.player.Some? {
        var k :| 0 <= k < |pre| && pre[k] == (f.player.value, '@') &&
                 forall k' :: k < k' < |pre| ==> pre[k'].1 != '@';
        assert cells[k] == pre[k];
        forall k' | k < k' < |cells| ensures cells[k'].1 != '@' {
          if k' < |pre| { assert cells[k'] == pre[k']; }
        }
      } else {
        forall k | 0 <= k < |cells| ensures cells[k].1 != '@' {
          if k < |pre| { assert cells[k] == pre[k]; }
        }
      }
    }
  }

  /** The agent, the stones and the walls of `f` lie in `area`, and
      neither the agent nor a stone stands on a wall. */
  predicate Within(f: Puzzle, area: set<Pos>) {
    && f.walls <= area
    && (f.player.Some? ==> f.player.value in area && f.player.value !in f.walls)
    && (forall q :: q in f.stones ==> q in area && q !in f.walls)
  }

  lemma PosSetSnoc(pre: seq<(Pos, char)>, x: (Pos, char))
    ensures PosSet(pre + [x]) == PosSet(pre) + {x.0}
  {
    var cells := pre + [x];
    forall q | q in PosSet(cells) ensures q in PosSet(pre) + {x.0} {
      var k :| 0 <= k < |cells| && cells[k].0 == q;
      if k < |pre| { assert pre[k] == cells[k]; }
    }
    forall q | q in PosSet(pre) ensures q in PosSet(cells) {
      var k :| 0 <= k < |pre| && pre[k].0 == q;
      assert cells[k] == pre[k];
    }
    assert cells[|pre|] == x;
  }

  /** Scanning a cell at a fresh position keeps the scan within the
      scanned positions. */
  lemma ScanCellWithin(s: Scan, weights: seq<int>, x: (Pos, char), strict: bool, area: set<Pos>)
    requires Within(s.found, area) && x.0 !in area
    requires ScanCell(s, weights, x, strict).Some?
    ensures Within(ScanCell(s, weights, x, strict).value.found, area + {x.0})
  {
  }

  /** The agent, the stones and the walls a scan finds all lie on the
      scanned cells, and neither the agent nor a stone stands on a wall. */
  lemma {:induction false} ScanWithinCells(cells: seq<(Pos, char)>, weights: seq<int>, strict: bool)
    requires DistinctPositions(cells)
    requires ScanAll(cells, weights, strict).Some?
    ensures Within(ScanAll(cells, weights, strict).value.found, PosSet(cells))
    decreases |cells|
  {
    if cells != [] {
      var pre, x := cells[..|cells| - 1], cells[|cells| - 1];
      assert cells == pre + [x];
      ScanAllSnoc(pre, weights, strict, x);
      ScanWithinCells(pre, weights, strict);
      PosSetSnoc(pre, x);
      assert x.0 !in PosSet(pre) by {
        forall k | 0 <= k < |pre| ensures pre[k].0 != x.0 {
          assert cells[k] == pre[k];
        }
      }
      ScanCellWithin(ScanAll(pre, weights, strict).value, weights, x, strict, PosSet(pre));
    }
  }

  /** The positions of a grid. */
  function GridPositions(grid: Grid): set<Pos> {
    PosSet(Cells(grid))
  }

  /** What `LenientParse` and `StrictParse` find lies on the grid, with
      the agent and the stones off the walls. */
  lemma ParseWithinGrid(grid: Grid, weights: seq<int>, strict: bool)
    requires ScanAll(Cells(grid), weights, strict).Some?
    ensures var f := ScanAll(Cells(grid), weights, strict).value.found;
            && (f.player.Some? ==> f.player.value in GridPositions(grid) && f.player.value !in f.walls)
            && (forall q :: q in f.stones ==> q in GridPositions(grid) && q !in f.walls)
  {
    CellsDistinct(grid);
    ScanWithinCells(Cells(grid), weights, strict);
    assert Within(ScanAll(Cells(grid), weights, strict).value.found, GridPositions(grid));
  }

  /** Every weight a scan gives a stone is one of the weights read from the
      first line. */
  lemma ParsedWeightsAreGiven(grid: Grid, weights: seq<int>, strict: bool)
    requires ScanAll(Cells(grid), weights, strict).Some?
    ensures var f := ScanAll(Cells(grid), weights, strict).value.found;
            forall q :: q in f.stones ==> f.stones[q] in weights
  {
    CellsDistinct(grid);
    ScanAssignsWeightsInOrder(Cells(grid), weights, strict);
    var s := ScanAll(Cells(grid), weights, strict).value;
    var sc := StoneCells(Cells(grid));
    forall q | q in s.found.stones ensures s.found.stones[q] in weights {
      var k :| 0 <= k < s.used && sc[k] == q;
      assert s.found.stones[q] == weights[k];
    }
  }

  /** `parse_grid` of Checker.py (and the reading loop of UCS.py's
      `Search`) succeeds exactly when the grid holds as many `$` and `*`
      cells as there are weights, and then the k-th of them in reading
      order is the only stone with the k-th weight. */
  lemma StrictParseMatchesCounts(grid: Grid, weights: seq<int>)
    ensures StrictParse(grid, weights).Some? <==> |StoneCells(Cells(grid))| == |weights|
    ensures StrictParse(grid, weights).Some? ==>
              var sc, p := StoneCells(Cells(grid)), StrictParse(grid, weights).value;
              && p.stones.Keys == (set k | 0 <= k < |sc| :: sc[k])
              && forall k :: 0 <= k < |sc| ==> p.stones[sc[k]] == weights[k]
  {
    CellsDistinct(grid);
    ScanAssignsWeightsInOrder(Cells(grid), weights, true);
  }

  /** `parse_grid` of BFS.py and DFS.py gives the first stone cells in
      reading order the weights in order, one each, and leaves the stone
      cells beyond the last weight without a stone. */
  lemma LenientParseAssigns(grid: Grid, weights: seq<int>)
    ensures var sc, p := StoneCells(Cells(grid)), LenientParse(grid, weights);
            var m := Min(|sc|, |weights|);
            && p.stones.Keys == (set k | 0 <= k < m :: sc[k])
            && forall k :: 0 <= k < m ==> p.stones[sc[k]] == weights[k]
  {
    CellsDistinct(grid);
    ScanAssignsWeightsInOrder(Cells(grid), weights, false);
  }
}
