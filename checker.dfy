/** The solution validator (Checker.py): it reads a puzzle strictly,
    replays a move string one move at a time and reports whether every
    move was legal and every switch ended up covered, together with the
    weight pushed. */
module Checker {
  import opened Rules
  import opened GridScan

  /** What `simulate_solution` returns. `Crashed` is the case the
      original reaches with no agent on the grid: the first legal-looking
      letter reads the coordinates of a missing position. */
  datatype Verdict = Verdict(valid: bool, weight: int) | Crashed

  /** The reference semantics of a replay: the validator's verdict is the
      goal test applied to the configuration that `Replay` reaches, or
      `false` with the weight pushed before the first illegal move. */
  function Simulate(p: Puzzle, solution: string): (r: Verdict)
    ensures r.Crashed? <==> p.player.None? && solution != [] && IsMoveLetter(solution[0])
    ensures p.player.Some? ==>
              r.Verdict? && (r.valid <==> Solves(p.walls, p.switches, Config(p.player.value, p.stones), solution))
  {
    match p.player
    case None =>
      if solution == [] then Verdict(p.stones.Keys == p.switches, 0)
      else if !IsMoveLetter(solution[0]) then Verdict(false, 0)
      else Crashed
    case Some(pos) =>
      match Replay(p.walls, Config(pos, p.stones), solution)
      case Completed(c, w) => Verdict(IsGoal(c, p.switches), w)
      case Stopped(_, _, w) => Verdict(false, w)
  }

  /** `parse_grid`: scans the rows and their cells in order, fails as soon
      as a stone finds no weight, and fails at the end if weights are
      left over. */
  method ParseGrid(grid: Grid, weights: seq<int>) returns (r: Option<Puzzle>)
    ensures r == StrictParse(grid, weights)
  {
    var scan := Start;
    var i := 0;
    while i < |grid|
      invariant 0 <= i <= |grid|
      invariant ScanAll(Cells(grid[..i]), weights, true) == Some(scan)
    {
      var row := grid[i];
      var j := 0;
      CellsUpToStart(grid, i);
      while j < |row|
        invariant 0 <= j <= |row|
        invariant ScanAll(CellsUpTo(grid, i, j), weights, true) == Some(scan)
      {
        ScanNext(grid, i, j, weights, true, scan);
        var next := ReadCell(scan, weights, ((i, j), row[j]), true);
        if next.None? {
          StrictFailsEarly(grid, i, j + 1, weights);
          return None;
        }
        scan := next.value;
        j := j + 1;
      }
      CellsUpToRowEnd(grid, i);
      i := i + 1;
    }
    assert grid[..|grid|] == grid;
    if scan.used != |weights| {
      return None;
    }
    return Some(scan.found);
  }

  /** The body of one iteration of `simulate_solution`'s loop, once the
      letter is known to be a move: the wall test, the push tests and the
      case tests, in the original's order. */
  method MoveOnce(walls: set<Pos>, player: Pos, stones: map<Pos, int>, move: char, d: Dir, upper: bool)
    returns (res: StepResult)
    requires DecodeMove(move) == Some((d, upper))
    ensures res == ApplyMove(walls, Config(player, stones), move)
  {
    var newPos := Next(player, d);
    if newPos in walls {
      return Rejected(IntoWall);
    }
    if newPos in stones {
      var stoneWeight := stones[newPos];
      var nextPos := Next(newPos, d);
      if nextPos in walls || nextPos in stones {
        return Rejected(PushBlocked);
      }
      if !upper {
        return Rejected(LowercasePush);
      }
      return Moved(Config(newPos, MoveStone(stones, newPos, nextPos)), stoneWeight);
    }
    if upper {
      return Rejected(UppercaseWalk);
    }
    return Moved(Config(newPos, stones), 0);
  }

  /** `simulate_solution`: replays the moves on a copy of the stones,
      stopping at the first illegal one, then applies the goal test. */
  method SimulateSolution(p: Puzzle, solution: string) returns (r: Verdict)
    ensures r == Simulate(p, solution)
  {
    var playerPos := p.player;
    var stones := p.stones;
    var totalSumWeight := 0;
    var idx := 0;
    while idx < |solution|
      invariant 0 <= idx <= |solution|
      invariant playerPos.Some? <==> p.player.Some?
      invariant playerPos.None? ==> idx == 0 && totalSumWeight == 0 && stones == p.stones
      invariant p.player.Some? ==>
                  Replay(p.walls, Config(p.player.value, p.stones), solution[..idx]) ==
                  Completed(Config(playerPos.value, stones), totalSumWeight)
    {
      var move := solution[idx];
      var offset := DecodeMove(move);
      if offset.None? {
        if p.player.Some? {
          ReplayStep(p.walls, Config(p.player.value, p.stones), solution, idx, Config(playerPos.value, stones), totalSumWeight);
        }
        return Verdict(false, totalSumWeight);
      }
      if playerPos.None? {
        return Crashed;
      }
      var step := MoveOnce(p.walls, playerPos.value, stones, move, offset.value.0, offset.value.1);
      ReplayStep(p.walls, Config(p.player.value, p.stones), solution, idx, Config(playerPos.value, stones), totalSumWeight);
      if step.Rejected? {
        return Verdict(false, totalSumWeight);
      }
      playerPos := Some(step.next.player);
      stones := step.next.stones;
      totalSumWeight := totalSumWeight + step.cost;
      idx := idx + 1;
    }
    assert solution[..idx] == solution;
    return Verdict(stones.Keys == p.switches, totalSumWeight);
  }

  /** A letter outside u, d, l, r, U, D, L, R makes the replay fail at
      that step, reporting the weight pushed before it. */
  lemma InvalidLetterFails(p: Puzzle, solution: string, k: nat)
    requires p.player.Some? && k < |solution| && !IsMoveLetter(solution[k])
    requires Replay(p.walls, Config(p.player.value, p.stones), solution[..k]).Completed?
    ensures Simulate(p, solution) ==
            Verdict(false, Replay(p.walls, Config(p.player.value, p.stones), solution[..k]).weight)
  {
    var start := Config(p.player.value, p.stones);
    var before := Replay(p.walls, start, solution[..k]);
    MoveFacts(p.walls, before.final, solution[k]);
    ReplayRejected(p.walls, start, solution, k, before.final, before.weight, InvalidMove);
  }

  /** A replay that uses walks only never changes the stones and reports
      weight 0, whether or not it ends on the switches. */
  lemma WalksOnlyWeighNothing(p: Puzzle, solution: string)
    requires p.player.Some?
    requires forall k :: 0 <= k < |solution| ==> solution[k] in "udlr"
    ensures Simulate(p, solution).Verdict? && Simulate(p, solution).weight == 0
  {
    var start := Config(p.player.value, p.stones);
    var r := Replay(p.walls, start, solution);
    forall k | 0 <= k < |solution|
      ensures DecodeMove(solution[k]).Some? && !DecodeMove(solution[k]).value.1
    {
      assert solution[k] in "udlr";
    }
    if r.Completed? {
      WalksMoveNoStone(p.walls, start, solution);
    } else {
      ReplayStopsAtFirstIllegal(p.walls, start, solution);
      var before := solution[..r.step];
      forall k | 0 <= k < |before|
        ensures DecodeMove(before[k]).Some? && !DecodeMove(before[k]).value.1
      {
        assert before[k] == solution[k];
      }
      WalksMoveNoStone(p.walls, start, before);
    }
  }
}
