/** Depth-first search (DFS.py): the same expansion as the breadth-first
    search, but the pending entries form a stack and the most recently
    pushed entry is expanded first. The result is a solution the validator
    accepts, not necessarily a shortest one; when the stack runs dry no
    solution exists. */
module Dfs {
  import opened Rules
  import opened GridScan
  import opened Bounded
  import opened Frontier
  import Checker

  /** The entries below the top of a stack. */
  function Pop(stack: seq<Entry>): (rest: seq<Entry>)
    requires stack != []
    ensures stack == rest + [stack[|stack| - 1]]
  {
    stack[..|stack| - 1]
  }

  /** The loop invariant of `dfs`: pending entries are replayable, the
      seen keys are exactly those pending or expanded, every move from an
      expanded entry leads to a seen key, no expanded entry is a goal, and
      `nodes` counts the seen keys other than the start's. */
  ghost predicate Inv(walls: set<Pos>, switches: set<Pos>, start: Config, cells: set<Pos>, ws: set<int>,
                      stack: seq<Entry>, visited: set<Key>, done: set<Entry>, nodes: nat) {
    && AllSound(walls, start, cells, ws, stack)
    && visited == KeysOf(stack) + ExpandedKeys(done)
    && ClosedUnderMoves(walls, done, visited)
    && NoGoalDone(switches, done)
    && KeyOf(start) in visited
    && nodes + 1 == |visited|
    && visited <= AllKeys(cells, ws)
  }

  lemma StepSound(walls: set<Pos>, start: Config, cells: set<Pos>, ws: set<int>, stack: seq<Entry>,
                  visited: set<Key>, added: seq<Entry>)
    requires AllSound(walls, start, cells, ws, stack) && stack != []
    requires Successors(walls, start, cells, ws, stack[|stack| - 1], visited, added)
    ensures AllSound(walls, start, cells, ws, Pop(stack) + added)
  {
    var s' := Pop(stack) + added;
    forall i | 0 <= i < |s'| ensures Sound(walls, start, s'[i]) && Confined(walls, cells, ws, s'[i].cfg) {
      if i < |stack| - 1 { assert s'[i] == stack[i]; } else { assert s'[i] in added; }
    }
  }

  lemma StepSeen(stack: seq<Entry>, visited: set<Key>, done: set<Entry>, added: seq<Entry>)
    requires stack != [] && visited == KeysOf(stack) + ExpandedKeys(done)
    ensures visited + KeysOf(added) == KeysOf(Pop(stack) + added) + ExpandedKeys(done + {stack[|stack| - 1]})
  {
    var e := stack[|stack| - 1];
    KeysOfSnoc(Pop(stack), e);
    KeysOfConcat(Pop(stack), added);
    assert ExpandedKeys(done + {e}) == ExpandedKeys(done) + {KeyOf(e.cfg)};
  }

  lemma StepClosed(walls: set<Pos>, visited: set<Key>, done: set<Entry>, e: Entry, added: seq<Entry>)
    requires ClosedUnderMoves(walls, done, visited)
    requires forall ch :: ApplyMove(walls, e.cfg, ch).Moved? ==>
               KeyOf(ApplyMove(walls, e.cfg, ch).next) in visited + KeysOf(added)
    ensures ClosedUnderMoves(walls, done + {e}, visited + KeysOf(added))
  {
  }

  /** One expansion of the top of the stack keeps the invariant and counts
      one more node inside the finite universe. */
  lemma Step(walls: set<Pos>, switches: set<Pos>, start: Config, cells: set<Pos>, ws: set<int>,
             stack: seq<Entry>, visited: set<Key>, done: set<Entry>, nodes: nat)
    requires Enclosed(walls, cells)
    requires Inv(walls, switches, start, cells, ws, stack, visited, done, nodes)
    requires stack != [] && !IsGoal(stack[|stack| - 1].cfg, switches)
    ensures var e := stack[|stack| - 1];
            var f := Fresh(visited, Attempts(walls, e));
            && Inv(walls, switches, start, cells, ws, Pop(stack) + f, visited + KeysOf(f), done + {e}, nodes + |f|)
            && nodes + |f| < |AllKeys(cells, ws)|
  {
    var e := stack[|stack| - 1];
    var f := Fresh(visited, Attempts(walls, e));
    assert Sound(walls, start, e) && Confined(walls, cells, ws, e.cfg);
    FreshAreSuccessors(walls, start, cells, ws, e, visited);
    StepSound(walls, start, cells, ws, stack, visited, f);
    StepSeen(stack, visited, done, f);
    StepClosed(walls, visited, done, e, f);
    StepCount(walls, cells, ws, visited, f);
    SubsetSmaller(visited + KeysOf(f), AllKeys(cells, ws));
  }

  /** A replayable entry that is a goal is accepted by the validator with
      its weight. */
  lemma Accepted(walls: set<Pos>, switches: set<Pos>, start: Config, e: Entry)
    requires Sound(walls, start, e) && IsGoal(e.cfg, switches)
    ensures Checker.Simulate(Puzzle(Some(start.player), start.stones, switches, walls), e.path) ==
            Checker.Verdict(true, e.weight)
  {
  }

  /** Once the stack is empty every configuration the validator reaches
      from the start has been expanded, and none of them is a goal. */
  lemma Exhausted(walls: set<Pos>, switches: set<Pos>, start: Config, cells: set<Pos>, ws: set<int>,
                  visited: set<Key>, done: set<Entry>, nodes: nat)
    requires Inv(walls, switches, start, cells, ws, [], visited, done, nodes)
    ensures forall moves :: Replay(walls, start, moves).Completed? ==>
              KeyOf(Replay(walls, start, moves).final) in visited && !IsGoal(Replay(walls, start, moves).final, switches)
  {
    assert KeysOf([]) == {};
    forall moves | Replay(walls, start, moves).Completed?
      ensures KeyOf(Replay(walls, start, moves).final) in visited && !IsGoal(Replay(walls, start, moves).final, switches)
    {
      ClosedReach(walls, start, done, moves);
      var c := Replay(walls, start, moves).final;
      var x :| x in done && KeyOf(x.cfg) == KeyOf(c);
      KeyOfCanonical(x.cfg, c);
    }
  }

  /** `dfs`. The result is a solution the validator accepts with the
      reported weight, or the report that none exists; `reached` holds the
      start, one key per counted node, and, when the stack runs dry,
      every configuration reachable from the start. */
  method Dfs(walls: set<Pos>, switches: set<Pos>, start: Config, ghost cells: set<Pos>)
    returns (r: SearchResult, ghost reached: set<Key>)
    requires Enclosed(walls, cells) && Confined(walls, cells, WeightsOf(start.stones), start)
    ensures r.Found? ==>
              Checker.Simulate(Puzzle(Some(start.player), start.stones, switches, walls), r.path) ==
              Checker.Verdict(true, r.weight)
    ensures r.NoSolution? ==> forall moves :: !Solves(walls, switches, start, moves)
    ensures r.NoSolution? ==> forall moves :: Replay(walls, start, moves).Completed? ==>
              KeyOf(Replay(walls, start, moves).final) in reached
    ensures KeyOf(start) in reached && r.nodes + 1 == |reached|
    ensures forall k :: k in reached ==> Reachable(walls, start, k)
  {
    ghost var ws := WeightsOf(start.stones);
    var stack := [Entry(start, "", 0)];
    var visited := {KeyOf(start)};
    var nodes := 0;
    ghost var done: set<Entry> := {};
    assert KeyOf(stack[0].cfg) in KeysOf(stack);
    assert KeysOf(stack) == {KeyOf(start)};
    ghost var universe := AllKeys(cells, ws);
    ConfinedInUniverse(walls, cells, ws, start);
    SubsetSmaller(visited, universe);
    while stack != []
      invariant Inv(walls, switches, start, cells, ws, stack, visited, done, nodes)
      invariant nodes < |universe| && DoneSound(walls, start, done)
      decreases 2 * (|universe| - nodes) + |stack|
    {
      var e := stack[|stack| - 1];
      DoneGrows(walls, start, cells, ws, stack, |stack| - 1, done);
      if e.cfg.stones.Keys == switches {
        Accepted(walls, switches, start, e);
        SeenReachable(walls, start, cells, ws, stack, done, visited);
        return Found(e.path, e.weight, nodes), visited;
      }
      ghost var f := Fresh(visited, Attempts(walls, e));
      Step(walls, switches, start, cells, ws, stack, visited, done, nodes);
      stack, visited, nodes := Expand(walls, e, Pop(stack), visited, nodes);
      done := done + {e};
    }
    Exhausted(walls, switches, start, cells, ws, visited, done, nodes);
    SeenReachable(walls, start, cells, ws, stack, done, visited);
    return NoSolution(nodes), visited;
  }

  /** The script's pipeline: read the grid leniently and search depth
      first. With no agent on the grid, a start that is already a goal is
      reported with the empty path, and otherwise the original fails
      reading the agent's coordinates (None here). The search relies on
      the grid being enclosed by walls. */
  method Solve(grid: Grid, weights: seq<int>) returns (r: Option<SearchResult>)
    requires Enclosed(LenientParse(grid, weights).walls, GridPositions(grid))
    ensures var p := LenientParse(grid, weights);
            && (r.None? <==> p.player.None? && p.stones.Keys != p.switches)
            && (r.Some? && r.value.Found? ==> Checker.Simulate(p, r.value.path) == Checker.Verdict(true, r.value.weight))
            && (r.Some? && r.value.NoSolution? ==>
                  p.player.Some? && forall moves :: !Solves(p.walls, p.switches, Config(p.player.value, p.stones), moves))
  {
    var p := ParseGrid(grid, weights);
    if p.player.None? {
      if p.stones.Keys == p.switches {
        return Some(Found("", 0, 0));
      }
      return None;
    }
    ParseWithinGrid(grid, weights, false);
    var start := Config(p.player.value, p.stones);
    var result, _ := Dfs(p.walls, p.switches, start, GridPositions(grid));
    return Some(result);
  }
}
