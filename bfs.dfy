/** Breadth-first search (BFS.py): a FIFO queue of entries, a set of
    seen keys marked when an entry is queued, and a goal test when an
    entry is dequeued. Because every queued entry is one move longer
    than the entry it came from and the queue is first in, first out,
    the first goal dequeued has a shortest solution. */
module Bfs {
  import opened Rules
  import opened GridScan
  import opened Bounded
  import opened Frontier
  import Checker

  /** Path lengths along the queue never decrease and differ by at most
      one. */
  predicate Fifo(queue: seq<Entry>) {
    && (forall i, j :: 0 <= i <= j < |queue| ==> |queue[i].path| <= |queue[j].path|)
    && (forall j :: 0 <= j < |queue| ==> |queue[j].path| <= |queue[0].path| + 1)
  }

  /** Every seen key is queued or expanded, and `dist` records the path
      length it was reached with. */
  ghost predicate Ledger(queue: seq<Entry>, visited: set<Key>, done: set<Entry>, dist: map<Key, nat>) {
    && visited == KeysOf(queue) + ExpandedKeys(done)
    && visited == dist.Keys
    && (forall i :: 0 <= i < |queue| ==> KeyOf(queue[i].cfg) in dist && dist[KeyOf(queue[i].cfg)] == |queue[i].path|)
    && (forall x :: x in done ==> KeyOf(x.cfg) in dist && dist[KeyOf(x.cfg)] == |x.path|)
  }

  /** Every move from an expanded entry reaches a key seen at most one
      move further away. */
  ghost predicate ClosedWithin(walls: set<Pos>, done: set<Entry>, dist: map<Key, nat>) {
    forall x, ch :: x in done && ApplyMove(walls, x.cfg, ch).Moved? ==>
      KeyOf(ApplyMove(walls, x.cfg, ch).next) in dist && dist[KeyOf(ApplyMove(walls, x.cfg, ch).next)] <= |x.path| + 1
  }

  ghost predicate Behind(queue: seq<Entry>, done: set<Entry>) {
    queue != [] ==> forall x :: x in done ==> |x.path| <= |queue[0].path|
  }

  ghost predicate Inv(walls: set<Pos>, switches: set<Pos>, start: Config, cells: set<Pos>, ws: set<int>,
                      queue: seq<Entry>, visited: set<Key>, done: set<Entry>, dist: map<Key, nat>, nodes: nat) {
    && AllSound(walls, start, cells, ws, queue)
    && Fifo(queue)
    && Ledger(queue, visited, done, dist)
    && ClosedWithin(walls, done, dist)
    && Behind(queue, done)
    && NoGoalDone(switches, done)
    && KeyOf(start) in dist && dist[KeyOf(start)] == 0
    && nodes + 1 == |visited|
    && visited <= AllKeys(cells, ws)
  }

  /** The distances after an expansion at depth `d - 1`. */
  function DistAfter(dist: map<Key, nat>, added: seq<Entry>, d: nat): map<Key, nat> {
    dist + map k | k in KeysOf(added) :: d
  }

  lemma KeysOfPop(queue: seq<Entry>)
    requires queue != []
    ensures KeysOf(queue) == {KeyOf(queue[0].cfg)} + KeysOf(queue[1..])
  {
    assert queue == [queue[0]] + queue[1..];
    KeysOfConcat([queue[0]], queue[1..]);
    assert KeysOf([queue[0]]) == {KeyOf(queue[0].cfg)};
  }

  /** Dequeuing the head and appending its successors keeps the entries
      replayable and confined. */
  lemma StepAllSound(walls: set<Pos>, start: Config, cells: set<Pos>, ws: set<int>, queue: seq<Entry>,
                    visited: set<Key>, added: seq<Entry>)
    requires AllSound(walls, start, cells, ws, queue) && queue != []
    requires Successors(walls, start, cells, ws, queue[0], visited, added)
    ensures AllSound(walls, start, cells, ws, queue[1..] + added)
  {
    var q' := queue[1..] + added;
    forall i | 0 <= i < |q'| ensures Sound(walls, start, q'[i]) && Confined(walls, cells, ws, q'[i].cfg) {
      if i < |queue| - 1 { assert q'[i] == queue[i + 1]; } else { assert q'[i] in added; }
    }
  }

  lemma StepFifo(queue: seq<Entry>, added: seq<Entry>)
    requires Fifo(queue) && queue != []
    requires forall x :: x in added ==> |x.path| == |queue[0].path| + 1
    ensures Fifo(queue[1..] + added)
  {
    var q' := queue[1..] + added;
    forall i | 0 <= i < |q'| ensures |queue[0].path| <= |q'[i].path| <= |queue[0].path| + 1 {
      if i < |queue| - 1 { assert q'[i] == queue[i + 1]; } else { assert q'[i] in added; }
    }
    forall i, j | 0 <= i <= j < |q'| ensures |q'[i].path| <= |q'[j].path| {
      if j < |queue| - 1 {
        assert q'[i] == queue[i + 1] && q'[j] == queue[j + 1];
      } else if i >= |queue| - 1 {
        assert q'[i] in added && q'[j] in added;
      }
    }
  }

  /** The seen keys after one expansion: the head moves from the queue
      to the expanded set and the added entries join the queue. */
  lemma StepKeys(queue: seq<Entry>, visited: set<Key>, done: set<Entry>, added: seq<Entry>)
    requires visited == KeysOf(queue) + ExpandedKeys(done) && queue != []
    ensures visited + KeysOf(added) == KeysOf(queue[1..] + added) + ExpandedKeys(done + {queue[0]})
  {
    KeysOfPop(queue);
    KeysOfConcat(queue[1..], added);
    assert ExpandedKeys(done + {queue[0]}) == ExpandedKeys(done) + {KeyOf(queue[0].cfg)};
  }

  /** The ledger after one expansion: old keys keep their distances and
      the added keys get one more than the head's. */
  lemma StepDist(queue: seq<Entry>, visited: set<Key>, done: set<Entry>, dist: map<Key, nat>, added: seq<Entry>)
    requires Ledger(queue, visited, done, dist) && queue != []
    requires forall k :: k in KeysOf(added) ==> k !in visited
    requires forall x :: x in added ==> |x.path| == |queue[0].path| + 1
    ensures Ledger(queue[1..] + added, visited + KeysOf(added), done + {queue[0]},
                   DistAfter(dist, added, |queue[0].path| + 1))
  {
    StepKeys(queue, visited, done, added);
    var dist' := DistAfter(dist, added, |queue[0].path| + 1);
    var q' := queue[1..] + added;
    assert forall k :: k in visited ==> k in dist' && dist'[k] == dist[k];
    forall i | 0 <= i < |q'| ensures KeyOf(q'[i].cfg) in dist' && dist'[KeyOf(q'[i].cfg)] == |q'[i].path| {
      if i < |queue| - 1 {
        assert q'[i] == queue[i + 1];
      } else {
        assert q'[i] == added[i - (|queue| - 1)];
        assert KeyOf(q'[i].cfg) in KeysOf(added);
      }
    }
  }

  /** The closure after one expansion: the moves from the expanded head
      reach keys queued at most one move deeper. */
  lemma StepClosed(walls: set<Pos>, queue: seq<Entry>, visited: set<Key>, done: set<Entry>, dist: map<Key, nat>,
                   added: seq<Entry>)
    requires Ledger(queue, visited, done, dist) && Fifo(queue) && Behind(queue, done) && ClosedWithin(walls, done, dist)
    requires queue != []
    requires forall k :: k in KeysOf(added) ==> k !in visited
    requires forall ch :: ApplyMove(walls, queue[0].cfg, ch).Moved? ==>
               KeyOf(ApplyMove(walls, queue[0].cfg, ch).next) in visited + KeysOf(added)
    ensures ClosedWithin(walls, done + {queue[0]}, DistAfter(dist, added, |queue[0].path| + 1))
  {
    var e := queue[0];
    var dist' := DistAfter(dist, added, |e.path| + 1);
    assert forall k :: k in visited ==> k in dist' && dist'[k] == dist[k];
    forall x, ch | x in done + {e} && ApplyMove(walls, x.cfg, ch).Moved?
      ensures KeyOf(ApplyMove(walls, x.cfg, ch).next) in dist' &&
              dist'[KeyOf(ApplyMove(walls, x.cfg, ch).next)] <= |x.path| + 1
    {
      var k := KeyOf(ApplyMove(walls, x.cfg, ch).next);
      if x == e {
        if k in KeysOf(queue) {
          var j :| 0 <= j < |queue| && KeyOf(queue[j].cfg) == k;
        } else if k in ExpandedKeys(done) {
          var y :| y in done && KeyOf(y.cfg) == k;
        }
      }
    }
  }

  lemma StepBehind(queue: seq<Entry>, done: set<Entry>, added: seq<Entry>)
    requires Fifo(queue) && Behind(queue, done) && queue != []
    requires forall x :: x in added ==> |x.path| == |queue[0].path| + 1
    ensures Behind(queue[1..] + added, done + {queue[0]})
  {
    var q' := queue[1..] + added;
    if q' != [] {
      if |queue| > 1 { assert q'[0] == queue[1]; } else { assert q'[0] in added; }
    }
  }

  /** One iteration keeps the queue-side half of the invariant. */
  lemma StepQueue(walls: set<Pos>, switches: set<Pos>, start: Config, cells: set<Pos>, ws: set<int>,
                  queue: seq<Entry>, visited: set<Key>, done: set<Entry>, dist: map<Key, nat>, nodes: nat,
                  added: seq<Entry>)
    requires Inv(walls, switches, start, cells, ws, queue, visited, done, dist, nodes) && queue != []
    requires Successors(walls, start, cells, ws, queue[0], visited, added)
    ensures AllSound(walls, start, cells, ws, queue[1..] + added)
    ensures Fifo(queue[1..] + added)
    ensures Ledger(queue[1..] + added, visited + KeysOf(added), done + {queue[0]},
                   DistAfter(dist, added, |queue[0].path| + 1))
    ensures Behind(queue[1..] + added, done + {queue[0]})
  {
    StepAllSound(walls, start, cells, ws, queue, visited, added);
    StepFifo(queue, added);
    StepDist(queue, visited, done, dist, added);
    StepBehind(queue, done, added);
  }

  /** One iteration keeps the rest of the invariant, and the count of
      seen keys stays below the size of the universe. */
  lemma StepRest(walls: set<Pos>, switches: set<Pos>, start: Config, cells: set<Pos>, ws: set<int>,
                 queue: seq<Entry>, visited: set<Key>, done: set<Entry>, dist: map<Key, nat>, nodes: nat,
                 added: seq<Entry>)
    requires Ledger(queue, visited, done, dist) && Fifo(queue) && Behind(queue, done)
    requires ClosedWithin(walls, done, dist) && NoGoalDone(switches, done)
    requires KeyOf(start) in dist && dist[KeyOf(start)] == 0
    requires nodes + 1 == |visited| && visited <= AllKeys(cells, ws)
    requires queue != [] && !IsGoal(queue[0].cfg, switches)
    requires Successors(walls, start, cells, ws, queue[0], visited, added)
    ensures ClosedWithin(walls, done + {queue[0]}, DistAfter(dist, added, |queue[0].path| + 1))
    ensures NoGoalDone(switches, done + {queue[0]})
    ensures var dist' := DistAfter(dist, added, |queue[0].path| + 1);
            KeyOf(start) in dist' && dist'[KeyOf(start)] == 0
    ensures nodes + |added| + 1 == |visited + KeysOf(added)|
    ensures visited + KeysOf(added) <= AllKeys(cells, ws)
    ensures nodes + |added| < |AllKeys(cells, ws)|
  {
    StepClosed(walls, queue, visited, done, dist, added);
    StepCount(walls, cells, ws, visited, added);
    SubsetSmaller(visited + KeysOf(added), AllKeys(cells, ws));
  }

  /** A seen key recorded closer than the queue's head has been
      expanded. */
  lemma ShallowIsDone(queue: seq<Entry>, visited: set<Key>, done: set<Entry>, dist: map<Key, nat>, k: Key)
    requires Ledger(queue, visited, done, dist) && Fifo(queue) && queue != []
    requires k in visited && dist[k] < |queue[0].path|
    ensures k in ExpandedKeys(done)
  {
    assert k !in KeysOf(queue);
  }

  /** Along any legal replay shorter than the head's path, the i-th
      configuration is seen at distance at most i. */
  lemma {:induction false} ReachWithin(walls: set<Pos>, start: Config, queue: seq<Entry>, visited: set<Key>,
                                       done: set<Entry>, dist: map<Key, nat>, moves: string, i: nat)
    requires Ledger(queue, visited, done, dist) && Fifo(queue) && ClosedWithin(walls, done, dist) && queue != []
    requires KeyOf(start) in dist && dist[KeyOf(start)] == 0
    requires Replay(walls, start, moves).Completed? && |moves| < |queue[0].path| && i <= |moves|
    ensures Replay(walls, start, moves[..i]).Completed?
    ensures KeyOf(Replay(walls, start, moves[..i]).final) in dist
    ensures dist[KeyOf(Replay(walls, start, moves[..i]).final)] <= i
  {
    ReplayPrefix(walls, start, moves, i);
    if i > 0 {
      ReachWithin(walls, start, queue, visited, done, dist, moves, i - 1);
      var before := Replay(walls, start, moves[..i - 1]);
      var c := before.final;
      ReplayStep(walls, start, moves, i - 1, c, before.weight);
      if ApplyMove(walls, c, moves[i - 1]).Rejected? {
        assert false;
      }
      ReachOneMore(walls, queue, visited, done, dist, c, moves[i - 1]);
    }
  }

  /** A legal move out of a configuration seen closer than the queue's
      head reaches a key seen at most one move further. */
  lemma ReachOneMore(walls: set<Pos>, queue: seq<Entry>, visited: set<Key>, done: set<Entry>, dist: map<Key, nat>,
                     c: Config, ch: char)
    requires Ledger(queue, visited, done, dist) && Fifo(queue) && ClosedWithin(walls, done, dist) && queue != []
    requires KeyOf(c) in dist && dist[KeyOf(c)] < |queue[0].path|
    requires ApplyMove(walls, c, ch).Moved?
    ensures KeyOf(ApplyMove(walls, c, ch).next) in dist
    ensures dist[KeyOf(ApplyMove(walls, c, ch).next)] <= dist[KeyOf(c)] + 1
  {
    ShallowIsDone(queue, visited, done, dist, KeyOf(c));
    var x :| x in done && KeyOf(x.cfg) == KeyOf(c);
    KeyOfCanonical(x.cfg, c);
  }

  /** The first goal dequeued has a shortest solution. */
  lemma Shortest(walls: set<Pos>, switches: set<Pos>, start: Config, cells: set<Pos>, ws: set<int>,
                 queue: seq<Entry>, visited: set<Key>, done: set<Entry>, dist: map<Key, nat>, nodes: nat)
    requires Inv(walls, switches, start, cells, ws, queue, visited, done, dist, nodes) && queue != []
    ensures forall moves :: Solves(walls, switches, start, moves) ==> |queue[0].path| <= |moves|
  {
    forall moves | Solves(walls, switches, start, moves) ensures |queue[0].path| <= |moves| {
      if |moves| < |queue[0].path| {
        ReachWithin(walls, start, queue, visited, done, dist, moves, |moves|);
        assert moves[..|moves|] == moves;
        var c := Replay(walls, start, moves).final;
        ShallowIsDone(queue, visited, done, dist, KeyOf(c));
        var x :| x in done && KeyOf(x.cfg) == KeyOf(c);
        KeyOfCanonical(x.cfg, c);
      }
    }
  }

  /** One expansion of the queue's head keeps the ledger invariant and
      counts one more node inside the finite universe. */
  lemma Step(walls: set<Pos>, switches: set<Pos>, start: Config, cells: set<Pos>, ws: set<int>,
             queue: seq<Entry>, visited: set<Key>, done: set<Entry>, dist: map<Key, nat>, nodes: nat)
    requires Enclosed(walls, cells)
    requires Inv(walls, switches, start, cells, ws, queue, visited, done, dist, nodes)
    requires queue != [] && !IsGoal(queue[0].cfg, switches)
    ensures var f := Fresh(visited, Attempts(walls, queue[0]));
            && Inv(walls, switches, start, cells, ws, queue[1..] + f, visited + KeysOf(f), done + {queue[0]},
                   DistAfter(dist, f, |queue[0].path| + 1), nodes + |f|)
            && nodes + |f| < |AllKeys(cells, ws)|
  {
    var f := Fresh(visited, Attempts(walls, queue[0]));
    assert Sound(walls, start, queue[0]) && Confined(walls, cells, ws, queue[0].cfg);
    FreshAreSuccessors(walls, start, cells, ws, queue[0], visited);
    StepQueue(walls, switches, start, cells, ws, queue, visited, done, dist, nodes, f);
    StepRest(walls, switches, start, cells, ws, queue, visited, done, dist, nodes, f);
  }

  /** A goal at the queue's head is accepted by the validator with its
      weight, and no solution is shorter. */
  lemma Accepted(walls: set<Pos>, switches: set<Pos>, start: Config, cells: set<Pos>, ws: set<int>,
                 queue: seq<Entry>, visited: set<Key>, done: set<Entry>, dist: map<Key, nat>, nodes: nat)
    requires Inv(walls, switches, start, cells, ws, queue, visited, done, dist, nodes)
    requires queue != [] && IsGoal(queue[0].cfg, switches)
    ensures Checker.Simulate(Puzzle(Some(start.player), start.stones, switches, walls), queue[0].path) ==
            Checker.Verdict(true, queue[0].weight)
    ensures forall moves :: Solves(walls, switches, start, moves) ==> |queue[0].path| <= |moves|
  {
    Shortest(walls, switches, start, cells, ws, queue, visited, done, dist, nodes);
    assert Sound(walls, start, queue[0]);
  }

  /** Once the queue is empty every configuration the validator reaches
      from the start has been expanded, and none of them is a goal. */
  lemma Exhausted(walls: set<Pos>, switches: set<Pos>, start: Config, cells: set<Pos>, ws: set<int>,
                  visited: set<Key>, done: set<Entry>, dist: map<Key, nat>, nodes: nat)
    requires Inv(walls, switches, start, cells, ws, [], visited, done, dist, nodes)
    ensures forall moves :: Replay(walls, start, moves).Completed? ==>
              KeyOf(Replay(walls, start, moves).final) in visited && !IsGoal(Replay(walls, start, moves).final, switches)
  {
    assert KeysOf([]) == {};
    assert ClosedUnderMoves(walls, done, ExpandedKeys(done));
    forall moves | Replay(walls, start, moves).Completed?
      ensures KeyOf(Replay(walls, start, moves).final) in visited && !IsGoal(Replay(walls, start, moves).final, switches)
    {
      ClosedReach(walls, start, done, moves);
      var c := Replay(walls, start, moves).final;
      var x :| x in done && KeyOf(x.cfg) == KeyOf(c);
      KeyOfCanonical(x.cfg, c);
    }
  }

  /** The search starts with the start entry queued and seen at distance
      0, and nothing expanded. */
  lemma Init(walls: set<Pos>, switches: set<Pos>, start: Config, cells: set<Pos>)
    requires Confined(walls, cells, WeightsOf(start.stones), start)
    ensures Inv(walls, switches, start, cells, WeightsOf(start.stones), [Entry(start, "", 0)], {KeyOf(start)}, {},
                map[KeyOf(start) := 0], 0)
    ensures 0 < |AllKeys(cells, WeightsOf(start.stones))|
  {
    var queue := [Entry(start, "", 0)];
    InitLedger(start);
    assert AllSound(walls, start, cells, WeightsOf(start.stones), queue) by {
      assert Replay(walls, start, "") == Completed(start, 0);
    }
    assert Fifo(queue) && ClosedWithin(walls, {}, map[KeyOf(start) := 0]) && Behind(queue, {});
    ConfinedInUniverse(walls, cells, WeightsOf(start.stones), start);
    SubsetSmaller({KeyOf(start)}, AllKeys(cells, WeightsOf(start.stones)));
  }

  lemma InitLedger(start: Config)
    ensures Ledger([Entry(start, "", 0)], {KeyOf(start)}, {}, map[KeyOf(start) := 0])
  {
    var queue := [Entry(start, "", 0)];
    assert KeyOf(queue[0].cfg) in KeysOf(queue);
    assert KeysOf(queue) == {KeyOf(start)};
    assert ExpandedKeys({}) == {};
  }

  /** `bfs`. The result is a solution the validator accepts with the
      reported weight, no solution is shorter, and an empty queue means
      that no solution exists. `reached` is the set of seen keys: it
      holds the start, one key per counted node, and, when the queue
      runs dry, every configuration reachable from the start. */
  method Bfs(walls: set<Pos>, switches: set<Pos>, start: Config, ghost cells: set<Pos>)
    returns (r: SearchResult, ghost reached: set<Key>)
    requires Enclosed(walls, cells) && Confined(walls, cells, WeightsOf(start.stones), start)
    ensures r.Found? ==>
              Checker.Simulate(Puzzle(Some(start.player), start.stones, switches, walls), r.path) ==
              Checker.Verdict(true, r.weight)
    ensures r.Found? ==> forall moves :: Solves(walls, switches, start, moves) ==> |r.path| <= |moves|
    ensures r.NoSolution? ==> forall moves :: !Solves(walls, switches, start, moves)
    ensures r.NoSolution? ==> forall moves :: Replay(walls, start, moves).Completed? ==>
              KeyOf(Replay(walls, start, moves).final) in reached
    ensures KeyOf(start) in reached && r.nodes + 1 == |reached|
    ensures forall k :: k in reached ==> Reachable(walls, start, k)
  {
    ghost var ws := WeightsOf(start.stones);
    var queue := [Entry(start, "", 0)];
    var visited := {KeyOf(start)};
    var nodes := 0;
    ghost var done: set<Entry> := {};
    ghost var dist: map<Key, nat> := map[KeyOf(start) := 0];
    ghost var universe := AllKeys(cells, ws);
    Init(walls, switches, start, cells);
    while queue != []
      invariant Inv(walls, switches, start, cells, ws, queue, visited, done, dist, nodes)
      invariant nodes < |universe| && DoneSound(walls, start, done)
      decreases 2 * (|universe| - nodes) + |queue|
    {
      var e := queue[0];
      DoneGrows(walls, start, cells, ws, queue, 0, done);
      if e.cfg.stones.Keys == switches {
        Accepted(walls, switches, start, cells, ws, queue, visited, done, dist, nodes);
        SeenReachable(walls, start, cells, ws, queue, done, visited);
        return Found(e.path, e.weight, nodes), visited;
      }
      ghost var f := Fresh(visited, Attempts(walls, e));
      Step(walls, switches, start, cells, ws, queue, visited, done, dist, nodes);
      queue, visited, nodes := Expand(walls, e, queue[1..], visited, nodes);
      done := done + {e};
      dist := DistAfter(dist, f, |e.path| + 1);
    }
    Exhausted(walls, switches, start, cells, ws, visited, done, dist, nodes);
    SeenReachable(walls, start, cells, ws, queue, done, visited);
    return NoSolution(nodes), visited;
  }

  /** The script's pipeline: read the grid leniently and search. With no
      agent on the grid, a start that is already a goal is reported with
      the empty path, and otherwise the original fails reading the
      agent's coordinates (None here). The search relies on the grid
      being enclosed by walls. */
  method Solve(grid: Grid, weights: seq<int>) returns (r: Option<SearchResult>)
    requires Enclosed(LenientParse(grid, weights).walls, GridPositions(grid))
    ensures var p := LenientParse(grid, weights);
            && (r.None? <==> p.player.None? && p.stones.Keys != p.switches)
            && (r.Some? && r.value.Found? ==> Checker.Simulate(p, r.value.path) == Checker.Verdict(true, r.value.weight))
            && (r.Some? && r.value.Found? && p.player.Some? ==>
                  forall moves :: Solves(p.walls, p.switches, Config(p.player.value, p.stones), moves) ==>
                    |r.value.path| <= |moves|)
            && (r.Some? && r.value.NoSolution? ==>
                  p.player.Some? && forall moves :: !Solves(p.walls, p.switches, Config(p.player.value, p.stones), moves))
  {
    var p := ParseGrid(grid, weights);
    if p.player.None? {
      if p.stones.Keys == p.switches {
        return Some(Found("", 0, 0));
      }
      return None;
    }
    ParseWithinGrid(grid, weights, false);
    var start := Config(p.player.value, p.stones);
    var result, _ := Bfs(p.walls, p.switches, start, GridPositions(grid));
    return Some(result);
  }
}
