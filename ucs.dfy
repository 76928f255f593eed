/** Uniform-cost search (UCS.py): a `State` object per search node, whose
    equality and hash look only at the agent and the stones, a priority
    queue ordered by accumulated weight and a ledger of the cheapest
    weight recorded per state, which discards stale pops. */
module UniformCost {
  import opened Rules
  import opened GridScan
  import opened Bounded
  import Checker

  /** What a `State` contributes to the search: the configuration, the
      move string and the accumulated weight. */
  datatype Node = Node(cfg: Config, move: string, weight: int)

  /** `reachedGoal`: every stone stands on a switch. Unlike the other
      solvers this is a subset test, so a switch may stay uncovered. */
  predicate AllOnSwitches(c: Config, switches: set<Pos>) {
    forall p :: p in c.stones ==> p in switches
  }

  /** `movePlayer` for one direction: a step onto a free cell is a walk
      (lower-case letter, no cost); a step onto a stone whose far cell is
      free is a push (upper-case letter, the stone's weight); anything else
      adds no neighbour. */
  function Neighbor(walls: set<Pos>, n: Node, d: Dir): Option<Node> {
    var attempt := Next(n.cfg.player, d);
    var newstone := Next(attempt, d);
    if attempt !in walls && (attempt !in n.cfg.stones || (newstone !in n.cfg.stones && newstone !in walls)) then
      if attempt in n.cfg.stones then
        Some(Node(Config(attempt, MoveStone(n.cfg.stones, attempt, newstone)), n.move + [PushLabel(d)],
                  n.weight + n.cfg.stones[attempt]))
      else
        Some(Node(Config(attempt, n.cfg.stones), n.move + [WalkLabel(d)], n.weight))
    else None
  }

  function OptSeq<T>(o: Option<T>): seq<T> {
    if o.Some? then [o.value] else []
  }

  /** `getNeighbors`: the neighbours for u, d, l, r, in that order. */
  function Neighbors(walls: set<Pos>, n: Node): seq<Node> {
    OptSeq(Neighbor(walls, n, Up)) + OptSeq(Neighbor(walls, n, Down)) +
    OptSeq(Neighbor(walls, n, Left)) + OptSeq(Neighbor(walls, n, Right))
  }

  /** A neighbour is exactly the solvers' walk or push in that direction,
      hence a move the validator accepts with the same cost, one letter
      longer. */
  lemma NeighborIsMove(walls: set<Pos>, n: Node, d: Dir)
    requires StonesOffWalls(walls, n.cfg.stones)
    ensures Neighbor(walls, n, d).Some? <==> Walk(walls, n.cfg, d).Some? || Push(walls, n.cfg, d).Some?
    ensures Neighbor(walls, n, d).Some? ==>
              var m := Neighbor(walls, n, d).value;
              var ch := m.move[|m.move| - 1];
              && m.move == n.move + [ch]
              && (ch == WalkLabel(d) || ch == PushLabel(d))
              && ApplyMove(walls, n.cfg, ch) == Moved(m.cfg, m.weight - n.weight)
  {
    if Next(n.cfg.player, d) in n.cfg.stones {
      NeighborPushes(walls, n, d);
    } else {
      NeighborWalks(walls, n, d);
    }
  }

  /** With a stone in front, the neighbour is the solvers' push. */
  lemma NeighborPushes(walls: set<Pos>, n: Node, d: Dir)
    requires StonesOffWalls(walls, n.cfg.stones) && Next(n.cfg.player, d) in n.cfg.stones
    ensures Walk(walls, n.cfg, d).None?
    ensures Neighbor(walls, n, d).Some? <==> Push(walls, n.cfg, d).Some?
    ensures Neighbor(walls, n, d).Some? ==>
              var m := Neighbor(walls, n, d).value;
              && m.move == n.move + [PushLabel(d)]
              && ApplyMove(walls, n.cfg, PushLabel(d)) == Moved(m.cfg, m.weight - n.weight)
  {
    SolverRuleIsValidatorRule(walls, n.cfg, d);
  }

  /** With no stone in front, the neighbour is the solvers' walk. */
  lemma NeighborWalks(walls: set<Pos>, n: Node, d: Dir)
    requires StonesOffWalls(walls, n.cfg.stones) && Next(n.cfg.player, d) !in n.cfg.stones
    ensures Push(walls, n.cfg, d).None?
    ensures Neighbor(walls, n, d).Some? <==> Walk(walls, n.cfg, d).Some?
    ensures Neighbor(walls, n, d).Some? ==>
              var m := Neighbor(walls, n, d).value;
              && m.move == n.move + [WalkLabel(d)]
              && ApplyMove(walls, n.cfg, WalkLabel(d)) == Moved(m.cfg, m.weight - n.weight)
  {
    SolverRuleIsValidatorRule(walls, n.cfg, d);
  }

  /** Where the neighbour in direction `d` sits in `Neighbors`. */
  function Offset(walls: set<Pos>, n: Node, d: Dir): nat {
    var a, b, c := |OptSeq(Neighbor(walls, n, Up))|, |OptSeq(Neighbor(walls, n, Down))|,
                   |OptSeq(Neighbor(walls, n, Left))|;
    match d
    case Up => 0
    case Down => a
    case Left => a + b
    case Right => a + b + c
  }

  lemma NeighborPosition(walls: set<Pos>, n: Node, d: Dir)
    requires Neighbor(walls, n, d).Some?
    ensures Offset(walls, n, d) < |Neighbors(walls, n)|
    ensures Neighbors(walls, n)[Offset(walls, n, d)] == Neighbor(walls, n, d).value
  {
    var a, b, c, e := OptSeq(Neighbor(walls, n, Up)), OptSeq(Neighbor(walls, n, Down)),
                      OptSeq(Neighbor(walls, n, Left)), OptSeq(Neighbor(walls, n, Right));
    assert Neighbors(walls, n) == a + b + c + e;
  }

  /** A move the validator accepts is the neighbour in its letter's
      direction, with the weight increased by the move's cost. */
  lemma MoveIsNeighbor(walls: set<Pos>, n: Node, ch: char)
    requires StonesOffWalls(walls, n.cfg.stones)
    requires ApplyMove(walls, n.cfg, ch).Moved?
    ensures var d := DecodeMove(ch).value.0;
            && Neighbor(walls, n, d).Some?
            && Neighbor(walls, n, d).value.cfg == ApplyMove(walls, n.cfg, ch).next
            && Neighbor(walls, n, d).value.weight == n.weight + ApplyMove(walls, n.cfg, ch).cost
  {
    ValidatorMovesAreSolverMoves(walls, n.cfg, ch);
  }

  /** Every move the validator accepts from a node's configuration is
      among its neighbours, with the weight increased by the move's cost. */
  lemma NeighborsComplete(walls: set<Pos>, n: Node, ch: char)
    requires StonesOffWalls(walls, n.cfg.stones)
    requires ApplyMove(walls, n.cfg, ch).Moved?
    ensures exists t :: 0 <= t < |Neighbors(walls, n)| &&
              Neighbors(walls, n)[t].cfg == ApplyMove(walls, n.cfg, ch).next &&
              Neighbors(walls, n)[t].weight == n.weight + ApplyMove(walls, n.cfg, ch).cost
  {
    var d := DecodeMove(ch).value.0;
    MoveIsNeighbor(walls, n, ch);
    NeighborPosition(walls, n, d);
    var t := Offset(walls, n, d);
    assert Neighbors(walls, n)[t] == Neighbor(walls, n, d).value;
  }

  /** Conversely, every neighbour is a move the validator accepts: the
      move string grows by that move's letter and the weight by its cost. */
  lemma NeighborsAreMoves(walls: set<Pos>, n: Node, t: nat)
    requires StonesOffWalls(walls, n.cfg.stones) && t < |Neighbors(walls, n)|
    ensures var m := Neighbors(walls, n)[t];
            exists ch :: m.move == n.move + [ch] && ApplyMove(walls, n.cfg, ch) == Moved(m.cfg, m.weight - n.weight)
  {
    var a, b, c, e := OptSeq(Neighbor(walls, n, Up)), OptSeq(Neighbor(walls, n, Down)),
                      OptSeq(Neighbor(walls, n, Left)), OptSeq(Neighbor(walls, n, Right));
    assert Neighbors(walls, n) == a + b + c + e;
    var d := if t < |a| then Up else if t < |a| + |b| then Down else if t < |a| + |b| + |c| then Left else Right;
    assert Neighbors(walls, n)[t] == Neighbor(walls, n, d).value;
    NeighborIsMove(walls, n, d);
  }

  /** At most four neighbours, each with the agent one cell away and the
      move string one letter longer. */
  lemma NeighborsAdjacent(walls: set<Pos>, n: Node)
    ensures |Neighbors(walls, n)| <= 4
    ensures forall m :: m in Neighbors(walls, n) ==>
              (exists d :: m.cfg.player == Next(n.cfg.player, d)) && |m.move| == |n.move| + 1
  {
    forall m | m in Neighbors(walls, n)
      ensures (exists d :: m.cfg.player == Next(n.cfg.player, d)) && |m.move| == |n.move| + 1
    {
      if m in OptSeq(Neighbor(walls, n, Up)) {
        assert m.cfg.player == Next(n.cfg.player, Up);
      } else if m in OptSeq(Neighbor(walls, n, Down)) {
        assert m.cfg.player == Next(n.cfg.player, Down);
      } else if m in OptSeq(Neighbor(walls, n, Left)) {
        assert m.cfg.player == Next(n.cfg.player, Left);
      } else {
        assert m.cfg.player == Next(n.cfg.player, Right);
      }
    }
  }

  /** `__lt__`: by accumulated weight, ties broken by move count. */
  predicate NodeLess(a: Node, b: Node) {
    if a.weight != b.weight then a.weight < b.weight else |a.move| < |b.move|
  }

  /** `__lt__` is a strict order, and two nodes are unordered exactly when
      they have the same weight and the same move count. */
  lemma NodeLessIsStrictOrder(a: Node, b: Node, c: Node)
    ensures !NodeLess(a, a)
    ensures NodeLess(a, b) ==> !NodeLess(b, a)
    ensures NodeLess(a, b) && NodeLess(b, c) ==> NodeLess(a, c)
    ensures !NodeLess(a, b) && !NodeLess(b, a) <==> a.weight == b.weight && |a.move| == |b.move|
  {
  }

  /** When there are as many stones as switches, the subset test is the
      equality test the validator applies. */
  lemma AllOnSwitchesIsGoal(c: Config, switches: set<Pos>)
    requires |c.stones| == |switches|
    ensures AllOnSwitches(c, switches) <==> IsGoal(c, switches)
  {
    if AllOnSwitches(c, switches) {
      assert c.stones.Keys <= switches;
      SubsetSmaller(c.stones.Keys, switches);
      if c.stones.Keys != switches {
        var q :| q in switches && q !in c.stones.Keys;
        SubsetSmaller(c.stones.Keys, switches - {q});
      }
    }
  }

  /** With fewer stones than switches the subset test accepts a
      configuration the validator rejects. */
  lemma AllOnSwitchesAcceptsUncoveredSwitch()
    ensures var c := Config((1, 1), map[(1, 2) := 1]);
            AllOnSwitches(c, {(1, 2), (1, 3)}) && !IsGoal(c, {(1, 2), (1, 3)})
  {
    var c := Config((1, 1), map[(1, 2) := 1]);
    assert (1, 3) !in c.stones.Keys;
  }

  /** The search node of UCS.py. Its fields never change after
      construction except `neighbors`, which `getNeighbors` rebuilds. */
  class State {
    const walls: set<Pos>
    const stones: map<Pos, int>
    const switches: set<Pos>
    const player: Pos
    const move: string
    const sumWeight: int
    const weights: seq<int>
    var neighbors: seq<State>

    constructor (walls: set<Pos>, stones: map<Pos, int>, switches: set<Pos>, player: Pos, move: string,
                 sumWeight: int, weights: seq<int>)
      ensures this.walls == walls && this.stones == stones && this.switches == switches
      ensures this.player == player && this.move == move && this.sumWeight == sumWeight
      ensures this.weights == weights && neighbors == []
    {
      this.walls := walls;
      this.stones := stones;
      this.switches := switches;
      this.player := player;
      this.move := move;
      this.sumWeight := sumWeight;
      this.weights := weights;
      neighbors := [];
    }

    function Cfg(): Config {
      Config(player, stones)
    }

    function View(): Node {
      Node(Cfg(), move, sumWeight)
    }

    /** `reachedGoal`. */
    predicate ReachedGoal() {
      AllOnSwitches(Cfg(), switches)
    }

    /** `__eq__`: the agent and the stone mapping, nothing else. */
    predicate Equals(other: State) {
      player == other.player && stones == other.stones
    }

    /** `__hash__`: the hashed tuple of the agent and the frozen stone
        items. */
    function Hash(): Key {
      KeyOf(Cfg())
    }

    /** `__lt__`. */
    predicate Less(other: State) {
      NodeLess(View(), other.View())
    }

    /** Equal states hash equally, and equal hashes mean equal states, so
        a dictionary keyed by states is a dictionary keyed by `Hash()`;
        neither looks at the moves or the weight. */
    lemma EqualsIsSameHash(other: State)
      ensures Equals(other) <==> Hash() == other.Hash()
      ensures Equals(other) <==> Cfg() == other.Cfg()
    {
      KeyOfCanonical(Cfg(), other.Cfg());
    }

    /** The same board: walls, switches and weights. */
    predicate SameBoard(other: State) {
      walls == other.walls && switches == other.switches && weights == other.weights
    }

    /** `ns` holds states on this board whose views are `want`. */
    ghost predicate Built(ns: seq<State>, want: seq<Node>) {
      |ns| == |want| &&
      forall i :: 0 <= i < |ns| ==> ns[i].SameBoard(this) && ns[i].View() == want[i]
    }

    lemma BuiltSnoc(ns: seq<State>, want: seq<Node>, s: State)
      requires Built(ns, want) && s.SameBoard(this)
      ensures Built(ns + [s], want + [s.View()])
    {
    }

    /** `movePlayer`, called with the cell next to the agent and the one
        beyond it in direction `d`, and `d`'s lower-case letter: appends
        the neighbour in that direction, if there is one, as a new state. */
    method MovePlayer(attempt: Pos, newstone: Pos, direction: char, ghost d: Dir, ghost want: seq<Node>)
      requires attempt == Next(player, d) && newstone == Next(attempt, d) && direction == WalkLabel(d)
      requires Built(neighbors, want)
      modifies this
      ensures Built(neighbors, want + OptSeq(Neighbor(walls, View(), d)))
      ensures neighbors[..|old(neighbors)|] == old(neighbors)
      ensures forall i :: |old(neighbors)| <= i < |neighbors| ==> fresh(neighbors[i])
    {
      UpperWalkIsPush(d);
      ghost var nb := Neighbor(walls, View(), d);
      if attempt !in walls {
        if attempt !in stones || (newstone !in stones && newstone !in walls) {
          var s;
          if attempt in stones {
            var weight := stones[attempt];
            var stonesCopy := MoveStone(stones, attempt, newstone);
            s := new State(walls, stonesCopy, switches, attempt, move + [Upper(direction)], sumWeight + weight, weights);
          } else {
            s := new State(walls, stones, switches, attempt, move + [direction], sumWeight, weights);
          }
          assert s.SameBoard(this) && s.View() == nb.value;
          BuiltSnoc(neighbors, want, s);
          neighbors := neighbors + [s];
          return;
        }
      }
      assert want + OptSeq(nb) == want;
    }

    /** `getNeighbors`: rebuilds `neighbors` from the four directions and
        returns it. */
    method GetNeighbors() returns (r: seq<State>)
      modifies this
      ensures r == neighbors && |r| == |Neighbors(walls, View())|
      ensures forall x :: x in r ==> fresh(x)
      ensures forall i :: 0 <= i < |r| ==>
                r[i].SameBoard(this) && r[i].View() == Neighbors(walls, View())[i]
    {
      var (x, y) := player;
      neighbors := [];
      ghost var n := View();
      ghost var want := [];
      MovePlayer((x - 1, y), (x - 2, y), 'u', Up, want);
      want := want + OptSeq(Neighbor(walls, n, Up));
      assert forall i :: 0 <= i < |neighbors| ==> fresh(neighbors[i]);
      MovePlayer((x + 1, y), (x + 2, y), 'd', Down, want);
      want := want + OptSeq(Neighbor(walls, n, Down));
      assert forall i :: 0 <= i < |neighbors| ==> fresh(neighbors[i]);
      MovePlayer((x, y - 1), (x, y - 2), 'l', Left, want);
      want := want + OptSeq(Neighbor(walls, n, Left));
      assert forall i :: 0 <= i < |neighbors| ==> fresh(neighbors[i]);
      MovePlayer((x, y + 1), (x, y + 2), 'r', Right, want);
      want := want + OptSeq(Neighbor(walls, n, Right));
      assert forall i :: 0 <= i < |neighbors| ==> fresh(neighbors[i]);
      assert want == Neighbors(walls, n) && Built(neighbors, want);
      return neighbors;
    }
  }

  /** What `ucs` returns: the goal state's moves and weight with the number
      of pops, or, when the queue runs dry, the shorter tuple that `Search`
      then fails to unpack. */
  datatype UcsResult = Found(path: string, weight: int, nodes: nat) | Exhausted

  /** The ledger `costs`, a dictionary keyed by states. Since a state's
      hash and equality look at its configuration only (`EqualsIsSameHash`),
      it is a map from configurations. */
  type Ledger = map<Config, int>

  /** A neighbour is worth queueing when the ledger has no weight for its
      state or a larger one than the neighbour's. */
  predicate Improves(costs: Ledger, s: State) {
    s.Cfg() !in costs || s.sumWeight < costs[s.Cfg()]
  }

  /** The entries the neighbour loop of `ucs` pushes, in order. */
  function Relaxed(costs: Ledger, ns: seq<State>): seq<(int, State)>
    decreases |ns|
  {
    if ns == [] then []
    else
      var s := ns[|ns| - 1];
      Relaxed(costs, ns[..|ns| - 1]) + (if Improves(costs, s) then [(s.sumWeight, s)] else [])
  }

  /** The pushed entries are exactly the neighbours that improve on the
      ledger, each with its weight as priority. */
  lemma {:induction false} RelaxedExactly(costs: Ledger, ns: seq<State>)
    ensures forall j :: 0 <= j < |Relaxed(costs, ns)| ==>
              && Relaxed(costs, ns)[j].1 in ns
              && Relaxed(costs, ns)[j].0 == Relaxed(costs, ns)[j].1.sumWeight
              && Improves(costs, Relaxed(costs, ns)[j].1)
    ensures forall t :: 0 <= t < |ns| && Improves(costs, ns[t]) ==> (ns[t].sumWeight, ns[t]) in Relaxed(costs, ns)
    decreases |ns|
  {
    if ns != [] {
      var pre, s := ns[..|ns| - 1], ns[|ns| - 1];
      assert ns == pre + [s];
      RelaxedExactly(costs, pre);
      var r, rp := Relaxed(costs, ns), Relaxed(costs, pre);
      forall j | 0 <= j < |r| ensures r[j].1 in ns && r[j].0 == r[j].1.sumWeight && Improves(costs, r[j].1) {
        if j < |rp| {
          assert r[j] == rp[j];
        }
      }
      forall t | 0 <= t < |ns| && Improves(costs, ns[t]) ensures (ns[t].sumWeight, ns[t]) in r {
        if t < |pre| {
          assert ns[t] == pre[t];
          var j :| 0 <= j < |rp| && rp[j] == (pre[t].sumWeight, pre[t]);
          assert r[j] == rp[j];
        } else {
          assert r[|r| - 1] == (s.sumWeight, s);
        }
      }
    }
  }

  /** The neighbour loop of `ucs`. */
  method PushNeighbors(pq: seq<(int, State)>, costs: Ledger, ns: seq<State>) returns (pq': seq<(int, State)>)
    ensures pq' == pq + Relaxed(costs, ns)
  {
    pq' := pq;
    for t := 0 to |ns|
      invariant pq' == pq + Relaxed(costs, ns[..t])
    {
      assert ns[..t + 1][..t] == ns[..t];
      var neighbor := ns[t];
      var neighborCost := neighbor.sumWeight;
      if neighbor.Cfg() !in costs || neighborCost < costs[neighbor.Cfg()] {
        pq' := pq' + [(neighborCost, neighbor)];
      }
    }
    assert ns[..|ns|] == ns;
  }

  /** `heappop`'s choice: an entry of least priority. */
  method PopMin(pq: seq<(int, State)>) returns (i: nat)
    requires pq != []
    ensures i < |pq| && forall j :: 0 <= j < |pq| ==> pq[i].0 <= pq[j].0
  {
    i := 0;
    for t := 1 to |pq|
      invariant i < t && forall j :: 0 <= j < t ==> pq[i].0 <= pq[j].0
    {
      if pq[t].0 < pq[i].0 {
        i := t;
      }
    }
  }

  /** A queued entry: the priority is the state's weight, the state is on
      the puzzle's board, its moves replay from the start to its
      configuration with that weight, and it stays in the enclosure. */
  ghost predicate Queued(walls: set<Pos>, switches: set<Pos>, start: Config, cells: set<Pos>, ws: set<int>,
                         p: (int, State)) {
    && p.0 == p.1.sumWeight
    && p.1.walls == walls && p.1.switches == switches
    && Replay(walls, start, p.1.move) == Completed(p.1.Cfg(), p.1.sumWeight)
    && Confined(walls, cells, ws, p.1.Cfg())
  }

  ghost predicate AllQueued(walls: set<Pos>, switches: set<Pos>, start: Config, cells: set<Pos>, ws: set<int>,
                            pq: seq<(int, State)>) {
    forall j :: 0 <= j < |pq| ==> Queued(walls, switches, start, cells, ws, pq[j])
  }

  /** Configuration `c` is accounted for at weight `b`: the ledger holds
      at most `b` for it, or it is queued with priority at most `b`. */
  ghost predicate Covered(pq: seq<(int, State)>, costs: Ledger, c: Config, b: int) {
    || (c in costs && costs[c] <= b)
    || exists j :: 0 <= j < |pq| && pq[j].1.Cfg() == c && pq[j].0 <= b
  }

  /** Every move out of a configuration in the ledger is accounted for at
      the ledger's weight plus the move's cost. */
  ghost predicate ClosedCover(walls: set<Pos>, pq: seq<(int, State)>, costs: Ledger) {
    forall x, ch :: x in costs && ApplyMove(walls, x, ch).Moved? ==>
      Covered(pq, costs, ApplyMove(walls, x, ch).next, costs[x] + ApplyMove(walls, x, ch).cost)
  }

  ghost predicate NoneRecordedOnSwitches(switches: set<Pos>, costs: Ledger) {
    forall x :: x in costs ==> !AllOnSwitches(x, switches)
  }

  /** No ledger weight exceeds a queued priority. */
  ghost predicate LedgerBelowQueue(pq: seq<(int, State)>, costs: Ledger) {
    forall x, j :: x in costs && 0 <= j < |pq| ==> costs[x] <= pq[j].0
  }

  /** The loop invariant of `ucs`: queued entries replay from the start;
      no configuration in the ledger has every stone on a switch; the start
      and every move out of the ledger are accounted for; ledger weights
      never exceed queued priorities; and the ledger stays inside the
      finite universe. Every configuration in the ledger has been
      expanded. */
  ghost predicate Inv(walls: set<Pos>, switches: set<Pos>, start: Config, cells: set<Pos>, ws: set<int>,
                      pq: seq<(int, State)>, costs: Ledger) {
    && AllQueued(walls, switches, start, cells, ws, pq)
    && ClosedCover(walls, pq, costs)
    && Covered(pq, costs, start, 0)
    && NoneRecordedOnSwitches(switches, costs)
    && LedgerBelowQueue(pq, costs)
    && costs.Keys <= AllConfigs(cells, ws)
  }

  /** Popping entry `i` keeps a configuration accounted for when the
      ledger then accounts for the popped one at the popped priority. */
  lemma CoveredKept(pq: seq<(int, State)>, costs: Ledger, i: nat, extra: seq<(int, State)>,
                    costs': Ledger, c: Config, b: int)
    requires i < |pq| && Covered(pq, costs, c, b)
    requires forall x :: x in costs ==> x in costs' && costs'[x] <= costs[x]
    requires pq[i].1.Cfg() in costs' && costs'[pq[i].1.Cfg()] <= pq[i].0
    ensures Covered(Without(pq, i) + extra, costs', c, b)
  {
    if !(c in costs && costs[c] <= b) {
      var j :| 0 <= j < |pq| && pq[j].1.Cfg() == c && pq[j].0 <= b;
      var pq' := Without(pq, i) + extra;
      if j < i {
        assert pq'[j] == pq[j];
      } else if j > i {
        assert pq'[j - 1] == pq[j];
      }
    }
  }

  /** A stale pop, whose configuration the ledger already holds at a
      weight no larger, keeps the invariant. */
  lemma Skip(walls: set<Pos>, switches: set<Pos>, start: Config, cells: set<Pos>, ws: set<int>,
             pq: seq<(int, State)>, costs: Ledger, i: nat)
    requires Inv(walls, switches, start, cells, ws, pq, costs) && i < |pq|
    requires pq[i].1.Cfg() in costs && costs[pq[i].1.Cfg()] <= pq[i].0
    ensures Inv(walls, switches, start, cells, ws, Without(pq, i), costs)
  {
    var pq' := Without(pq, i);
    assert pq' == Without(pq, i) + [];
    forall x, ch | x in costs && ApplyMove(walls, x, ch).Moved?
      ensures Covered(pq', costs, ApplyMove(walls, x, ch).next, costs[x] + ApplyMove(walls, x, ch).cost)
    {
      CoveredKept(pq, costs, i, [], costs, ApplyMove(walls, x, ch).next, costs[x] + ApplyMove(walls, x, ch).cost);
    }
    CoveredKept(pq, costs, i, [], costs, start, 0);
  }

  /** `ns` is what `getNeighbors` returned for `s`. */
  ghost predicate NeighborsOf(walls: set<Pos>, s: State, ns: seq<State>) {
    && |ns| == |Neighbors(walls, s.View())|
    && forall t :: 0 <= t < |ns| ==> ns[t].SameBoard(s) && ns[t].View() == Neighbors(walls, s.View())[t]
  }

  /** A legal move out of a configuration whose stone weights are not
      negative costs nothing or a non-negative weight. */
  lemma MoveCostNonNegative(walls: set<Pos>, c: Config, ch: char)
    requires NonNegativeWeights(c.stones) && ApplyMove(walls, c, ch).Moved?
    ensures ApplyMove(walls, c, ch).cost >= 0
  {
    MoveFacts(walls, c, ch);
  }

  /** A state reached from a queued state by one legal move, on the same
      board, may be queued itself, at a weight no smaller. */
  lemma QueuedAfterMove(walls: set<Pos>, switches: set<Pos>, start: Config, cells: set<Pos>, ws: set<int>,
                        s: State, x: State, ch: char)
    requires Enclosed(walls, cells) && NonNegativeWeights(start.stones)
    requires Queued(walls, switches, start, cells, ws, (s.sumWeight, s))
    requires x.walls == walls && x.switches == switches && x.move == s.move + [ch]
    requires ApplyMove(walls, s.Cfg(), ch) == Moved(x.Cfg(), x.sumWeight - s.sumWeight)
    ensures Queued(walls, switches, start, cells, ws, (x.sumWeight, x))
    ensures s.sumWeight <= x.sumWeight
  {
    assert x.move[..|s.move|] == s.move;
    ReplayMoved(walls, start, x.move, |s.move|, s.Cfg(), s.sumWeight, x.Cfg(), x.sumWeight - s.sumWeight);
    assert x.move[..|s.move| + 1] == x.move;
    MoveStaysConfined(walls, cells, ws, s.Cfg(), ch);
    ReplayWeightMonotone(walls, start, s.move, 0);
    MoveCostNonNegative(walls, s.Cfg(), ch);
  }

  /** Each state `getNeighbors` returns is one legal move away. */
  lemma NeighborIsOneMove(walls: set<Pos>, s: State, ns: seq<State>, t: nat)
    requires StonesOffWalls(walls, s.stones) && NeighborsOf(walls, s, ns) && t < |ns|
    ensures |ns[t].move| == |s.move| + 1
    ensures var ch := ns[t].move[|s.move|];
            ns[t].move == s.move + [ch] &&
            ApplyMove(walls, s.Cfg(), ch) == Moved(ns[t].Cfg(), ns[t].sumWeight - s.sumWeight)
  {
    NeighborsAreMoves(walls, s.View(), t);
    var m := Neighbors(walls, s.View())[t];
    assert ns[t].View() == m;
    var ch :| m.move == s.move + [ch] && ApplyMove(walls, s.Cfg(), ch) == Moved(m.cfg, m.weight - s.sumWeight);
    assert ns[t].move == s.move + [ch];
  }

  /** A neighbour of a queued state may be queued itself, at a weight no
      smaller. */
  lemma NeighborQueued(walls: set<Pos>, switches: set<Pos>, start: Config, cells: set<Pos>, ws: set<int>,
                       s: State, ns: seq<State>, t: nat)
    requires Enclosed(walls, cells) && NonNegativeWeights(start.stones)
    requires Queued(walls, switches, start, cells, ws, (s.sumWeight, s))
    requires NeighborsOf(walls, s, ns) && t < |ns|
    ensures Queued(walls, switches, start, cells, ws, (ns[t].sumWeight, ns[t]))
    ensures s.sumWeight <= ns[t].sumWeight
  {
    NeighborIsOneMove(walls, s, ns, t);
    QueuedAfterMove(walls, switches, start, cells, ws, s, ns[t], ns[t].move[|s.move|]);
  }

  lemma QueuedRemove(walls: set<Pos>, switches: set<Pos>, start: Config, cells: set<Pos>, ws: set<int>,
                     pq: seq<(int, State)>, i: nat, extra: seq<(int, State)>)
    requires AllQueued(walls, switches, start, cells, ws, pq) && i < |pq|
    requires AllQueued(walls, switches, start, cells, ws, extra)
    ensures AllQueued(walls, switches, start, cells, ws, Without(pq, i) + extra)
  {
    var pq' := Without(pq, i) + extra;
    forall j | 0 <= j < |pq'| ensures Queued(walls, switches, start, cells, ws, pq'[j]) {
      if j < |pq| - 1 {
        assert pq'[j] == Without(pq, i)[j];
      } else {
        assert pq'[j] == extra[j - (|pq| - 1)];
      }
    }
  }

  lemma RelaxedQueued(walls: set<Pos>, switches: set<Pos>, start: Config, cells: set<Pos>, ws: set<int>,
                      s: State, costs': Ledger, ns: seq<State>)
    requires Enclosed(walls, cells) && NonNegativeWeights(start.stones)
    requires Queued(walls, switches, start, cells, ws, (s.sumWeight, s))
    requires NeighborsOf(walls, s, ns)
    ensures AllQueued(walls, switches, start, cells, ws, Relaxed(costs', ns))
    ensures forall t :: 0 <= t < |ns| ==> s.sumWeight <= ns[t].sumWeight
  {
    var r := Relaxed(costs', ns);
    RelaxedExactly(costs', ns);
    forall j | 0 <= j < |r| ensures Queued(walls, switches, start, cells, ws, r[j]) {
      var t :| 0 <= t < |ns| && ns[t] == r[j].1;
      NeighborQueued(walls, switches, start, cells, ws, s, ns, t);
    }
    forall t | 0 <= t < |ns| ensures s.sumWeight <= ns[t].sumWeight {
      NeighborQueued(walls, switches, start, cells, ws, s, ns, t);
    }
  }

  lemma RecordLedger(pq: seq<(int, State)>, costs: Ledger, i: nat, ns: seq<State>)
    requires LedgerBelowQueue(pq, costs) && i < |pq|
    requires forall j :: 0 <= j < |pq| ==> pq[i].0 <= pq[j].0
    requires forall t :: 0 <= t < |ns| ==> pq[i].0 <= ns[t].sumWeight
    ensures var costs' := costs[pq[i].1.Cfg() := pq[i].0];
            LedgerBelowQueue(Without(pq, i) + Relaxed(costs', ns), costs')
  {
    var costs' := costs[pq[i].1.Cfg() := pq[i].0];
    var r := Relaxed(costs', ns);
    RelaxedExactly(costs', ns);
    var pq' := Without(pq, i) + r;
    forall j | 0 <= j < |pq'| ensures pq[i].0 <= pq'[j].0 {
      if j < |pq| - 1 {
        assert pq'[j] == Without(pq, i)[j];
      } else {
        assert pq'[j] == r[j - (|pq| - 1)];
        var t :| 0 <= t < |ns| && ns[t] == pq'[j].1;
      }
    }
    forall x | x in costs ensures costs[x] <= pq[i].0 {
    }
  }

  /** Every move out of the configuration just expanded is accounted for:
      its neighbour was either queued or beaten by the ledger. */
  lemma ExpandedCovered(walls: set<Pos>, pq: seq<(int, State)>, i: nat, costs': Ledger, ns: seq<State>, ch: char)
    requires i < |pq| && StonesOffWalls(walls, pq[i].1.stones)
    requires NeighborsOf(walls, pq[i].1, ns)
    requires ApplyMove(walls, pq[i].1.Cfg(), ch).Moved?
    ensures Covered(Without(pq, i) + Relaxed(costs', ns), costs', ApplyMove(walls, pq[i].1.Cfg(), ch).next,
                    pq[i].1.sumWeight + ApplyMove(walls, pq[i].1.Cfg(), ch).cost)
  {
    var s := pq[i].1;
    var m := ApplyMove(walls, s.Cfg(), ch);
    NeighborsComplete(walls, s.View(), ch);
    var t :| 0 <= t < |Neighbors(walls, s.View())| &&
             Neighbors(walls, s.View())[t].cfg == m.next &&
             Neighbors(walls, s.View())[t].weight == s.sumWeight + m.cost;
    assert ns[t].Cfg() == m.next && ns[t].sumWeight == s.sumWeight + m.cost;
    NeighborCovered(pq, i, costs', ns, t);
  }

  /** Each neighbour is accounted for after the pushes: queued at its
      weight when it improves on the ledger, beaten by the ledger when
      not. */
  lemma NeighborCovered(pq: seq<(int, State)>, i: nat, costs': Ledger, ns: seq<State>, t: nat)
    requires i < |pq| && t < |ns|
    ensures Covered(Without(pq, i) + Relaxed(costs', ns), costs', ns[t].Cfg(), ns[t].sumWeight)
  {
    var r := Relaxed(costs', ns);
    RelaxedExactly(costs', ns);
    if Improves(costs', ns[t]) {
      var j :| 0 <= j < |r| && r[j] == (ns[t].sumWeight, ns[t]);
      assert (Without(pq, i) + r)[|pq| - 1 + j] == r[j];
    }
  }

  lemma RecordCover(walls: set<Pos>, start: Config, pq: seq<(int, State)>, costs: Ledger, i: nat, ns: seq<State>)
    requires ClosedCover(walls, pq, costs) && Covered(pq, costs, start, 0)
    requires i < |pq| && pq[i].1.Cfg() !in costs
    requires pq[i].0 == pq[i].1.sumWeight && StonesOffWalls(walls, pq[i].1.stones)
    requires NeighborsOf(walls, pq[i].1, ns)
    ensures var costs' := costs[pq[i].1.Cfg() := pq[i].0];
            var pq' := Without(pq, i) + Relaxed(costs', ns);
            ClosedCover(walls, pq', costs') && Covered(pq', costs', start, 0)
  {
    var s := pq[i].1;
    var costs' := costs[s.Cfg() := pq[i].0];
    var extra := Relaxed(costs', ns);
    var pq' := Without(pq, i) + extra;
    forall x, ch | x in costs' && ApplyMove(walls, x, ch).Moved?
      ensures Covered(pq', costs', ApplyMove(walls, x, ch).next, costs'[x] + ApplyMove(walls, x, ch).cost)
    {
      if x in costs {
        CoveredKept(pq, costs, i, extra, costs', ApplyMove(walls, x, ch).next, costs[x] + ApplyMove(walls, x, ch).cost);
      } else {
        ExpandedCovered(walls, pq, i, costs', ns, ch);
      }
    }
    CoveredKept(pq, costs, i, extra, costs', start, 0);
  }

  /** Expanding the cheapest entry, when the ledger has no weight for its
      configuration at or below its priority and not every stone is on a
      switch, keeps the invariant; the ledger gains that configuration,
      which it did not hold. */
  lemma Record(walls: set<Pos>, switches: set<Pos>, start: Config, cells: set<Pos>, ws: set<int>,
               pq: seq<(int, State)>, costs: Ledger, i: nat, ns: seq<State>)
    requires Enclosed(walls, cells) && NonNegativeWeights(start.stones)
    requires Inv(walls, switches, start, cells, ws, pq, costs)
    requires i < |pq| && forall j :: 0 <= j < |pq| ==> pq[i].0 <= pq[j].0
    requires !(pq[i].1.Cfg() in costs && costs[pq[i].1.Cfg()] <= pq[i].0)
    requires !pq[i].1.ReachedGoal()
    requires NeighborsOf(walls, pq[i].1, ns)
    ensures var costs' := costs[pq[i].1.Cfg() := pq[i].0];
            && pq[i].1.Cfg() !in costs
            && Inv(walls, switches, start, cells, ws, Without(pq, i) + Relaxed(costs', ns), costs')
            && |costs.Keys| < |costs'.Keys| <= |AllConfigs(cells, ws)|
  {
    var s := pq[i].1;
    var costs' := costs[s.Cfg() := pq[i].0];
    assert Queued(walls, switches, start, cells, ws, pq[i]);
    RelaxedQueued(walls, switches, start, cells, ws, s, costs', ns);
    QueuedRemove(walls, switches, start, cells, ws, pq, i, Relaxed(costs', ns));
    RecordLedger(pq, costs, i, ns);
    RecordCover(walls, start, pq, costs, i, ns);
    ConfinedInUniverse(walls, cells, ws, s.Cfg());
    assert costs'.Keys == costs.Keys + {s.Cfg()};
    SubsetSmaller(costs'.Keys, AllConfigs(cells, ws));
  }

  /** Every configuration the validator reaches from the start is
      accounted for at the weight of its replay, or some queued priority
      is at most that weight. */
  lemma {:induction false} ReachCovered(walls: set<Pos>, start: Config, pq: seq<(int, State)>, costs: Ledger,
                                        moves: string)
    requires ClosedCover(walls, pq, costs) && Covered(pq, costs, start, 0) && NonNegativeWeights(start.stones)
    requires Replay(walls, start, moves).Completed?
    ensures Covered(pq, costs, Replay(walls, start, moves).final, Replay(walls, start, moves).weight) ||
            exists j :: 0 <= j < |pq| && pq[j].0 <= Replay(walls, start, moves).weight
    decreases |moves|
  {
    if moves != [] {
      var n := |moves| - 1;
      ReplayWeightMonotone(walls, start, moves, n);
      ReachCovered(walls, start, pq, costs, moves[..n]);
      var c0, w0 := Replay(walls, start, moves[..n]).final, Replay(walls, start, moves[..n]).weight;
      ReplayStep(walls, start, moves, n, c0, w0);
      assert moves[..n + 1] == moves;
      var m := ApplyMove(walls, c0, moves[n]);
      if c0 in costs && costs[c0] <= w0 {
        assert Covered(pq, costs, m.next, costs[c0] + m.cost);
      }
    }
  }

  /** `moves` takes the agent from `start` to a configuration with every
      stone on a switch, pushing weight `w`. */
  ghost predicate ReachesGoal(walls: set<Pos>, switches: set<Pos>, start: Config, moves: string, w: int) {
    Replay(walls, start, moves).Completed? && Replay(walls, start, moves).weight == w &&
    AllOnSwitches(Replay(walls, start, moves).final, switches)
  }

  /** The cheapest queued priority is at most the weight of any way to
      put every stone on a switch. */
  lemma Cheapest(walls: set<Pos>, switches: set<Pos>, start: Config, cells: set<Pos>, ws: set<int>,
                 pq: seq<(int, State)>, costs: Ledger, i: nat, moves: string, w: int)
    requires Inv(walls, switches, start, cells, ws, pq, costs) && NonNegativeWeights(start.stones)
    requires i < |pq| && forall j :: 0 <= j < |pq| ==> pq[i].0 <= pq[j].0
    requires ReachesGoal(walls, switches, start, moves, w)
    ensures pq[i].0 <= w
  {
    ReachCovered(walls, start, pq, costs, moves);
  }

  /** A popped entry of least priority whose stones are all on switches
      is a cheapest way to get there. */
  lemma Settled(walls: set<Pos>, switches: set<Pos>, start: Config, cells: set<Pos>, ws: set<int>,
                pq: seq<(int, State)>, costs: Ledger, i: nat)
    requires Inv(walls, switches, start, cells, ws, pq, costs) && NonNegativeWeights(start.stones)
    requires i < |pq| && forall j :: 0 <= j < |pq| ==> pq[i].0 <= pq[j].0
    requires pq[i].1.ReachedGoal()
    ensures ReachesGoal(walls, switches, start, pq[i].1.move, pq[i].1.sumWeight)
    ensures forall moves, w :: ReachesGoal(walls, switches, start, moves, w) ==> pq[i].1.sumWeight <= w
  {
    assert Queued(walls, switches, start, cells, ws, pq[i]);
    forall moves, w | ReachesGoal(walls, switches, start, moves, w) ensures pq[i].1.sumWeight <= w {
      Cheapest(walls, switches, start, cells, ws, pq, costs, i, moves, w);
    }
  }

  /** With the queue empty, no way puts every stone on a switch. */
  lemma NoneReachable(walls: set<Pos>, switches: set<Pos>, start: Config, cells: set<Pos>, ws: set<int>,
                      costs: Ledger)
    requires Inv(walls, switches, start, cells, ws, [], costs) && NonNegativeWeights(start.stones)
    ensures forall moves, w :: !ReachesGoal(walls, switches, start, moves, w)
  {
    forall moves, w | ReachesGoal(walls, switches, start, moves, w) ensures false {
      ReachCovered(walls, start, [], costs, moves);
    }
  }

  /** The invariant holds for the queue holding the start alone. */
  lemma Init(walls: set<Pos>, switches: set<Pos>, start: Config, cells: set<Pos>, s: State)
    requires s.walls == walls && s.switches == switches && s.Cfg() == start
    requires s.move == [] && s.sumWeight == 0
    requires Confined(walls, cells, WeightsOf(start.stones), start)
    ensures Inv(walls, switches, start, cells, WeightsOf(start.stones), [(0, s)], map[])
  {
    assert [(0, s)][0].1.Cfg() == start;
  }

  /** The states held by a queue. */
  function StatesOf(pq: seq<(int, State)>): set<State> {
    set j | 0 <= j < |pq| :: pq[j].1
  }

  /** Popping an entry adds no state to the queue. */
  lemma StatesRemove(pq: seq<(int, State)>, i: nat)
    requires i < |pq|
    ensures StatesOf(Without(pq, i)) <= StatesOf(pq)
  {
    var r := Without(pq, i);
    forall x | x in StatesOf(r) ensures x in StatesOf(pq) {
      var j :| 0 <= j < |r| && r[j].1 == x;
      if j < i {
        assert r[j] == pq[j];
      } else {
        assert r[j] == pq[j + 1];
      }
    }
  }

  /** Popping an entry and pushing neighbours adds only neighbours to the
      queue. */
  lemma StatesPushed(pq0: seq<(int, State)>, i: nat, costs: Ledger, ns: seq<State>)
    requires i < |pq0|
    ensures forall x :: x in StatesOf(Without(pq0, i) + Relaxed(costs, ns)) ==> x in StatesOf(pq0) || x in ns
  {
    var kept := Without(pq0, i);
    StatesRemove(pq0, i);
    var r := Relaxed(costs, ns);
    var pq := kept + r;
    RelaxedExactly(costs, ns);
    forall x | x in StatesOf(pq) ensures x in StatesOf(kept) || x in ns {
      var j :| 0 <= j < |pq| && pq[j].1 == x;
      if j < |kept| {
        assert pq[j] == kept[j];
      } else {
        assert pq[j] == r[j - |kept|];
      }
    }
  }

  /** The solver object of UCS.py. */
  class Ucs {
    const startState: State

    constructor (startState: State)
      ensures this.startState == startState
    {
      this.startState := startState;
    }

    /** `ucs`: pops the cheapest entry, discards it when the ledger already
        holds its configuration at a weight no larger, otherwise records
        its weight and either returns it, when every stone is on a switch,
        or pushes its improving neighbours. A returned solution replays to
        every stone on a switch with the reported weight, and no way to get
        there is cheaper; an empty queue means there is no way at all. The
        stone weights must not be negative. */
    method Run(ghost cells: set<Pos>) returns (r: UcsResult)
      requires startState.move == [] && startState.sumWeight == 0
      requires Enclosed(startState.walls, cells)
      requires Confined(startState.walls, cells, WeightsOf(startState.stones), startState.Cfg())
      requires NonNegativeWeights(startState.stones)
      modifies startState
      ensures r.Found? ==> ReachesGoal(startState.walls, startState.switches, startState.Cfg(), r.path, r.weight)
      ensures r.Found? ==> forall moves, w ::
                ReachesGoal(startState.walls, startState.switches, startState.Cfg(), moves, w) ==> r.weight <= w
      ensures r.Exhausted? ==> forall moves, w ::
                !ReachesGoal(startState.walls, startState.switches, startState.Cfg(), moves, w)
      ensures startState.ReachedGoal() ==> r == Found([], 0, 1)
    {
      ghost var walls, switches, start := startState.walls, startState.switches, startState.Cfg();
      ghost var ws := WeightsOf(start.stones);
      ghost var universe := AllConfigs(cells, ws);
      var pq := [(startState.sumWeight, startState)];
      var costs: Ledger := map[];
      var cntNode: nat := 0;
      Init(walls, switches, start, cells, startState);
      while pq != []
        invariant Inv(walls, switches, start, cells, ws, pq, costs)
        invariant |costs.Keys| <= |universe|
        invariant forall x :: x in StatesOf(pq) ==> x == startState || fresh(x)
        invariant startState.ReachedGoal() ==> cntNode == 0 && costs == map[] && |pq| == 1 && pq[0] == (0, startState)
        decreases |universe| - |costs.Keys|, |pq|
      {
        cntNode := cntNode + 1;
        var i := PopMin(pq);
        var (cost, currentState) := pq[i];
        ghost var pq0, costs0 := pq, costs;
        pq := Without(pq, i);
        assert currentState in StatesOf(pq0);
        StatesRemove(pq0, i);
        if currentState.Cfg() in costs && costs[currentState.Cfg()] <= cost {
          Skip(walls, switches, start, cells, ws, pq0, costs, i);
          continue;
        }
        costs := costs[currentState.Cfg() := cost];
        if currentState.ReachedGoal() {
          Settled(walls, switches, start, cells, ws, pq0, costs0, i);
          return Found(currentState.move, currentState.sumWeight, cntNode);
        }
        var ns := currentState.GetNeighbors();
        Record(walls, switches, start, cells, ws, pq0, costs0, i, ns);
        pq := PushNeighbors(pq, costs, ns);
        StatesPushed(pq0, i, costs, ns);
      }
      NoneReachable(walls, switches, start, cells, ws, costs);
      return Exhausted;
    }
  }

  /** What `Search` ends with: an input error message, a written solution
      with its weight and node count, "No solution found.", or a crash of
      the script. */
  datatype Report = InputError | Reported(solution: string, weight: int, nodes: nat) | NoSolutionFound | Crash

  /** `Search`: reads the grid as the validator does, builds the start
      state and runs `ucs`. A start with every stone on a switch yields the
      empty move string, which is written as "No solution found."; with no
      agent on the grid and a stone off the switches, `getNeighbors` fails
      unpacking the missing agent; an exhausted queue returns a tuple too
      short to unpack. The search relies on the grid being enclosed by
      walls and, to end, on the weights being non-negative. */
  method Search(grid: Grid, weights: seq<int>) returns (out: Report)
    requires forall k :: 0 <= k < |weights| ==> weights[k] >= 0
    requires StrictParse(grid, weights).Some? ==> Enclosed(StrictParse(grid, weights).value.walls, GridPositions(grid))
    ensures out.InputError? <==> StrictParse(grid, weights).None?
    ensures StrictParse(grid, weights).Some? ==>
              var p := StrictParse(grid, weights).value;
              && (out.NoSolutionFound? <==> p.stones.Keys <= p.switches)
              && (out.Crash? <==>
                    && !(p.stones.Keys <= p.switches)
                    && (p.player.Some? ==> forall moves, w ::
                          !ReachesGoal(p.walls, p.switches, Config(p.player.value, p.stones), moves, w)))
              && (out.Reported? ==>
                    && p.player.Some? && out.solution != []
                    && ReachesGoal(p.walls, p.switches, Config(p.player.value, p.stones), out.solution, out.weight)
                    && forall moves, w ::
                         ReachesGoal(p.walls, p.switches, Config(p.player.value, p.stones), moves, w) ==> out.weight <= w)
              && (out.Reported? && |p.stones| == |p.switches| ==>
                    Checker.Simulate(p, out.solution) == Checker.Verdict(true, out.weight))
  {
    var parsed := Checker.ParseGrid(grid, weights);
    if parsed.None? {
      return InputError;
    }
    var p := parsed.value;
    if p.player.None? {
      return if p.stones.Keys <= p.switches then NoSolutionFound else Crash;
    }
    ParseWithinGrid(grid, weights, true);
    ParsedWeightsAreGiven(grid, weights, true);
    var start := new State(p.walls, p.stones, p.switches, p.player.value, "", 0, weights);
    assert forall q :: q in p.stones ==> p.stones[q] in WeightsOf(p.stones);
    var solver := new Ucs(start);
    var result := solver.Run(GridPositions(grid));
    match result {
      case Exhausted =>
        return Crash;
      case Found(solution, weight, nodes) =>
        if solution == [] {
          return NoSolutionFound;
        }
        if |p.stones| == |p.switches| {
          AllOnSwitchesIsGoal(Replay(p.walls, start.Cfg(), solution).final, p.switches);
        }
        return Reported(solution, weight, nodes);
    }
  }
}
