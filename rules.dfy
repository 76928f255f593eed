/** The movement rule of weighted Sokoban as the validator (Checker.py)
    and the three uninformed solvers (BFS.py, DFS.py, UCS.py) apply it:
    positions, directions, configurations, the order-independent visited
    key, one validator move, the replay of a move string, and the
    successor rule of the solvers together with its agreement with the
    validator. */
module Rules {

  datatype Option<T> = None | Some(value: T)

  /** A grid coordinate (row, column). */
  type Pos = (int, int)

  datatype Dir = Up | Down | Left | Right

  /** The order in which every solver tries the four directions. */
  const Dirs: seq<Dir> := [Up, Down, Left, Right]

  function Delta(d: Dir): (int, int) {
    match d
    case Up => (-1, 0)
    case Down => (1, 0)
    case Left => (0, -1)
    case Right => (0, 1)
  }

  function Next(p: Pos, d: Dir): Pos {
    (p.0 + Delta(d).0, p.1 + Delta(d).1)
  }

  /** Lower-case letters label walks. */
  function WalkLabel(d: Dir): char {
    match d
    case Up => 'u'
    case Down => 'd'
    case Left => 'l'
    case Right => 'r'
  }

  /** Upper-case letters label pushes. */
  function PushLabel(d: Dir): char {
    match d
    case Up => 'U'
    case Down => 'D'
    case Left => 'L'
    case Right => 'R'
  }

  /** `str.upper` on a single ASCII character. */
  function Upper(ch: char): char {
    if 'a' <= ch <= 'z' then (ch as int - 32) as char else ch
  }

  /** Upper-casing a walk's letter gives the push's letter. */
  lemma UpperWalkIsPush(d: Dir)
    ensures Upper(WalkLabel(d)) == PushLabel(d)
  {
  }

  predicate IsMoveLetter(ch: char) {
    ch in "udlrUDLR"
  }

  /** The validator's offset table: a letter gives a direction, and its
      case says whether the move claims to be a push. */
  function DecodeMove(ch: char): (r: Option<(Dir, bool)>)
    ensures r.Some? <==> IsMoveLetter(ch)
    ensures r.Some? && r.value.1 ==> ch == PushLabel(r.value.0)
    ensures r.Some? && !r.value.1 ==> ch == WalkLabel(r.value.0)
  {
    match ch
    case 'u' => Some((Up, false))
    case 'd' => Some((Down, false))
    case 'l' => Some((Left, false))
    case 'r' => Some((Right, false))
    case 'U' => Some((Up, true))
    case 'D' => Some((Down, true))
    case 'L' => Some((Left, true))
    case 'R' => Some((Right, true))
    case _ => None
  }

  /** The agent's position and the weight of the stone on each occupied
      cell. Walls and switches never change and are kept apart. */
  datatype Config = Config(player: Pos, stones: map<Pos, int>)

  /** `stones[to] = stones.pop(from)`: one stone moves, keeping its weight. */
  function MoveStone(stones: map<Pos, int>, from: Pos, to: Pos): (r: map<Pos, int>)
    requires from in stones && to !in stones
    ensures r.Keys == stones.Keys - {from} + {to}
    ensures r[to] == stones[from]
    ensures forall p :: p in stones && p != from ==> p in r && r[p] == stones[p]
    ensures |r| == |stones|
  {
    var rest := stones - {from};
    assert rest.Keys == stones.Keys - {from};
    assert |rest.Keys| == |stones.Keys| - 1;
    var r := rest[to := stones[from]];
    assert r.Keys == rest.Keys + {to};
    r
  }

  /** The solvers' visited key: the agent position and
      `frozenset(stones.items())`, a set of (cell, weight) pairs. */
  type Key = (Pos, set<(Pos, int)>)

  function Items(m: map<Pos, int>): set<(Pos, int)> {
    set p | p in m :: (p, m[p])
  }

  function KeyOf(c: Config): Key {
    (c.player, Items(c.stones))
  }

  lemma ItemsInjective(m1: map<Pos, int>, m2: map<Pos, int>)
    requires Items(m1) == Items(m2)
    ensures m1 == m2
  {
    forall p | p in m1 ensures p in m2 && m2[p] == m1[p] {
      assert (p, m1[p]) in Items(m2);
    }
    forall p | p in m2 ensures p in m1 {
      assert (p, m2[p]) in Items(m1);
    }
    assert m1.Keys == m2.Keys;
  }

  /** The key is canonical: two configurations share a key exactly when
      they have the same agent cell and the same cell-to-weight mapping,
      however the mapping was built. */
  lemma KeyOfCanonical(a: Config, b: Config)
    ensures KeyOf(a) == KeyOf(b) <==> a == b
  {
    if KeyOf(a) == KeyOf(b) {
      ItemsInjective(a.stones, b.stones);
    }
  }

  /** Why the validator rejects a move. */
  datatype Failure =
    | InvalidMove     // a letter outside u, d, l, r, U, D, L, R
    | IntoWall        // the agent's destination is a wall
    | PushBlocked     // the cell beyond the stone is a wall or a stone
    | LowercasePush   // a stone is in the way but the letter is lower-case
    | UppercaseWalk   // the letter is upper-case but no stone is in the way

  datatype StepResult = Moved(next: Config, cost: int) | Rejected(why: Failure)

  /** No stone stands on a wall cell: true of every parsed grid, where a
      cell holds one character, and kept by every legal move. */
  predicate StonesOffWalls(walls: set<Pos>, stones: map<Pos, int>) {
    forall p :: p in stones ==> p !in walls
  }

  /** One move of the validator's replay loop. A legal move keeps the
      number of stones, takes the agent one cell in the letter's
      direction, and is either a walk (lower-case letter, nothing else
      changes, no cost) or a push (upper-case letter, exactly the stone
      in front moves one cell further with its weight, and that weight
      is the cost). */
  function ApplyMove(walls: set<Pos>, c: Config, ch: char): StepResult
  {
    match DecodeMove(ch)
    case None => Rejected(InvalidMove)
    case Some((d, upper)) =>
      var t := Next(c.player, d);
      if t in walls then Rejected(IntoWall)
      else if t in c.stones then
        var beyond := Next(t, d);
        if beyond in walls || beyond in c.stones then Rejected(PushBlocked)
        else if !upper then Rejected(LowercasePush)
        else Moved(Config(t, MoveStone(c.stones, t, beyond)), c.stones[t])
      else if upper then Rejected(UppercaseWalk)
      else Moved(Config(t, c.stones), 0)
  }

  /** What a legal move does: the agent steps one cell in the letter's
      direction onto a non-wall cell; a walk leaves the stones alone and
      costs nothing; a push moves the stone ahead of the agent one cell
      further, onto a free cell, and costs that stone's weight. A letter
      outside the eight move letters is rejected. */
  lemma MoveFacts(walls: set<Pos>, c: Config, ch: char)
    ensures var r := ApplyMove(walls, c, ch);
            && (!IsMoveLetter(ch) ==> r == Rejected(InvalidMove))
            && (r.Moved? ==> |r.next.stones| == |c.stones|)
            && (r.Moved? && StonesOffWalls(walls, c.stones) ==> StonesOffWalls(walls, r.next.stones))
            && (r.Moved? ==> r.next.player == Next(c.player, DecodeMove(ch).value.0) && r.next.player !in walls)
            && (r.Moved? && !DecodeMove(ch).value.1 ==>
                  r.next.stones == c.stones && r.cost == 0 && r.next.player !in c.stones)
            && (r.Moved? && DecodeMove(ch).value.1 ==>
                  var d, s := DecodeMove(ch).value.0, r.next.player;
                  && s in c.stones && Next(s, d) !in walls && Next(s, d) !in c.stones
                  && r.next.stones == MoveStone(c.stones, s, Next(s, d))
                  && r.cost == c.stones[s])
  {
  }

  /** The outcome of replaying a move string: either every move was legal
      and the final configuration and the pushed weight are known, or the
      replay stopped at the first illegal move, with the weight pushed
      before it. */
  datatype Outcome =
    | Completed(final: Config, weight: int)
    | Stopped(step: nat, why: Failure, weight: int)

  /** Replays `moves` from `start`, one validator move at a time. */
  function Replay(walls: set<Pos>, start: Config, moves: string): (r: Outcome)
    ensures r.Stopped? ==> r.step < |moves|
    ensures r.Completed? ==> |r.final.stones| == |start.stones|
    decreases |moves|
  {
    if moves == [] then Completed(start, 0)
    else
      var prev := Replay(walls, start, moves[..|moves| - 1]);
      match prev
      case Stopped(_, _, _) => prev
      case Completed(c, w) =>
        match ApplyMove(walls, c, moves[|moves| - 1])
        case Moved(c', cost) => Completed(c', w + cost)
        case Rejected(why) => Stopped(|moves| - 1, why, w)
  }

  /** Appending one move to a string replays that move after the rest. */
  lemma ReplaySnoc(walls: set<Pos>, start: Config, moves: string, ch: char)
    ensures Replay(walls, start, moves + [ch]) ==
      match Replay(walls, start, moves)
      case Stopped(_, _, _) => Replay(walls, start, moves)
      case Completed(c, w) =>
        match ApplyMove(walls, c, ch)
        case Moved(c', cost) => Completed(c', w + cost)
        case Rejected(why) => Stopped(|moves|, why, w)
  {
    assert (moves + [ch])[..|moves|] == moves;
  }

  /** A replay that stops reports the first illegal move: the moves before
      it replay completely, with the reported weight, and that move is
      rejected for the reported reason. */
  lemma {:induction false} ReplayStopsAtFirstIllegal(walls: set<Pos>, start: Config, moves: string)
    requires Replay(walls, start, moves).Stopped?
    ensures var r := Replay(walls, start, moves);
            var before := Replay(walls, start, moves[..r.step]);
            && before.Completed? && before.weight == r.weight
            && ApplyMove(walls, before.final, moves[r.step]) == Rejected(r.why)
    decreases |moves|
  {
    var prefix := moves[..|moves| - 1];
    if Replay(walls, start, prefix).Stopped? {
      ReplayStopsAtFirstIllegal(walls, start, prefix);
      var k := Replay(walls, start, prefix).step;
      assert prefix[..k] == moves[..k];
    }
  }

  /** Once a replay has stopped, longer strings stop at the same move. */
  lemma {:induction false} ReplayStoppedSticky(walls: set<Pos>, start: Config, moves: string, k: nat)
    requires k <= |moves|
    requires Replay(walls, start, moves[..k]).Stopped?
    ensures Replay(walls, start, moves) == Replay(walls, start, moves[..k])
    decreases |moves|
  {
    if k < |moves| {
      var prefix := moves[..|moves| - 1];
      assert prefix[..k] == moves[..k];
      ReplayStoppedSticky(walls, start, prefix, k);
    } else {
      assert moves[..k] == moves;
    }
  }

  /** One step of a replay: from the configuration reached after `k`
      moves, move `k` either stops the whole replay or extends it. */
  lemma ReplayStep(walls: set<Pos>, start: Config, moves: string, k: nat, c: Config, w: int)
    requires k < |moves|
    requires Replay(walls, start, moves[..k]) == Completed(c, w)
    ensures ApplyMove(walls, c, moves[k]).Rejected? ==>
              Replay(walls, start, moves) == Stopped(k, ApplyMove(walls, c, moves[k]).why, w)
    ensures ApplyMove(walls, c, moves[k]).Moved? ==>
              Replay(walls, start, moves[..k + 1]) ==
              Completed(ApplyMove(walls, c, moves[k]).next, w + ApplyMove(walls, c, moves[k]).cost)
  {
    assert moves[..k + 1] == moves[..k] + [moves[k]];
    ReplaySnoc(walls, start, moves[..k], moves[k]);
    if ApplyMove(walls, c, moves[k]).Rejected? {
      ReplayStoppedSticky(walls, start, moves, k + 1);
    }
  }

  /** A legal move `k` extends the completed replay of the first `k`
      moves. */
  lemma ReplayMoved(walls: set<Pos>, start: Config, moves: string, k: nat, c: Config, w: int, next: Config, cost: int)
    requires k < |moves|
    requires Replay(walls, start, moves[..k]) == Completed(c, w)
    requires ApplyMove(walls, c, moves[k]) == Moved(next, cost)
    ensures Replay(walls, start, moves[..k + 1]) == Completed(next, w + cost)
  {
    ReplayStep(walls, start, moves, k, c, w);
  }

  /** An illegal move `k` stops the whole replay there. */
  lemma ReplayRejected(walls: set<Pos>, start: Config, moves: string, k: nat, c: Config, w: int, why: Failure)
    requires k < |moves|
    requires Replay(walls, start, moves[..k]) == Completed(c, w)
    requires ApplyMove(walls, c, moves[k]) == Rejected(why)
    ensures Replay(walls, start, moves) == Stopped(k, why, w)
  {
    ReplayStep(walls, start, moves, k, c, w);
  }

  /** Every prefix of a completed replay completes too. */
  lemma {:induction false} ReplayPrefix(walls: set<Pos>, start: Config, moves: string, i: nat)
    requires i <= |moves|
    requires Replay(walls, start, moves).Completed?
    ensures Replay(walls, start, moves[..i]).Completed?
    decreases |moves|
  {
    if i < |moves| {
      var prefix := moves[..|moves| - 1];
      ReplayPrefix(walls, start, prefix, i);
      assert prefix[..i] == moves[..i];
    } else {
      assert moves[..i] == moves;
    }
  }

  /** A string of walks only leaves every stone where it was and costs
      nothing. */
  lemma {:induction false} WalksMoveNoStone(walls: set<Pos>, start: Config, moves: string)
    requires forall k :: 0 <= k < |moves| ==> DecodeMove(moves[k]).Some? && !DecodeMove(moves[k]).value.1
    requires Replay(walls, start, moves).Completed?
    ensures Replay(walls, start, moves).final.stones == start.stones
    ensures Replay(walls, start, moves).weight == 0
    decreases |moves|
  {
    if moves != [] {
      WalksMoveNoStone(walls, start, moves[..|moves| - 1]);
    }
  }

  predicate NonNegativeWeights(stones: map<Pos, int>) {
    forall p :: p in stones ==> stones[p] >= 0
  }

  /** With non-negative stone weights, the weight pushed so far never
      exceeds the weight pushed by the whole string, and the weights
      stay non-negative. */
  lemma {:induction false} ReplayWeightMonotone(walls: set<Pos>, start: Config, moves: string, i: nat)
    requires NonNegativeWeights(start.stones)
    requires i <= |moves|
    requires Replay(walls, start, moves).Completed?
    ensures Replay(walls, start, moves[..i]).Completed?
    ensures 0 <= Replay(walls, start, moves[..i]).weight <= Replay(walls, start, moves).weight
    ensures NonNegativeWeights(Replay(walls, start, moves).final.stones)
    decreases |moves|
  {
    if moves == [] {
      assert moves[..i] == moves;
    } else {
      var prefix := moves[..|moves| - 1];
      var j := if i < |moves| then i else |prefix|;
      ReplayWeightMonotone(walls, start, prefix, j);
      assert prefix[..j] == moves[..j];
      if i == |moves| {
        assert moves[..i] == moves;
      }
    }
  }

  /** The goal test of the validator, BFS and DFS: the occupied cells
      are exactly the switches. */
  predicate IsGoal(c: Config, switches: set<Pos>) {
    c.stones.Keys == switches
  }

  /** `moves` is a solution: every move is legal and the last
      configuration is a goal. */
  predicate Solves(walls: set<Pos>, switches: set<Pos>, start: Config, moves: string) {
    Replay(walls, start, moves).Completed? && IsGoal(Replay(walls, start, moves).final, switches)
  }

  /** The solvers' walk: the agent steps onto a cell that is neither a
      wall nor a stone; nothing else changes and nothing is paid. */
  function Walk(walls: set<Pos>, c: Config, d: Dir): Option<Config> {
    var t := Next(c.player, d);
    if t !in walls && t !in c.stones then Some(Config(t, c.stones)) else None
  }

  /** The solvers' push: a stone is in front and the cell beyond holds
      neither a wall nor a stone; the stone moves there and its weight is
      paid. */
  function Push(walls: set<Pos>, c: Config, d: Dir): Option<(Config, int)> {
    var s := Next(c.player, d);
    var beyond := Next(s, d);
    if s in c.stones && beyond !in walls && beyond !in c.stones then
      Some((Config(s, MoveStone(c.stones, s, beyond)), c.stones[s]))
    else None
  }

  /** The solvers and the validator apply one rule: a lower-case letter
      is accepted exactly when the solvers would walk, an upper-case one
      exactly when they would push, with the same result and cost. */
  lemma SolverRuleIsValidatorRule(walls: set<Pos>, c: Config, d: Dir)
    requires StonesOffWalls(walls, c.stones)
    ensures ApplyMove(walls, c, WalkLabel(d)).Moved? <==> Walk(walls, c, d).Some?
    ensures Walk(walls, c, d).Some? ==> ApplyMove(walls, c, WalkLabel(d)) == Moved(Walk(walls, c, d).value, 0)
    ensures ApplyMove(walls, c, PushLabel(d)).Moved? <==> Push(walls, c, d).Some?
    ensures Push(walls, c, d).Some? ==>
              ApplyMove(walls, c, PushLabel(d)) == Moved(Push(walls, c, d).value.0, Push(walls, c, d).value.1)
  {
    assert DecodeMove(WalkLabel(d)) == Some((d, false)) by {
      match d
      case Up =>
      case Down =>
      case Left =>
      case Right =>
    }
    assert DecodeMove(PushLabel(d)) == Some((d, true)) by {
      match d
      case Up =>
      case Down =>
      case Left =>
      case Right =>
    }
  }

  /** Every move the validator accepts is one of the solvers' walks or
      pushes. */
  lemma ValidatorMovesAreSolverMoves(walls: set<Pos>, c: Config, ch: char)
    requires StonesOffWalls(walls, c.stones)
    requires ApplyMove(walls, c, ch).Moved?
    ensures var d := DecodeMove(ch).value.0;
            if DecodeMove(ch).value.1
            then ch == PushLabel(d) && Push(walls, c, d).Some? &&
                 ApplyMove(walls, c, ch) == Moved(Push(walls, c, d).value.0, Push(walls, c, d).value.1)
            else ch == WalkLabel(d) && Walk(walls, c, d).Some? &&
                 ApplyMove(walls, c, ch) == Moved(Walk(walls, c, d).value, 0)
  {
    SolverRuleIsValidatorRule(walls, c, DecodeMove(ch).value.0);
  }

  /** A frontier once entry `i` is popped (`heappop`, `PriorityQueue.get`):
      the other entries, in their order. */
  function Without<T>(queue: seq<T>, i: nat): (r: seq<T>)
    requires i < |queue|
    ensures |r| == |queue| - 1
    ensures forall j :: 0 <= j < |r| ==> r[j] == if j < i then queue[j] else queue[j + 1]
  {
    queue[..i] + queue[i + 1..]
  }
}
