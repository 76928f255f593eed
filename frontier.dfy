/** What BFS.py and DFS.py share: the lenient grid reader and the
    expansion of one frontier entry. An entry is a configuration with the
    move string that reached it and the weight pushed along it. Expanding
    it tries the four walks u, d, l, r and then the four pushes U, D, L,
    R, and appends each successor whose key has not been seen, marking
    that key as seen at once. */
module Frontier {
  import opened Rules
  import opened GridScan
  import opened Bounded

  datatype Entry = Entry(cfg: Config, path: string, weight: int)

  /** What a search returns: the path, its weight and the node count, or
      the node count alone when the frontier runs dry. */
  datatype SearchResult = Found(path: string, weight: int, nodes: nat) | NoSolution(nodes: nat)

  /** `parse_grid` of BFS.py and DFS.py: stones beyond the last weight are
      ignored rather than rejected. */
  method ParseGrid(grid: Grid, weights: seq<int>) returns (p: Puzzle)
    ensures p == LenientParse(grid, weights)
  {
    var scan := Start;
    var i := 0;
    while i < |grid|
      invariant 0 <= i <= |grid|
      invariant ScanAll(Cells(grid[..i]), weights, false) == Some(scan)
    {
      var row := grid[i];
      var j := 0;
      CellsUpToStart(grid, i);
      while j < |row|
        invariant 0 <= j <= |row|
        invariant ScanAll(CellsUpTo(grid, i, j), weights, false) == Some(scan)
      {
        ScanNext(grid, i, j, weights, false, scan);
        var next := ReadCell(scan, weights, ((i, j), row[j]), false);
        scan := next.value;
        j := j + 1;
      }
      CellsUpToRowEnd(grid, i);
      i := i + 1;
    }
    assert grid[..|grid|] == grid;
    return scan.found;
  }

  /** The walk successor of an entry, labelled with a lower-case letter. */
  function WalkEntry(walls: set<Pos>, e: Entry, d: Dir): Option<Entry> {
    match Walk(walls, e.cfg, d)
    case None => None
    case Some(c) => Some(Entry(c, e.path + [WalkLabel(d)], e.weight))
  }

  /** The push successor of an entry, labelled with an upper-case letter
      and charged the stone's weight. */
  function PushEntry(walls: set<Pos>, e: Entry, d: Dir): Option<Entry> {
    var pushed := Push(walls, e.cfg, d);
    if pushed.None? then None
    else Some(Entry(pushed.value.0, e.path + [PushLabel(d)], e.weight + pushed.value.1))
  }

  /** The eight tries of one expansion, in the order the solvers make
      them: walks u, d, l, r, then pushes U, D, L, R. */
  function Attempts(walls: set<Pos>, e: Entry): seq<Option<Entry>> {
    seq(8, k requires 0 <= k < 8 => if k < 4 then WalkEntry(walls, e, Dirs[k]) else PushEntry(walls, e, Dirs[k - 4]))
  }

  /** The letter of the k-th try. */
  function AttemptLabel(k: int): char
    requires 0 <= k < 8
  {
    if k < 4 then WalkLabel(Dirs[k]) else PushLabel(Dirs[k - 4])
  }

  function KeysOf(es: seq<Entry>): set<Key> {
    set i | 0 <= i < |es| :: KeyOf(es[i].cfg)
  }

  /** The keys of the successors that exist among `tries`. */
  function TriedKeys(tries: seq<Option<Entry>>): set<Key> {
    set i | 0 <= i < |tries| && tries[i].Some? :: KeyOf(tries[i].value.cfg)
  }

  /** The successors that get appended: those whose key is neither seen
      before the expansion nor taken by an earlier try. */
  function Fresh(visited: set<Key>, tries: seq<Option<Entry>>): seq<Entry>
    decreases |tries|
  {
    if tries == [] then []
    else
      var pre := Fresh(visited, tries[..|tries| - 1]);
      match tries[|tries| - 1]
      case None => pre
      case Some(x) => if KeyOf(x.cfg) in visited + KeysOf(pre) then pre else pre + [x]
  }

  /** Appending an entry adds its key. */
  lemma KeysOfSnoc(es: seq<Entry>, x: Entry)
    ensures KeysOf(es + [x]) == KeysOf(es) + {KeyOf(x.cfg)}
  {
    var l := KeysOf(es + [x]);
    forall k | k in l ensures k in KeysOf(es) + {KeyOf(x.cfg)} {
      var i :| 0 <= i < |es| + 1 && KeyOf((es + [x])[i].cfg) == k;
      if i < |es| { assert (es + [x])[i] == es[i]; }
    }
    forall k | k in KeysOf(es) ensures k in l {
      var i :| 0 <= i < |es| && KeyOf(es[i].cfg) == k;
      assert (es + [x])[i] == es[i];
    }
    assert KeyOf((es + [x])[|es|].cfg) in l;
  }

  lemma TriedKeysSnoc(tries: seq<Option<Entry>>, t: Option<Entry>)
    ensures TriedKeys(tries + [t]) == TriedKeys(tries) + (if t.Some? then {KeyOf(t.value.cfg)} else {})
  {
    var all := tries + [t];
    forall k | k in TriedKeys(all) ensures k in TriedKeys(tries) + (if t.Some? then {KeyOf(t.value.cfg)} else {}) {
      var i :| 0 <= i < |all| && all[i].Some? && KeyOf(all[i].value.cfg) == k;
      if i < |tries| { assert all[i] == tries[i]; }
    }
    forall k | k in TriedKeys(tries) ensures k in TriedKeys(all) {
      var i :| 0 <= i < |tries| && tries[i].Some? && KeyOf(tries[i].value.cfg) == k;
      assert all[i] == tries[i];
    }
    if t.Some? {
      assert all[|tries|] == t;
    }
  }

  /** What the fresh successors are: each is one of the tries, none has a
      key seen before, no two share a key, and together with the keys
      seen before they cover the key of every successor tried. */
  lemma {:induction false} FreshFacts(visited: set<Key>, tries: seq<Option<Entry>>)
    ensures var f := Fresh(visited, tries);
            && (forall i :: 0 <= i < |f| ==> Some(f[i]) in tries)
            && (forall i :: 0 <= i < |f| ==> KeyOf(f[i].cfg) !in visited)
            && (forall i, j :: 0 <= i < j < |f| ==> KeyOf(f[i].cfg) != KeyOf(f[j].cfg))
            && visited + KeysOf(f) == visited + TriedKeys(tries)
    decreases |tries|
  {
    if tries != [] {
      var pre, t := tries[..|tries| - 1], tries[|tries| - 1];
      assert tries == pre + [t];
      FreshFacts(visited, pre);
      TriedKeysSnoc(pre, t);
      var fp := Fresh(visited, pre);
      forall i | 0 <= i < |fp| ensures Some(fp[i]) in tries {
        assert Some(fp[i]) in pre;
      }
      if t.Some? && KeyOf(t.value.cfg) !in visited + KeysOf(fp) {
        KeysOfSnoc(fp, t.value);
        forall i | 0 <= i < |fp| ensures KeyOf(fp[i].cfg) != KeyOf(t.value.cfg) {
          assert KeyOf(fp[i].cfg) in KeysOf(fp);
        }
      }
    }
  }

  /** Distinct keys: as many keys as entries. */
  lemma {:induction false} DistinctKeysCount(es: seq<Entry>)
    requires forall i, j :: 0 <= i < j < |es| ==> KeyOf(es[i].cfg) != KeyOf(es[j].cfg)
    ensures |KeysOf(es)| == |es|
    decreases |es|
  {
    if es != [] {
      var pre, x := es[..|es| - 1], es[|es| - 1];
      assert es == pre + [x];
      DistinctKeysCount(pre);
      KeysOfSnoc(pre, x);
      forall i | 0 <= i < |pre| ensures KeyOf(pre[i].cfg) != KeyOf(x.cfg) {
        assert es[i] == pre[i];
      }
    }
  }

  /** One try of an expansion: a missing successor or one whose key is
      seen changes nothing; otherwise the successor is appended and its
      key marked. */
  lemma FreshStep(visited: set<Key>, tries: seq<Option<Entry>>, k: nat)
    requires k < |tries|
    ensures var pre := Fresh(visited, tries[..k]);
            var seen := visited + KeysOf(pre);
            && (tries[k].None? ==> Fresh(visited, tries[..k + 1]) == pre)
            && (tries[k].Some? && KeyOf(tries[k].value.cfg) in seen ==> Fresh(visited, tries[..k + 1]) == pre)
            && (tries[k].Some? && KeyOf(tries[k].value.cfg) !in seen ==>
                  Fresh(visited, tries[..k + 1]) == pre + [tries[k].value] &&
                  visited + KeysOf(Fresh(visited, tries[..k + 1])) == seen + {KeyOf(tries[k].value.cfg)})
  {
    assert tries[..k + 1][..k] == tries[..k];
    if tries[k].Some? {
      KeysOfSnoc(Fresh(visited, tries[..k]), tries[k].value);
    }
  }

  lemma WalkTry(walls: set<Pos>, e: Entry, k: nat)
    requires k < 4
    ensures var t := Next(e.cfg.player, Dirs[k]);
            Attempts(walls, e)[k] ==
              if t !in walls && t !in e.cfg.stones
              then Some(Entry(Config(t, e.cfg.stones), e.path + [WalkLabel(Dirs[k])], e.weight))
              else None
  {
  }

  lemma PushTry(walls: set<Pos>, e: Entry, k: nat, s: Pos, beyond: Pos)
    requires 4 <= k < 8
    requires s == Next(e.cfg.player, Dirs[k - 4]) && beyond == Next(s, Dirs[k - 4])
    ensures s in e.cfg.stones && beyond !in walls && beyond !in e.cfg.stones ==>
              Attempts(walls, e)[k] ==
              Some(Entry(Config(s, MoveStone(e.cfg.stones, s, beyond)), e.path + [PushLabel(Dirs[k - 4])],
                         e.weight + e.cfg.stones[s]))
    ensures !(s in e.cfg.stones && beyond !in walls && beyond !in e.cfg.stones) ==> Attempts(walls, e)[k] == None
  {
    assert Attempts(walls, e)[k] == PushEntry(walls, e, Dirs[k - 4]);
  }

  /** The expansion of `bfs` and `dfs`: first the walks, then the pushes,
      each appended and marked when its key is new. */
  method Expand(walls: set<Pos>, e: Entry, frontier: seq<Entry>, visited: set<Key>, nodes: nat)
    returns (frontier': seq<Entry>, visited': set<Key>, nodes': nat)
    ensures var f := Fresh(visited, Attempts(walls, e));
            && frontier' == frontier + f
            && visited' == visited + KeysOf(f)
            && nodes' == nodes + |f|
  {
    frontier', visited', nodes' := TryWalks(walls, e, frontier, visited, nodes);
    frontier', visited', nodes' := TryPushes(walls, e, frontier, visited, nodes, frontier', visited', nodes');
    assert Attempts(walls, e)[..8] == Attempts(walls, e);
  }

  /** The walk loop: u, d, l, r onto cells holding neither a wall nor a
      stone. */
  method TryWalks(walls: set<Pos>, e: Entry, frontier: seq<Entry>, visited: set<Key>, nodes: nat)
    returns (frontier': seq<Entry>, visited': set<Key>, nodes': nat)
    ensures var f := Fresh(visited, Attempts(walls, e)[..4]);
            && frontier' == frontier + f
            && visited' == visited + KeysOf(f)
            && nodes' == nodes + |f|
  {
    var tries := Attempts(walls, e);
    var playerPos := e.cfg.player;
    var stones := e.cfg.stones;
    frontier', visited', nodes' := frontier, visited, nodes;
    for k := 0 to 4
      invariant frontier' == frontier + Fresh(visited, tries[..k])
      invariant visited' == visited + KeysOf(Fresh(visited, tries[..k]))
      invariant nodes' == nodes + |Fresh(visited, tries[..k])|
    {
      var d := Dirs[k];
      WalkTry(walls, e, k);
      var newPos := Next(playerPos, d);
      var candidate := None;
      if newPos !in walls && newPos !in stones {
        candidate := Some(Entry(Config(newPos, stones), e.path + [WalkLabel(d)], e.weight));
      }
      frontier', visited', nodes' := Offer(visited, tries, k, candidate, frontier, frontier', visited', nodes, nodes');
    }
  }

  /** The push loop: U, D, L, R onto a stone whose far cell holds neither
      a wall nor a stone; the stone moves on and its weight is added. It
      continues the walk loop's frontier, seen set and count. */
  method TryPushes(walls: set<Pos>, e: Entry, frontier0: seq<Entry>, visited0: set<Key>, nodes0: nat,
                   frontier: seq<Entry>, visited: set<Key>, nodes: nat)
    returns (frontier': seq<Entry>, visited': set<Key>, nodes': nat)
    requires var f := Fresh(visited0, Attempts(walls, e)[..4]);
             && frontier == frontier0 + f
             && visited == visited0 + KeysOf(f)
             && nodes == nodes0 + |f|
    ensures var f := Fresh(visited0, Attempts(walls, e)[..8]);
            && frontier' == frontier0 + f
            && visited' == visited0 + KeysOf(f)
            && nodes' == nodes0 + |f|
  {
    var tries := Attempts(walls, e);
    var playerPos := e.cfg.player;
    var stones := e.cfg.stones;
    frontier', visited', nodes' := frontier, visited, nodes;
    for k := 4 to 8
      invariant frontier' == frontier0 + Fresh(visited0, tries[..k])
      invariant visited' == visited0 + KeysOf(Fresh(visited0, tries[..k]))
      invariant nodes' == nodes0 + |Fresh(visited0, tries[..k])|
    {
      var d := Dirs[k - 4];
      var stonePos := Next(playerPos, d);
      var nextPos := Next(stonePos, d);
      PushTry(walls, e, k, stonePos, nextPos);
      var candidate := None;
      if stonePos in stones && nextPos !in walls && nextPos !in stones {
        var stoneWeight := stones[stonePos];
        var newStones := MoveStone(stones, stonePos, nextPos);
        candidate := Some(Entry(Config(stonePos, newStones), e.path + [PushLabel(d)], e.weight + stoneWeight));
      }
      frontier', visited', nodes' := Offer(visited0, tries, k, candidate, frontier0, frontier', visited', nodes0, nodes');
    }
  }

  /** The common tail of both loops: a candidate whose key has not been
      seen is marked seen, queued and counted. */
  method Offer(ghost visited0: set<Key>, ghost tries: seq<Option<Entry>>, ghost k: nat, candidate: Option<Entry>,
               ghost frontier0: seq<Entry>, frontier: seq<Entry>, visited: set<Key>, ghost nodes0: nat, nodes: nat)
    returns (frontier': seq<Entry>, visited': set<Key>, nodes': nat)
    requires k < |tries| && candidate == tries[k]
    requires var f := Fresh(visited0, tries[..k]);
             && frontier == frontier0 + f
             && visited == visited0 + KeysOf(f)
             && nodes == nodes0 + |f|
    ensures var f := Fresh(visited0, tries[..k + 1]);
            && frontier' == frontier0 + f
            && visited' == visited0 + KeysOf(f)
            && nodes' == nodes0 + |f|
  {
    FreshStep(visited0, tries, k);
    frontier', visited', nodes' := frontier, visited, nodes;
    if candidate.Some? && KeyOf(candidate.value.cfg) !in visited {
      visited' := visited' + {KeyOf(candidate.value.cfg)};
      frontier' := frontier' + [candidate.value];
      nodes' := nodes' + 1;
    }
  }

  /** Each try that yields a successor is a legal validator move from the
      entry: its letter extends the path and the validator charges the
      same weight. */
  lemma AttemptIsMove(walls: set<Pos>, e: Entry, k: int)
    requires StonesOffWalls(walls, e.cfg.stones)
    requires 0 <= k < 8 && Attempts(walls, e)[k].Some?
    ensures var x := Attempts(walls, e)[k].value;
            && x.path == e.path + [AttemptLabel(k)]
            && ApplyMove(walls, e.cfg, AttemptLabel(k)) == Moved(x.cfg, x.weight - e.weight)
  {
    if k < 4 {
      assert Attempts(walls, e)[k] == WalkEntry(walls, e, Dirs[k]);
      SolverRuleIsValidatorRule(walls, e.cfg, Dirs[k]);
    } else {
      assert Attempts(walls, e)[k] == PushEntry(walls, e, Dirs[k - 4]);
      SolverRuleIsValidatorRule(walls, e.cfg, Dirs[k - 4]);
    }
  }

  function DirIndex(d: Dir): (k: nat)
    ensures k < 4 && Dirs[k] == d
  {
    match d
    case Up => 0
    case Down => 1
    case Left => 2
    case Right => 3
  }

  /** Every legal validator move from the entry is among the tries, so
      its key is seen once the entry is expanded. */
  lemma MoveIsAttempt(walls: set<Pos>, e: Entry, ch: char)
    requires StonesOffWalls(walls, e.cfg.stones)
    requires ApplyMove(walls, e.cfg, ch).Moved?
    ensures KeyOf(ApplyMove(walls, e.cfg, ch).next) in TriedKeys(Attempts(walls, e))
  {
    ValidatorMovesAreSolverMoves(walls, e.cfg, ch);
    var (d, upper) := DecodeMove(ch).value;
    var next := ApplyMove(walls, e.cfg, ch).next;
    var tries := Attempts(walls, e);
    if upper {
      var k := 4 + DirIndex(d);
      assert tries[k] == PushEntry(walls, e, d);
      assert tries[k].Some? && KeyOf(tries[k].value.cfg) == KeyOf(next);
    } else {
      var k := DirIndex(d);
      assert tries[k] == WalkEntry(walls, e, d);
      assert tries[k].Some? && KeyOf(tries[k].value.cfg) == KeyOf(next);
    }
  }

  /** Expanding an entry that the validator reaches keeps that property:
      every fresh successor is reached by the validator along its own
      path, one move longer. */
  lemma FreshAreReplayed(walls: set<Pos>, start: Config, e: Entry, visited: set<Key>)
    requires StonesOffWalls(walls, e.cfg.stones)
    requires Replay(walls, start, e.path) == Completed(e.cfg, e.weight)
    ensures forall x :: x in Fresh(visited, Attempts(walls, e)) ==>
              Replay(walls, start, x.path) == Completed(x.cfg, x.weight) && |x.path| == |e.path| + 1
  {
    var tries := Attempts(walls, e);
    FreshFacts(visited, tries);
    forall x | x in Fresh(visited, tries)
      ensures Replay(walls, start, x.path) == Completed(x.cfg, x.weight) && |x.path| == |e.path| + 1
    {
      var k :| 0 <= k < 8 && tries[k] == Some(x);
      AttemptReplayed(walls, start, e, k);
    }
  }

  /** The validator replays each successful try to its configuration. */
  lemma AttemptReplayed(walls: set<Pos>, start: Config, e: Entry, k: int)
    requires StonesOffWalls(walls, e.cfg.stones)
    requires Replay(walls, start, e.path) == Completed(e.cfg, e.weight)
    requires 0 <= k < 8 && Attempts(walls, e)[k].Some?
    ensures var x := Attempts(walls, e)[k].value;
            Replay(walls, start, x.path) == Completed(x.cfg, x.weight) && |x.path| == |e.path| + 1
  {
    AttemptIsMove(walls, e, k);
    ReplaySnoc(walls, start, e.path, AttemptLabel(k));
  }

  /** Each fresh successor of a confined entry is confined. */
  lemma FreshConfined(walls: set<Pos>, cells: set<Pos>, weights: set<int>, e: Entry, visited: set<Key>)
    requires Enclosed(walls, cells) && Confined(walls, cells, weights, e.cfg)
    ensures forall x :: x in Fresh(visited, Attempts(walls, e)) ==> Confined(walls, cells, weights, x.cfg)
  {
    var tries := Attempts(walls, e);
    FreshFacts(visited, tries);
    forall x | x in Fresh(visited, tries) ensures Confined(walls, cells, weights, x.cfg) {
      var k :| 0 <= k < 8 && tries[k] == Some(x);
      AttemptIsMove(walls, e, k);
      MoveStaysConfined(walls, cells, weights, e.cfg, AttemptLabel(k));
    }
  }

  /** The validator replays the entry's path to the entry's configuration
      and weight. */
  ghost predicate Sound(walls: set<Pos>, start: Config, e: Entry) {
    Replay(walls, start, e.path) == Completed(e.cfg, e.weight)
  }

  /** What one expansion of `e` appends, given the keys seen before it:
      replayable, confined entries one move longer than `e`, with distinct
      unseen keys, covering every legal move from `e`. */
  ghost predicate Successors(walls: set<Pos>, start: Config, cells: set<Pos>, ws: set<int>,
                             e: Entry, visited: set<Key>, added: seq<Entry>) {
    && (forall x :: x in added ==> Sound(walls, start, x) && Confined(walls, cells, ws, x.cfg))
    && (forall x :: x in added ==> |x.path| == |e.path| + 1)
    && (forall k :: k in KeysOf(added) ==> k !in visited)
    && (forall i, j :: 0 <= i < j < |added| ==> KeyOf(added[i].cfg) != KeyOf(added[j].cfg))
    && (forall ch :: ApplyMove(walls, e.cfg, ch).Moved? ==>
          KeyOf(ApplyMove(walls, e.cfg, ch).next) in visited + KeysOf(added))
  }

  /** The successors an expansion appends satisfy `Successors`. */
  lemma FreshAreSuccessors(walls: set<Pos>, start: Config, cells: set<Pos>, ws: set<int>, e: Entry, visited: set<Key>)
    requires Enclosed(walls, cells) && Sound(walls, start, e) && Confined(walls, cells, ws, e.cfg)
    ensures Successors(walls, start, cells, ws, e, visited, Fresh(visited, Attempts(walls, e)))
  {
    var tries := Attempts(walls, e);
    var f := Fresh(visited, tries);
    assert StonesOffWalls(walls, e.cfg.stones);
    FreshFacts(visited, tries);
    FreshAreReplayed(walls, start, e, visited);
    FreshConfined(walls, cells, ws, e, visited);
    forall ch | ApplyMove(walls, e.cfg, ch).Moved?
      ensures KeyOf(ApplyMove(walls, e.cfg, ch).next) in visited + KeysOf(f)
    {
      MoveIsAttempt(walls, e, ch);
    }
  }

  /** Every pending entry is replayed by the validator to its
      configuration, which lies in the enclosure. */
  ghost predicate AllSound(walls: set<Pos>, start: Config, cells: set<Pos>, ws: set<int>, es: seq<Entry>) {
    forall i :: 0 <= i < |es| ==> Sound(walls, start, es[i]) && Confined(walls, cells, ws, es[i].cfg)
  }

  /** Every expanded entry is replayed by the validator too. */
  ghost predicate DoneSound(walls: set<Pos>, start: Config, done: set<Entry>) {
    forall x :: x in done ==> Sound(walls, start, x)
  }

  /** Expanding a replayable entry keeps the expanded entries replayable. */
  lemma DoneGrows(walls: set<Pos>, start: Config, cells: set<Pos>, ws: set<int>, pending: seq<Entry>, i: nat,
                  done: set<Entry>)
    requires AllSound(walls, start, cells, ws, pending) && i < |pending| && DoneSound(walls, start, done)
    ensures DoneSound(walls, start, done + {pending[i]})
  {
  }

  /** Some sequence of moves the validator accepts leads from `start` to a
      configuration with key `k`. */
  ghost predicate Reachable(walls: set<Pos>, start: Config, k: Key) {
    exists moves :: Replay(walls, start, moves).Completed? && KeyOf(Replay(walls, start, moves).final) == k
  }

  /** Every seen key belongs to a replayable entry, pending or expanded,
      and so is reachable from the start. */
  lemma SeenReachable(walls: set<Pos>, start: Config, cells: set<Pos>, ws: set<int>, pending: seq<Entry>,
                      done: set<Entry>, visited: set<Key>)
    requires AllSound(walls, start, cells, ws, pending) && DoneSound(walls, start, done)
    requires visited == KeysOf(pending) + ExpandedKeys(done)
    ensures forall k :: k in visited ==> Reachable(walls, start, k)
  {
    forall k | k in visited ensures Reachable(walls, start, k) {
      var e: Entry;
      if k in KeysOf(pending) {
        var i :| 0 <= i < |pending| && KeyOf(pending[i].cfg) == k;
        e := pending[i];
      } else {
        e :| e in done && KeyOf(e.cfg) == k;
      }
      assert Sound(walls, start, e);
      assert Replay(walls, start, e.path).final == e.cfg;
    }
  }

  /** No expanded entry was a goal. */
  ghost predicate NoGoalDone(switches: set<Pos>, done: set<Entry>) {
    forall x :: x in done ==> !IsGoal(x.cfg, switches)
  }

  /** The keys of a concatenation. */
  lemma KeysOfConcat(a: seq<Entry>, b: seq<Entry>)
    ensures KeysOf(a + b) == KeysOf(a) + KeysOf(b)
  {
    forall k | k in KeysOf(a + b) ensures k in KeysOf(a) + KeysOf(b) {
      var i :| 0 <= i < |a + b| && KeyOf((a + b)[i].cfg) == k;
      if i < |a| { assert (a + b)[i] == a[i]; } else { assert (a + b)[i] == b[i - |a|]; }
    }
    forall k | k in KeysOf(a) ensures k in KeysOf(a + b) {
      var i :| 0 <= i < |a| && KeyOf(a[i].cfg) == k;
      assert (a + b)[i] == a[i];
    }
    forall k | k in KeysOf(b) ensures k in KeysOf(a + b) {
      var i :| 0 <= i < |b| && KeyOf(b[i].cfg) == k;
      assert (a + b)[|a| + i] == b[i];
    }
  }

  /** Counting and the finite universe after one expansion. */
  lemma StepCount(walls: set<Pos>, cells: set<Pos>, ws: set<int>, visited: set<Key>, added: seq<Entry>)
    requires visited <= AllKeys(cells, ws)
    requires forall x :: x in added ==> Confined(walls, cells, ws, x.cfg)
    requires forall k :: k in KeysOf(added) ==> k !in visited
    requires forall i, j :: 0 <= i < j < |added| ==> KeyOf(added[i].cfg) != KeyOf(added[j].cfg)
    ensures |visited + KeysOf(added)| == |visited| + |added|
    ensures visited + KeysOf(added) <= AllKeys(cells, ws)
  {
    DistinctKeysCount(added);
    assert visited * KeysOf(added) == {};
    forall k | k in KeysOf(added) ensures k in AllKeys(cells, ws) {
      var i :| 0 <= i < |added| && KeyOf(added[i].cfg) == k;
      ConfinedInUniverse(walls, cells, ws, added[i].cfg);
    }
  }


  /** The keys of a set of entries. */
  function ExpandedKeys(done: set<Entry>): set<Key> {
    set x | x in done :: KeyOf(x.cfg)
  }

  /** Every legal move from an expanded entry leads to a seen key. */
  ghost predicate ClosedUnderMoves(walls: set<Pos>, done: set<Entry>, seen: set<Key>) {
    forall x, ch :: x in done && ApplyMove(walls, x.cfg, ch).Moved? ==> KeyOf(ApplyMove(walls, x.cfg, ch).next) in seen
  }

  /** If the start is expanded and the expanded entries are closed under
      moves, every configuration the validator reaches is expanded. */
  lemma {:induction false} ClosedReach(walls: set<Pos>, start: Config, done: set<Entry>, moves: string)
    requires ClosedUnderMoves(walls, done, ExpandedKeys(done)) && KeyOf(start) in ExpandedKeys(done)
    requires Replay(walls, start, moves).Completed?
    ensures KeyOf(Replay(walls, start, moves).final) in ExpandedKeys(done)
    decreases |moves|
  {
    if moves != [] {
      var n := |moves| - 1;
      ReplayPrefix(walls, start, moves, n);
      ClosedReach(walls, start, done, moves[..n]);
      var c := Replay(walls, start, moves[..n]).final;
      var x :| x in done && KeyOf(x.cfg) == KeyOf(c);
      KeyOfCanonical(x.cfg, c);
      ReplayStep(walls, start, moves, n, c, Replay(walls, start, moves[..n]).weight);
      assert moves[..n + 1] == moves;
    } else {
      assert Replay(walls, start, moves).final == start;
    }
  }
}
