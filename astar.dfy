/** The A* solver (A.py): reads the grid and the stone weights, then
    repeatedly takes the least state by `__lt__` from a priority queue,
    stops at the first state whose heuristic is zero, and otherwise queues
    the successor in each of the four directions unless an equal state is
    already recorded. The moves are read back through the `before` links.
    The model follows the original in three places where it departs from
    the validator's rules: a push into a wall or another stone still yields
    a successor, with the agent on the stone's cell; `*` cells are read as
    floor; and an empty queue leaves `last` unbound. */
module AStar {
  import opened Rules
  import GridScan
  import opened AStarHeuristic
  import opened AStarState

  /** What the reading loop has found: the agent, (0, 0) when no `@` is
      seen, the stones with their weights, the switches, and how many
      weights were taken. */
  datatype Found = Found(player: Pos, stones: seq<Stone>, switches: seq<Pos>, used: nat)

  const Nothing: Found := Found((0, 0), [], [], 0)

  /** One cell of the reading loop. A stone takes the next weight, and
      running out of weights is the original's IndexError (None); every
      character other than `@`, `$` and `.`, `*` and `+` included, is
      passed over. */
  function ReadCell(s: Found, numbers: seq<int>, cell: (Pos, char)): Option<Found> {
    var (p, ch) := cell;
    if ch == '@' then Some(s.(player := p))
    else if ch == '$' then
      if s.used < |numbers| then Some(s.(stones := s.stones + [Stone(p.0, p.1, numbers[s.used])], used := s.used + 1))
      else None
    else if ch == '.' then Some(s.(switches := s.switches + [p]))
    else Some(s)
  }

  /** The reading loop over cells in row-major order. */
  function ReadAll(cells: seq<(Pos, char)>, numbers: seq<int>): Option<Found>
    decreases |cells|
  {
    if cells == [] then Some(Nothing)
    else
      var r := ReadAll(cells[..|cells| - 1], numbers);
      if r.None? then None else ReadCell(r.value, numbers, cells[|cells| - 1])
  }

  /** The positions of the cells holding `ch`, in reading order. */
  function CellsWith(cells: seq<(Pos, char)>, ch: char): seq<Pos>
    decreases |cells|
  {
    if cells == [] then []
    else CellsWith(cells[..|cells| - 1], ch) + (if cells[|cells| - 1].1 == ch then [cells[|cells| - 1].0] else [])
  }

  /** `f` is what reading `cells` finds: the k-th `$` cell becomes a
      stone with the k-th weight, the `.` cells are the switches in order,
      and the agent stands on the last `@` cell, or at (0, 0). */
  ghost predicate Describes(f: Found, cells: seq<(Pos, char)>, numbers: seq<int>) {
    var stoneCells := CellsWith(cells, '$');
    var agents := CellsWith(cells, '@');
    && f.used == |f.stones| == |stoneCells| <= |numbers|
    && (forall k :: 0 <= k < |f.stones| ==> At(f.stones[k]) == stoneCells[k] && f.stones[k].w == numbers[k])
    && f.switches == CellsWith(cells, '.')
    && f.player == (if agents == [] then (0, 0) else agents[|agents| - 1])
  }

  /** Reading succeeds exactly when there are enough weights for the
      stones, and then finds what `Describes` says. */
  lemma {:induction false} ReadAllFinds(cells: seq<(Pos, char)>, numbers: seq<int>)
    ensures ReadAll(cells, numbers).Some? <==> |CellsWith(cells, '$')| <= |numbers|
    ensures ReadAll(cells, numbers).Some? ==> Describes(ReadAll(cells, numbers).value, cells, numbers)
    decreases |cells|
  {
    if cells != [] {
      var init, c := cells[..|cells| - 1], cells[|cells| - 1];
      ReadAllFinds(init, numbers);
      var r := ReadAll(init, numbers);
      if r.Some? {
        var f := r.value;
        if c.1 == '$' && f.used < |numbers| {
          var f' := ReadCell(f, numbers, c).value;
          forall k | 0 <= k < |f'.stones|
            ensures At(f'.stones[k]) == CellsWith(cells, '$')[k] && f'.stones[k].w == numbers[k]
          {
            if k < |f.stones| {
              assert f'.stones[k] == f.stones[k];
            }
          }
        }
      }
    }
  }

  ghost function PositionsOf(cells: seq<(Pos, char)>): set<Pos> {
    set c | c in cells :: c.0
  }

  /** The cells holding `ch` are listed once each when no cell is listed
      twice. */
  lemma {:induction false} CellsWithDistinct(cells: seq<(Pos, char)>, ch: char)
    requires GridScan.DistinctPositions(cells)
    ensures forall a, b :: 0 <= a < b < |CellsWith(cells, ch)| ==> CellsWith(cells, ch)[a] != CellsWith(cells, ch)[b]
    ensures forall a :: 0 <= a < |CellsWith(cells, ch)| ==> CellsWith(cells, ch)[a] in PositionsOf(cells)
    decreases |cells|
  {
    if cells != [] {
      var init, last := cells[..|cells| - 1], cells[|cells| - 1];
      assert cells == init + [last];
      assert GridScan.DistinctPositions(init) by {
        forall a, b | 0 <= a < b < |init| ensures init[a].0 != init[b].0 {
          assert init[a] == cells[a] && init[b] == cells[b];
        }
      }
      CellsWithDistinct(init, ch);
      var w := CellsWith(init, ch);
      assert PositionsOf(cells) == PositionsOf(init) + {last.0};
      assert last.0 !in PositionsOf(init) by {
        forall c | c in init ensures c.0 != last.0 {
          var i :| 0 <= i < |init| && init[i] == c;
          assert cells[i] == c;
        }
      }
      if last.1 == ch {
        assert CellsWith(cells, ch) == w + [last.0];
      } else {
        assert CellsWith(cells, ch) == w;
      }
    }
  }

  /** The stones read from a grid stand on distinct cells. */
  lemma ReadApart(grid: GridScan.Grid, numbers: seq<int>)
    requires ReadAll(GridScan.Cells(grid), numbers).Some?
    ensures Apart(ReadAll(GridScan.Cells(grid), numbers).value.stones)
  {
    var cells := GridScan.Cells(grid);
    var f := ReadAll(cells, numbers).value;
    ReadAllFinds(cells, numbers);
    GridScan.CellsDistinct(grid);
    CellsWithDistinct(cells, '$');
    var stoneCells := CellsWith(cells, '$');
    forall i, j | 0 <= i < |f.stones| && 0 <= j < |f.stones| && i != j ensures At(f.stones[i]) != At(f.stones[j]) {
      assert At(f.stones[i]) == stoneCells[i] && At(f.stones[j]) == stoneCells[j];
    }
  }

  /** Once a stone finds no weight, reading fails whatever follows. */
  lemma {:induction false} ReadNoneSticky(cells: seq<(Pos, char)>, more: seq<(Pos, char)>, numbers: seq<int>)
    requires cells <= more && ReadAll(cells, numbers).None?
    ensures ReadAll(more, numbers).None?
    decreases |more|
  {
    if |more| > |cells| {
      assert cells <= more[..|more| - 1];
      ReadNoneSticky(cells, more[..|more| - 1], numbers);
    } else {
      assert cells == more;
    }
  }

  lemma ReadNext(grid: GridScan.Grid, i: nat, j: nat, numbers: seq<int>)
    requires i < |grid| && j < |grid[i]|
    ensures var before := ReadAll(GridScan.CellsUpTo(grid, i, j), numbers);
            ReadAll(GridScan.CellsUpTo(grid, i, j + 1), numbers) ==
              if before.None? then None else ReadCell(before.value, numbers, ((i, j), grid[i][j]))
  {
    GridScan.CellsUpToSnoc(grid, i, j);
    var cells := GridScan.CellsUpTo(grid, i, j + 1);
    assert cells[..|cells| - 1] == GridScan.CellsUpTo(grid, i, j);
  }

  /** The input loop of `main`, over rows and then cells. */
  method ReadInput(grid: GridScan.Grid, numbers: seq<int>) returns (r: Option<Found>)
    ensures r == ReadAll(GridScan.Cells(grid), numbers)
  {
    var found := Nothing;
    for i := 0 to |grid|
      invariant ReadAll(GridScan.Cells(grid[..i]), numbers) == Some(found)
    {
      var row := grid[i];
      GridScan.CellsUpToStart(grid, i);
      for j := 0 to |row|
        invariant ReadAll(GridScan.CellsUpTo(grid, i, j), numbers) == Some(found)
      {
        ReadNext(grid, i, j, numbers);
        var p := (i, j);
        if row[j] == '@' {
          found := found.(player := p);
        } else if row[j] == '$' {
          if found.used >= |numbers| {
            GridScan.CellsUpToRowEnd(grid, i);
            GridScan.CellsPrefix(grid, i + 1);
            assert GridScan.CellsUpTo(grid, i, j + 1) <= GridScan.CellsUpTo(grid, i, |grid[i]|);
            ReadNoneSticky(GridScan.CellsUpTo(grid, i, j + 1), GridScan.Cells(grid), numbers);
            return None;
          }
          found := found.(stones := found.stones + [Stone(i, j, numbers[found.used])], used := found.used + 1);
        } else if row[j] == '.' {
          found := found.(switches := found.switches + [p]);
        }
      }
      GridScan.CellsUpToRowEnd(grid, i);
    }
    assert grid[..|grid|] == grid;
    return Some(found);
  }

  /** `directions` and `dir_chars`: left, right, up, down. */
  const Order: seq<Dir> := [Left, Right, Up, Down]

  /** `check1`, `check2` and `pos1` after the stone loop. */
  datatype Probe = Probe(check1: bool, check2: bool, pos1: int)

  ghost predicate StoneAt(stones: seq<Stone>, p: Pos) {
    exists i :: 0 <= i < |stones| && At(stones[i]) == p
  }

  /** The stone loop: whether a stone is on the agent's target cell (and
      the last such index) and whether one is on the cell beyond. */
  function ProbeStones(stones: seq<Stone>, at: Pos, beyond: Pos): (r: Probe)
    ensures r.check1 <==> StoneAt(stones, at)
    ensures r.check2 <==> StoneAt(stones, beyond)
    ensures r.check1 ==> 0 <= r.pos1 < |stones| && At(stones[r.pos1]) == at
    ensures !r.check1 ==> r.pos1 == -1
    decreases |stones|
  {
    if stones == [] then Probe(false, false, -1)
    else
      var init, s := stones[..|stones| - 1], stones[|stones| - 1];
      var r := ProbeStones(init, at, beyond);
      assert forall i :: 0 <= i < |init| ==> init[i] == stones[i];
      Probe(r.check1 || At(s) == at, r.check2 || At(s) == beyond, if At(s) == at then |stones| - 1 else r.pos1)
  }

  /** The state the loop body builds for direction `d` before its f is
      set (the original starts it at -1), or None when the target cell is
      not valid. A stone on the target moves on when the cell beyond is
      valid and free, adding its weight to g; otherwise the state keeps the
      stones and g, with the agent on the target. */
  function Moved(grid: GridScan.Grid, top: AState, d: Dir): Option<AState>
    requires RowsCover(grid)
  {
    var t := Next((top.x, top.y), d);
    if !IsValid(grid, t.0, t.1) then None
    else
      var b := Next(t, d);
      var pr := ProbeStones(top.stones, t, b);
      if pr.check1 && IsValid(grid, b.0, b.1) && !pr.check2 then
        var w := top.stones[pr.pos1].w;
        Some(AState(-1, t.0, t.1, top.g + w, top.stones[pr.pos1 := Stone(b.0, b.1, w)]))
      else
        Some(AState(-1, t.0, t.1, top.g, top.stones))
  }

  /** The successor for direction `d`, with f = g + h. */
  function Successor(grid: GridScan.Grid, sws: seq<Pos>, top: AState, d: Dir): Option<AState>
    requires RowsCover(grid) && |top.stones| <= |sws|
  {
    var m := Moved(grid, top, d);
    if m.None? then None
    else
      assert |m.value.stones| == |top.stones|;
      Some(m.value.(f := m.value.g + Heuristic(m.value.stones, sws)))
  }

  lemma SuccessorOfMoved(grid: GridScan.Grid, sws: seq<Pos>, top: AState, d: Dir)
    requires RowsCover(grid) && |top.stones| <= |sws|
    ensures Moved(grid, top, d).None? ==> Successor(grid, sws, top, d).None?
    ensures Moved(grid, top, d).Some? ==>
              && |Moved(grid, top, d).value.stones| == |top.stones|
              && Successor(grid, sws, top, d) ==
                 Some(Moved(grid, top, d).value.(f := Moved(grid, top, d).value.g +
                                                       Heuristic(Moved(grid, top, d).value.stones, sws)))
  {
  }

  /** The successor rule: none off the grid or into a wall; otherwise the
      agent is on the target cell and f = g + h. A walk keeps the stones
      and g; a push moves just the stone on the target one cell on and
      adds its weight to g; a blocked push keeps the stones and g, with
      the agent standing on the stone. */
  lemma SuccessorShape(grid: GridScan.Grid, sws: seq<Pos>, top: AState, d: Dir)
    requires RowsCover(grid) && |top.stones| <= |sws|
    ensures var t := Next((top.x, top.y), d);
            Successor(grid, sws, top, d).None? <==> !IsValid(grid, t.0, t.1)
    ensures Successor(grid, sws, top, d).Some? ==>
              var s := Successor(grid, sws, top, d).value;
              && (s.x, s.y) == Next((top.x, top.y), d)
              && |s.stones| == |top.stones|
              && s.f == s.g + Heuristic(s.stones, sws)
    ensures Successor(grid, sws, top, d).Some? && !StoneAt(top.stones, Next((top.x, top.y), d)) ==>
              var s := Successor(grid, sws, top, d).value;
              s.stones == top.stones && s.g == top.g
    ensures var t := Next((top.x, top.y), d);
            var b := Next(t, d);
            Successor(grid, sws, top, d).Some? && StoneAt(top.stones, t) &&
            IsValid(grid, b.0, b.1) && !StoneAt(top.stones, b) ==>
              var s := Successor(grid, sws, top, d).value;
              exists i :: 0 <= i < |top.stones| && At(top.stones[i]) == t &&
                s.stones == top.stones[i := Stone(b.0, b.1, top.stones[i].w)] && s.g == top.g + top.stones[i].w
    ensures var t := Next((top.x, top.y), d);
            var b := Next(t, d);
            Successor(grid, sws, top, d).Some? && StoneAt(top.stones, t) &&
            (!IsValid(grid, b.0, b.1) || StoneAt(top.stones, b)) ==>
              var s := Successor(grid, sws, top, d).value;
              s.stones == top.stones && s.g == top.g && StoneAt(s.stones, (s.x, s.y))
  {
  }

  /** The stone loop of the loop body. */
  method ScanStones(stones: seq<Stone>, at: Pos, beyond: Pos) returns (check1: bool, check2: bool, pos1: int)
    ensures Probe(check1, check2, pos1) == ProbeStones(stones, at, beyond)
  {
    check1, check2, pos1 := false, false, -1;
    for i := 0 to |stones|
      invariant Probe(check1, check2, pos1) == ProbeStones(stones[..i], at, beyond)
    {
      assert stones[..i + 1][..i] == stones[..i];
      if stones[i].r == at.0 && stones[i].c == at.1 {
        check1 := true;
        pos1 := i;
      }
      if stones[i].r == beyond.0 && stones[i].c == beyond.1 {
        check2 := true;
      }
    }
    assert stones[..|stones|] == stones;
  }

  /** Lines 137 to 159 of the loop body: the new state for direction `d`
      with f still -1, when its target is valid. */
  method MoveAgent(grid: GridScan.Grid, top: AState, d: Dir) returns (r: Option<AState>)
    requires RowsCover(grid)
    ensures r == Moved(grid, top, d)
  {
    var v := Delta(d);
    var x, y, g, stones := top.x + v.0, top.y + v.1, top.g, top.stones;
    if !IsValid(grid, x, y) {
      return None;
    }
    var check1, check2, pos1 := ScanStones(top.stones, (x, y), (x + v.0, y + v.1));
    if check1 && IsValid(grid, x + v.0, y + v.1) && !check2 {
      g := g + top.stones[pos1].w;
      stones := stones[pos1 := Stone(x + v.0, y + v.1, stones[pos1].w)];
    }
    return Some(AState(-1, x, y, g, stones));
  }

  /** Lines 137 to 162 of the loop body: the successor for direction
      `d`, with its f set to g plus the heuristic. */
  method MakeSuccessor(grid: GridScan.Grid, switches: seq<Pos>, top: AState, d: Dir) returns (r: Option<AState>)
    requires RowsCover(grid) && |top.stones| <= |switches|
    ensures r == Successor(grid, switches, top, d)
  {
    var newstate := MoveAgent(grid, top, d);
    SuccessorOfMoved(grid, switches, top, d);
    if newstate.None? {
      return None;
    }
    var h := GetHeuristic(newstate.value.stones, switches);
    return Some(newstate.value.(f := newstate.value.g + h));
  }

  /** No two stones share a cell, as in every grid that is read. */
  ghost predicate Apart(stones: seq<Stone>) {
    forall i, j :: 0 <= i < |stones| && 0 <= j < |stones| && i != j ==> At(stones[i]) != At(stones[j])
  }

  /** A successor keeps the stones on distinct cells: a push only moves a
      stone onto a cell no stone holds. */
  lemma SuccessorApart(grid: GridScan.Grid, sws: seq<Pos>, a: AState, d: Dir)
    requires RowsCover(grid) && |a.stones| <= |sws| && Apart(a.stones)
    requires Successor(grid, sws, a, d).Some?
    ensures Apart(Successor(grid, sws, a, d).value.stones)
  {
    var t := Next((a.x, a.y), d);
    var beyond := Next(t, d);
    var pr := ProbeStones(a.stones, t, beyond);
    if pr.check1 && IsValid(grid, beyond.0, beyond.1) && !pr.check2 {
      var moved := a.stones[pr.pos1 := Stone(beyond.0, beyond.1, a.stones[pr.pos1].w)];
      forall i, j | 0 <= i < |moved| && 0 <= j < |moved| && i != j ensures At(moved[i]) != At(moved[j]) {
        if i != pr.pos1 && j != pr.pos1 {
          assert moved[i] == a.stones[i] && moved[j] == a.stones[j];
        } else if i == pr.pos1 {
          assert At(moved[j]) == At(a.stones[j]);
        } else {
          assert At(moved[i]) == At(a.stones[i]);
        }
      }
    }
  }

  /** Whether a stone stands on a cell depends only on which stones
      there are. */
  lemma StoneAtIgnoresOrder(a: seq<Stone>, b: seq<Stone>, p: Pos)
    requires multiset(a) == multiset(b)
    ensures StoneAt(a, p) <==> StoneAt(b, p)
  {
    if StoneAt(a, p) {
      var i :| 0 <= i < |a| && At(a[i]) == p;
      assert a[i] in multiset(b);
    }
    if StoneAt(b, p) {
      var i :| 0 <= i < |b| && At(b[i]) == p;
      assert b[i] in multiset(a);
    }
  }

  lemma MultisetUpdate<T>(a: seq<T>, i: nat, x: T)
    requires i < |a|
    ensures multiset(a[i := x]) == multiset(a) - multiset{a[i]} + multiset{x}
  {
    assert a == a[..i] + [a[i]] + a[i + 1..];
    assert a[i := x] == a[..i] + [x] + a[i + 1..];
  }

  /** With the stones on distinct cells, the one on a given cell is the
      same in every order of the list. */
  lemma SameStoneAt(a: seq<Stone>, b: seq<Stone>, i: nat, j: nat)
    requires multiset(a) == multiset(b) && Apart(a)
    requires i < |a| && j < |b| && At(a[i]) == At(b[j])
    ensures a[i] == b[j]
  {
    assert b[j] in multiset(a);
    var k :| 0 <= k < |a| && a[k] == b[j];
  }

  /** The push branch of `Moved` for two lists of the same stones on
      distinct cells moves the same stone to the same cell. */
  lemma PushCongruent(p: seq<Stone>, q: seq<Stone>, t: Pos, beyond: Pos)
    requires multiset(p) == multiset(q) && Apart(p)
    requires ProbeStones(p, t, beyond).check1 && ProbeStones(q, t, beyond).check1
    ensures var i, j := ProbeStones(p, t, beyond).pos1, ProbeStones(q, t, beyond).pos1;
            p[i].w == q[j].w &&
            multiset(p[i := Stone(beyond.0, beyond.1, p[i].w)]) == multiset(q[j := Stone(beyond.0, beyond.1, q[j].w)])
  {
    var i, j := ProbeStones(p, t, beyond).pos1, ProbeStones(q, t, beyond).pos1;
    SameStoneAt(p, q, i, j);
    var x := Stone(beyond.0, beyond.1, p[i].w);
    MultisetUpdate(p, i, x);
    MultisetUpdate(q, j, x);
  }

  /** Two states with one hash, their stones on distinct cells, move
      alike: the same directions give a state, with the same agent, g
      and stones. */
  lemma MovedCongruent(grid: GridScan.Grid, p: AState, q: AState, d: Dir)
    requires RowsCover(grid) && Apart(p.stones)
    requires p.x == q.x && p.y == q.y && p.g == q.g && multiset(p.stones) == multiset(q.stones)
    ensures Moved(grid, p, d).Some? <==> Moved(grid, q, d).Some?
    ensures Moved(grid, p, d).Some? ==>
              var mp, mq := Moved(grid, p, d).value, Moved(grid, q, d).value;
              mp.x == mq.x && mp.y == mq.y && mp.g == mq.g && multiset(mp.stones) == multiset(mq.stones)
  {
    var t := Next((p.x, p.y), d);
    var beyond := Next(t, d);
    var pp, pq := ProbeStones(p.stones, t, beyond), ProbeStones(q.stones, t, beyond);
    StoneAtIgnoresOrder(p.stones, q.stones, t);
    StoneAtIgnoresOrder(p.stones, q.stones, beyond);
    assert pp.check1 == pq.check1 && pp.check2 == pq.check2;
    if IsValid(grid, t.0, t.1) {
      if pp.check1 && IsValid(grid, beyond.0, beyond.1) && !pp.check2 {
        PushCongruent(p.stones, q.stones, t, beyond);
        var i, j := pp.pos1, pq.pos1;
        assert Moved(grid, p, d) == Some(AState(-1, t.0, t.1, p.g + p.stones[i].w,
                                                p.stones[i := Stone(beyond.0, beyond.1, p.stones[i].w)]));
        assert Moved(grid, q, d) == Some(AState(-1, t.0, t.1, q.g + q.stones[j].w,
                                                q.stones[j := Stone(beyond.0, beyond.1, q.stones[j].w)]));
      } else {
        assert Moved(grid, p, d) == Some(AState(-1, t.0, t.1, p.g, p.stones));
        assert Moved(grid, q, d) == Some(AState(-1, t.0, t.1, q.g, q.stones));
      }
    }
  }

  /** Two states with one hash, their stones on distinct cells, have
      successors with one hash in every direction. */
  lemma SuccessorCongruent(grid: GridScan.Grid, sws: seq<Pos>, p: AState, q: AState, d: Dir)
    requires RowsCover(grid) && |p.stones| <= |sws| && Hash(p) == Hash(q) && Apart(p.stones)
    ensures |q.stones| == |p.stones|
    ensures Successor(grid, sws, p, d).Some? <==> Successor(grid, sws, q, d).Some?
    ensures Successor(grid, sws, p, d).Some? ==>
              Hash(Successor(grid, sws, p, d).value) == Hash(Successor(grid, sws, q, d).value)
  {
    SameHash(sws, p, q);
    MovedCongruent(grid, p, q, d);
    SuccessorOfMoved(grid, sws, p, d);
    SuccessorOfMoved(grid, sws, q, d);
    if Moved(grid, p, d).Some? {
      var mp, mq := Moved(grid, p, d).value, Moved(grid, q, d).value;
      SortIgnoresOrder(mp.stones, mq.stones);
      HeuristicIgnoresOrder(mp.stones, mq.stones, sws);
    }
  }

  /** A queued state: `n` stones, as many switches, and f = g + h. */
  ghost predicate Wf(sws: seq<Pos>, n: nat, s: AState) {
    |s.stones| == n <= |sws| && s.f == s.g + Heuristic(s.stones, sws)
  }

  /** Moving `t` in direction `d` gives the state hashed `k`. */
  ghost predicate Leads(grid: GridScan.Grid, sws: seq<Pos>, t: AState, d: Dir, k: StateKey) {
    && RowsCover(grid) && |t.stones| <= |sws|
    && Successor(grid, sws, t, d).Some? && Hash(Successor(grid, sws, t, d).value) == k
  }

  /** The entry `before[k] = (t, ch)`: `ch` is the lower-case letter of the
      direction `dirs[k]`, and `t` was recorded earlier than `k`. */
  ghost predicate LinkOk(sws: seq<Pos>, n: nat, before: map<StateKey, (AState, char)>, dirs: map<StateKey, Dir>,
                         rank: map<StateKey, nat>, k: StateKey)
    requires k in before
  {
    && k in dirs && k in rank && Wf(sws, n, before[k].0)
    && Hash(before[k].0) in rank && rank[Hash(before[k].0)] < rank[k]
    && before[k].1 == WalkLabel(dirs[k])
  }

  /** Every `before` entry links a state to its successor. */
  ghost predicate LinksOk(grid: GridScan.Grid, sws: seq<Pos>, n: nat, before: map<StateKey, (AState, char)>,
                          dirs: map<StateKey, Dir>, rank: map<StateKey, nat>) {
    forall k :: k in before ==> LinkOk(sws, n, before, dirs, rank, k) && Leads(grid, sws, before[k].0, dirs[k], k)
  }

  /** Queued states are well formed and recorded. */
  ghost predicate QueueOk(sws: seq<Pos>, n: nat, queue: seq<AState>, fScore: map<StateKey, int>) {
    forall j :: 0 <= j < |queue| ==> Wf(sws, n, queue[j]) && Hash(queue[j]) in fScore
  }

  /** `f_score` and `g_score` hold each recorded state's own f and g. */
  ghost predicate ScoresOk(fScore: map<StateKey, int>, gScore: map<StateKey, int>) {
    && (forall k :: k in fScore ==> fScore[k] == k.f)
    && gScore.Keys == fScore.Keys
    && (forall k :: k in gScore ==> gScore[k] == k.g)
  }

  /** Every recorded state other than the start has a link, and `rank`
      numbers the recorded states below `clock`. */
  ghost predicate KeysOk(startKey: StateKey, fScore: map<StateKey, int>, before: map<StateKey, (AState, char)>,
                         dirs: map<StateKey, Dir>, rank: map<StateKey, nat>, clock: nat) {
    && fScore.Keys == before.Keys + {startKey} && startKey !in before
    && dirs.Keys == before.Keys && rank.Keys == fScore.Keys
    && (forall k :: k in rank ==> rank[k] < clock)
  }

  /** The loop invariant of the search. */
  ghost predicate Inv(grid: GridScan.Grid, sws: seq<Pos>, n: nat, startKey: StateKey, queue: seq<AState>,
                      fScore: map<StateKey, int>, gScore: map<StateKey, int>, before: map<StateKey, (AState, char)>,
                      dirs: map<StateKey, Dir>, rank: map<StateKey, nat>, clock: nat) {
    && RowsCover(grid)
    && QueueOk(sws, n, queue, fScore)
    && ScoresOk(fScore, gScore)
    && KeysOk(startKey, fScore, before, dirs, rank, clock)
    && LinksOk(grid, sws, n, before, dirs, rank)
  }

  /** The lower- and upper-case letters of a direction decode to it. */
  lemma DecodeLabels(d: Dir)
    ensures DecodeMove(WalkLabel(d)) == Some((d, false))
    ensures DecodeMove(PushLabel(d)) == Some((d, true))
  {
  }

  lemma RecordQueue(sws: seq<Pos>, n: nat, queue: seq<AState>, fScore: map<StateKey, int>, s: AState, v: int)
    requires QueueOk(sws, n, queue, fScore) && Wf(sws, n, s)
    ensures QueueOk(sws, n, queue + [s], fScore[Hash(s) := v])
  {
    var queue' := queue + [s];
    forall j | 0 <= j < |queue'| ensures Wf(sws, n, queue'[j]) && Hash(queue'[j]) in fScore[Hash(s) := v] {
      if j < |queue| {
        assert queue'[j] == queue[j];
      }
    }
  }

  lemma RecordLinks(grid: GridScan.Grid, sws: seq<Pos>, n: nat, before: map<StateKey, (AState, char)>,
                    dirs: map<StateKey, Dir>, rank: map<StateKey, nat>, clock: nat, top: AState, d: Dir, k: StateKey)
    requires LinksOk(grid, sws, n, before, dirs, rank) && (forall k' :: k' in rank ==> rank[k'] < clock)
    requires k !in rank && Wf(sws, n, top) && Hash(top) in rank && Leads(grid, sws, top, d, k)
    ensures LinksOk(grid, sws, n, before[k := (top, WalkLabel(d))], dirs[k := d], rank[k := clock])
  {
    var before', dirs', rank' := before[k := (top, WalkLabel(d))], dirs[k := d], rank[k := clock];
    forall k' | k' in before'
      ensures LinkOk(sws, n, before', dirs', rank', k') && Leads(grid, sws, before'[k'].0, dirs'[k'], k')
    {
      if k' != k {
        assert LinkOk(sws, n, before, dirs, rank, k');
        assert before'[k'] == before[k'] && dirs'[k'] == dirs[k'];
      }
    }
  }

  lemma RecordScores(fScore: map<StateKey, int>, gScore: map<StateKey, int>, k: StateKey)
    requires ScoresOk(fScore, gScore)
    ensures ScoresOk(fScore[k := k.f], gScore[k := k.g])
  {
  }

  lemma RecordKeys(startKey: StateKey, fScore: map<StateKey, int>, before: map<StateKey, (AState, char)>,
                   dirs: map<StateKey, Dir>, rank: map<StateKey, nat>, clock: nat, k: StateKey,
                   link: (AState, char), d: Dir)
    requires KeysOk(startKey, fScore, before, dirs, rank, clock) && k !in fScore
    ensures KeysOk(startKey, fScore[k := k.f], before[k := link], dirs[k := d], rank[k := clock], clock + 1)
  {
  }

  /** Recording a successor whose state is not yet recorded keeps the
      invariant. */
  lemma Record(grid: GridScan.Grid, sws: seq<Pos>, n: nat, startKey: StateKey, queue: seq<AState>,
               fScore: map<StateKey, int>, gScore: map<StateKey, int>, before: map<StateKey, (AState, char)>,
               dirs: map<StateKey, Dir>, rank: map<StateKey, nat>, clock: nat, top: AState, d: Dir)
    requires Inv(grid, sws, n, startKey, queue, fScore, gScore, before, dirs, rank, clock)
    requires Wf(sws, n, top) && Hash(top) in rank
    requires Successor(grid, sws, top, d).Some? && Hash(Successor(grid, sws, top, d).value) !in fScore
    ensures var s := Successor(grid, sws, top, d).value;
            var k := Hash(s);
            Inv(grid, sws, n, startKey, queue + [s], fScore[k := s.f], gScore[k := s.g],
                before[k := (top, WalkLabel(d))], dirs[k := d], rank[k := clock], clock + 1)
  {
    var s := Successor(grid, sws, top, d).value;
    var k := Hash(s);
    SuccessorShape(grid, sws, top, d);
    assert Wf(sws, n, s);
    RecordQueue(sws, n, queue, fScore, s, s.f);
    RecordLinks(grid, sws, n, before, dirs, rank, clock, top, d, k);
    RecordScores(fScore, gScore, k);
    RecordKeys(startKey, fScore, before, dirs, rank, clock, k, (top, WalkLabel(d)), d);
  }

  /** The same state is skipped exactly when it is already recorded:
      the recorded f-score is its own f. */
  lemma SkipIffRecorded(sws: seq<Pos>, n: nat, fScore: map<StateKey, int>, s: AState)
    requires (forall k :: k in fScore ==> fScore[k] == k.f) && Wf(sws, n, s)
    ensures (Hash(s) in fScore && fScore[Hash(s)] <= s.g + Heuristic(s.stones, sws)) <==> Hash(s) in fScore
  {
    assert Hash(s).f == s.f;
  }

  /** The four successors of `top`, in the order the direction loop
      tries them. */
  function Successors(grid: GridScan.Grid, sws: seq<Pos>, top: AState): (r: seq<Option<AState>>)
    requires RowsCover(grid) && |top.stones| <= |sws|
    ensures |r| == |Order| && forall m :: 0 <= m < |Order| ==> r[m] == Successor(grid, sws, top, Order[m])
  {
    seq(|Order|, m requires 0 <= m < |Order| => Successor(grid, sws, top, Order[m]))
  }

  /** What one direction adds to the queue: its successor, unless the
      successor's hash is recorded already. */
  function Fresh(s: Option<AState>, keys: set<StateKey>): seq<AState> {
    if s.Some? && Hash(s.value) !in keys then [s.value] else []
  }

  ghost function KeysOf(s: Option<AState>): set<StateKey> {
    if s.Some? then {Hash(s.value)} else {}
  }

  /** What a sequence of tries adds to the queue, in order. */
  function Added(succs: seq<Option<AState>>, keys: set<StateKey>): (r: seq<AState>)
    ensures |r| <= |succs|
    decreases |succs|
  {
    if succs == [] then []
    else Added(succs[..|succs| - 1], keys) + Fresh(succs[|succs| - 1], keys)
  }

  ghost function QueueKeys(queue: seq<AState>): set<StateKey> {
    set j | 0 <= j < |queue| :: Hash(queue[j])
  }

  lemma QueueKeysConcat(a: seq<AState>, b: seq<AState>)
    ensures QueueKeys(a + b) == QueueKeys(a) + QueueKeys(b)
  {
    forall k | k in QueueKeys(a + b) ensures k in QueueKeys(a) + QueueKeys(b) {
      var j :| 0 <= j < |a + b| && Hash((a + b)[j]) == k;
      if j < |a| {
        assert Hash(a[j]) == k;
      } else {
        assert Hash(b[j - |a|]) == k;
      }
    }
    forall k | k in QueueKeys(a) ensures k in QueueKeys(a + b) {
      var j :| 0 <= j < |a| && Hash(a[j]) == k;
      assert (a + b)[j] == a[j];
    }
    forall k | k in QueueKeys(b) ensures k in QueueKeys(a + b) {
      var j :| 0 <= j < |b| && Hash(b[j]) == k;
      assert (a + b)[|a| + j] == b[j];
    }
  }

  lemma FreshKeys(s: Option<AState>, keys: set<StateKey>)
    ensures keys + QueueKeys(Fresh(s, keys)) == keys + KeysOf(s)
  {
    if s.Some? && Hash(s.value) !in keys {
      assert Hash(Fresh(s, keys)[0]) == Hash(s.value);
    }
  }

  /** No two tries give states with the same hash. */
  ghost predicate KeysApart(succs: seq<Option<AState>>) {
    forall i, j :: 0 <= i < j < |succs| && succs[i].Some? && succs[j].Some? ==> Hash(succs[i].value) != Hash(succs[j].value)
  }

  /** Every successor of `top` is recorded. */
  ghost predicate Expanded(grid: GridScan.Grid, sws: seq<Pos>, top: AState, keys: set<StateKey>)
    requires RowsCover(grid) && |top.stones| <= |sws|
  {
    forall d :: Successor(grid, sws, top, d).Some? ==> Hash(Successor(grid, sws, top, d).value) in keys
  }

  /** The agent of a successor stands on the target cell. */
  lemma SuccessorAt(grid: GridScan.Grid, sws: seq<Pos>, top: AState, d: Dir)
    requires RowsCover(grid) && |top.stones| <= |sws| && Successor(grid, sws, top, d).Some?
    ensures (Successor(grid, sws, top, d).value.x, Successor(grid, sws, top, d).value.y) == Next((top.x, top.y), d)
  {
    SuccessorOfMoved(grid, sws, top, d);
  }

  /** Successors in different directions have different hashes: the agent
      stands on different cells. */
  lemma DirectionsDiffer(grid: GridScan.Grid, sws: seq<Pos>, top: AState, d1: Dir, d2: Dir)
    requires RowsCover(grid) && |top.stones| <= |sws| && d1 != d2
    requires Successor(grid, sws, top, d1).Some? && Successor(grid, sws, top, d2).Some?
    ensures Hash(Successor(grid, sws, top, d1).value) != Hash(Successor(grid, sws, top, d2).value)
  {
    SuccessorAt(grid, sws, top, d1);
    SuccessorAt(grid, sws, top, d2);
  }

  lemma SuccessorsApart(grid: GridScan.Grid, sws: seq<Pos>, top: AState)
    requires RowsCover(grid) && |top.stones| <= |sws|
    ensures KeysApart(Successors(grid, sws, top))
  {
    var succs := Successors(grid, sws, top);
    forall i, j | 0 <= i < j < |succs| && succs[i].Some? && succs[j].Some?
      ensures Hash(succs[i].value) != Hash(succs[j].value)
    {
      DirectionsDiffer(grid, sws, top, Order[i], Order[j]);
    }
  }

  /** The four directions of `Order` are all the directions. */
  lemma OrderCovers(grid: GridScan.Grid, sws: seq<Pos>, top: AState, keys: set<StateKey>)
    requires RowsCover(grid) && |top.stones| <= |sws|
    requires forall m :: 0 <= m < |Order| ==> KeysOf(Successors(grid, sws, top)[m]) <= keys
    ensures forall d :: Successor(grid, sws, top, d).Some? ==> Hash(Successor(grid, sws, top, d).value) in keys
  {
    var succs := Successors(grid, sws, top);
    forall d | Successor(grid, sws, top, d).Some? ensures Hash(Successor(grid, sws, top, d).value) in keys {
      var m := match d case Left => 0 case Right => 1 case Up => 2 case Down => 3;
      assert Order[m] == d;
      assert KeysOf(succs[m]) <= keys;
    }
  }

  /** One turn of the direction loop: build the successor and, unless
      the same state is recorded with an f-score no larger than its
      g + h, record its link, f and g and queue it. */
  method TryMove(grid: GridScan.Grid, switches: seq<Pos>, top: AState, d: Dir, queue: seq<AState>,
                 fScore: map<StateKey, int>, gScore: map<StateKey, int>, before: map<StateKey, (AState, char)>)
    returns (queue': seq<AState>, fScore': map<StateKey, int>, gScore': map<StateKey, int>, before': map<StateKey, (AState, char)>)
    requires RowsCover(grid) && |top.stones| <= |switches|
    ensures var s := Successor(grid, switches, top, d);
            if s.None? || (Hash(s.value) in fScore &&
                           fScore[Hash(s.value)] <= s.value.g + Heuristic(s.value.stones, switches))
            then queue' == queue && fScore' == fScore && gScore' == gScore && before' == before
            else
              && queue' == queue + [s.value]
              && fScore' == fScore[Hash(s.value) := s.value.f]
              && gScore' == gScore[Hash(s.value) := s.value.g]
              && before' == before[Hash(s.value) := (top, WalkLabel(d))]
  {
    queue', fScore', gScore', before' := queue, fScore, gScore, before;
    var next := MakeSuccessor(grid, switches, top, d);
    SuccessorShape(grid, switches, top, d);
    if next.Some? {
      var newstate := next.value;
      var h := GetHeuristic(newstate.stones, switches);
      var k := Hash(newstate);
      if k in fScore && fScore[k] <= newstate.g + h {
        return;
      }
      before' := before[k := (top, WalkLabel(d))];
      fScore' := fScore[k := newstate.f];
      gScore' := gScore[k := newstate.g];
      queue' := queue + [newstate];
    }
  }

  /** What one try does to the queue and to the recorded keys. */
  lemma TryEffect(sws: seq<Pos>, n: nat, s: Option<AState>, top: AState, d: Dir,
                  queue: seq<AState>, fScore: map<StateKey, int>, gScore: map<StateKey, int>, before: map<StateKey, (AState, char)>,
                  queue': seq<AState>, fScore': map<StateKey, int>, gScore': map<StateKey, int>, before': map<StateKey, (AState, char)>)
    requires forall k :: k in fScore ==> fScore[k] == k.f
    requires s.Some? ==> Wf(sws, n, s.value)
    requires if s.None? || (Hash(s.value) in fScore && fScore[Hash(s.value)] <= s.value.g + Heuristic(s.value.stones, sws))
             then queue' == queue && fScore' == fScore
             else queue' == queue + [s.value] && fScore' == fScore[Hash(s.value) := s.value.f]
    ensures queue' == queue + Fresh(s, fScore.Keys) && fScore'.Keys == fScore.Keys + KeysOf(s)
  {
    if s.Some? {
      SkipIffRecorded(sws, n, fScore, s.value);
    }
  }

  /** `TryMove` with the ghost bookkeeping of the invariant: a recorded
      state gets its direction and the next rank. */
  method Expand(grid: GridScan.Grid, switches: seq<Pos>, ghost n: nat, ghost startKey: StateKey, top: AState, d: Dir,
                queue: seq<AState>, fScore: map<StateKey, int>, gScore: map<StateKey, int>,
                before: map<StateKey, (AState, char)>, ghost dirs: map<StateKey, Dir>,
                ghost rank: map<StateKey, nat>, ghost clock: nat)
    returns (queue': seq<AState>, fScore': map<StateKey, int>, gScore': map<StateKey, int>,
             before': map<StateKey, (AState, char)>, ghost dirs': map<StateKey, Dir>,
             ghost rank': map<StateKey, nat>, ghost clock': nat)
    requires Inv(grid, switches, n, startKey, queue, fScore, gScore, before, dirs, rank, clock)
    requires Wf(switches, n, top) && Hash(top) in rank
    ensures Inv(grid, switches, n, startKey, queue', fScore', gScore', before', dirs', rank', clock')
    ensures Hash(top) in rank'
    ensures queue <= queue' && |queue'| <= |queue| + 1 && fScore.Keys <= fScore'.Keys
    ensures queue' == queue + Fresh(Successor(grid, switches, top, d), fScore.Keys)
    ensures fScore'.Keys == fScore.Keys + KeysOf(Successor(grid, switches, top, d))
  {
    ghost var next := Successor(grid, switches, top, d);
    SuccessorShape(grid, switches, top, d);
    ghost var recorded := next.Some? && Hash(next.value) !in fScore;
    if next.Some? {
      SkipIffRecorded(switches, n, fScore, next.value);
    }
    if recorded {
      Record(grid, switches, n, startKey, queue, fScore, gScore, before, dirs, rank, clock, top, d);
    }
    queue', fScore', gScore', before' := TryMove(grid, switches, top, d, queue, fScore, gScore, before);
    dirs', rank', clock' := dirs, rank, clock;
    TryEffect(switches, n, next, top, d, queue, fScore, gScore, before, queue', fScore', gScore', before');
    if recorded {
      dirs' := dirs[Hash(next.value) := d];
      rank' := rank[Hash(next.value) := clock];
      clock' := clock + 1;
    }
  }

  /** The loop over the four directions. */
  method ExpandAll(grid: GridScan.Grid, switches: seq<Pos>, ghost n: nat, ghost startKey: StateKey, top: AState,
                   queue: seq<AState>, fScore: map<StateKey, int>, gScore: map<StateKey, int>,
                   before: map<StateKey, (AState, char)>, ghost dirs: map<StateKey, Dir>,
                   ghost rank: map<StateKey, nat>, ghost clock: nat)
    returns (queue': seq<AState>, fScore': map<StateKey, int>, gScore': map<StateKey, int>,
             before': map<StateKey, (AState, char)>, ghost dirs': map<StateKey, Dir>,
             ghost rank': map<StateKey, nat>, ghost clock': nat)
    requires Inv(grid, switches, n, startKey, queue, fScore, gScore, before, dirs, rank, clock)
    requires Wf(switches, n, top) && Hash(top) in rank
    ensures Inv(grid, switches, n, startKey, queue', fScore', gScore', before', dirs', rank', clock')
    ensures queue <= queue' && |queue'| <= |queue| + |Order| && fScore.Keys <= fScore'.Keys
    ensures queue' == queue + Added(Successors(grid, switches, top), fScore.Keys)
    ensures fScore'.Keys == fScore.Keys + QueueKeys(Added(Successors(grid, switches, top), fScore.Keys))
    ensures Expanded(grid, switches, top, fScore'.Keys)
  {
    queue', fScore', gScore', before', dirs', rank', clock' := queue, fScore, gScore, before, dirs, rank, clock;
    ghost var succs := Successors(grid, switches, top);
    SuccessorsApart(grid, switches, top);
    assert succs[..0] == [];
    for k := 0 to |Order|
      invariant Inv(grid, switches, n, startKey, queue', fScore', gScore', before', dirs', rank', clock')
      invariant Hash(top) in rank'
      invariant ExpansionSoFar(succs, queue, fScore.Keys, k, queue', fScore'.Keys)
    {
      ghost var q, fs := queue', fScore';
      queue', fScore', gScore', before', dirs', rank', clock' :=
        Expand(grid, switches, n, startKey, top, Order[k], queue', fScore', gScore', before', dirs', rank', clock');
      ExpansionStep(succs, queue, fScore.Keys, k, q, fs.Keys, queue', fScore'.Keys);
    }
    assert succs[..|Order|] == succs;
    OrderCovers(grid, switches, top, fScore'.Keys);
  }

  /** After the first `k` tries: the queue has gained exactly what those
      tries add, their successors are recorded, and the successors of the
      remaining tries are recorded exactly when they were before. */
  ghost predicate ExpansionSoFar(succs: seq<Option<AState>>, queue: seq<AState>, keys: set<StateKey>, k: nat,
                                 queue': seq<AState>, keys': set<StateKey>)
  {
    && k <= |succs|
    && queue' == queue + Added(succs[..k], keys)
    && keys' == keys + QueueKeys(Added(succs[..k], keys))
    && (forall m :: 0 <= m < k ==> KeysOf(succs[m]) <= keys')
    && (forall m :: k <= m < |succs| && succs[m].Some? ==> (Hash(succs[m].value) in keys' <==> Hash(succs[m].value) in keys))
  }

  lemma AddedStep(succs: seq<Option<AState>>, keys: set<StateKey>, k: nat)
    requires k < |succs|
    ensures Added(succs[..k + 1], keys) == Added(succs[..k], keys) + Fresh(succs[k], keys)
  {
    assert succs[..k + 1][..k] == succs[..k];
  }

  lemma ExpansionStep(succs: seq<Option<AState>>, queue: seq<AState>, keys: set<StateKey>, k: nat,
                      q: seq<AState>, ks: set<StateKey>, q': seq<AState>, ks': set<StateKey>)
    requires KeysApart(succs) && k < |succs|
    requires ExpansionSoFar(succs, queue, keys, k, q, ks)
    requires q' == q + Fresh(succs[k], ks) && ks' == ks + KeysOf(succs[k])
    ensures ExpansionSoFar(succs, queue, keys, k + 1, q', ks')
  {
    assert Fresh(succs[k], ks) == Fresh(succs[k], keys);
    AddedStep(succs, keys, k);
    StepKeys(succs, keys, k, ks, ks');
    StepUntouched(succs, keys, k, ks, ks');
    StepRecorded(succs, k, ks, ks');
  }

  lemma StepRecorded(succs: seq<Option<AState>>, k: nat, ks: set<StateKey>, ks': set<StateKey>)
    requires k < |succs| && ks' == ks + KeysOf(succs[k])
    requires forall m :: 0 <= m < k ==> KeysOf(succs[m]) <= ks
    ensures forall m :: 0 <= m < k + 1 ==> KeysOf(succs[m]) <= ks'
  {
  }

  lemma StepKeys(succs: seq<Option<AState>>, keys: set<StateKey>, k: nat, ks: set<StateKey>, ks': set<StateKey>)
    requires k < |succs|
    requires ks == keys + QueueKeys(Added(succs[..k], keys)) && ks' == ks + KeysOf(succs[k])
    ensures ks' == keys + QueueKeys(Added(succs[..k + 1], keys))
  {
    AddedStep(succs, keys, k);
    QueueKeysConcat(Added(succs[..k], keys), Fresh(succs[k], keys));
    FreshKeys(succs[k], keys);
  }

  lemma StepUntouched(succs: seq<Option<AState>>, keys: set<StateKey>, k: nat, ks: set<StateKey>, ks': set<StateKey>)
    requires KeysApart(succs) && k < |succs| && ks' == ks + KeysOf(succs[k])
    requires forall m :: k <= m < |succs| && succs[m].Some? ==> (Hash(succs[m].value) in ks <==> Hash(succs[m].value) in keys)
    ensures forall m :: k + 1 <= m < |succs| && succs[m].Some? ==> (Hash(succs[m].value) in ks' <==> Hash(succs[m].value) in keys)
  {
    forall m | k + 1 <= m < |succs| && succs[m].Some?
      ensures Hash(succs[m].value) in ks' <==> Hash(succs[m].value) in keys
    {
      if succs[k].Some? {
        assert Hash(succs[k].value) != Hash(succs[m].value);
      }
    }
  }



  /** The start state alone is queued and recorded. */
  lemma StartInv(grid: GridScan.Grid, sws: seq<Pos>, start: AState)
    requires RowsCover(grid) && Wf(sws, |start.stones|, start)
    ensures Inv(grid, sws, |start.stones|, Hash(start), [start], map[Hash(start) := start.f],
                map[Hash(start) := start.g], map[], map[], map[Hash(start) := 0], 1)
  {
    assert Hash(start).f == start.f && Hash(start).g == start.g;
  }

  lemma QueueSizes(sws: seq<Pos>, n: nat, queue: seq<AState>, fScore: map<StateKey, int>)
    requires QueueOk(sws, n, queue, fScore)
    ensures forall j :: 0 <= j < |queue| ==> |queue[j].stones| == n
  {
    forall j | 0 <= j < |queue| ensures |queue[j].stones| == n {
      assert Wf(sws, n, queue[j]);
    }
  }

  /** Taking a state off the queue keeps the invariant, and the state is
      well formed and recorded. */
  lemma Popped(grid: GridScan.Grid, sws: seq<Pos>, n: nat, startKey: StateKey, queue: seq<AState>,
               fScore: map<StateKey, int>, gScore: map<StateKey, int>, before: map<StateKey, (AState, char)>,
               dirs: map<StateKey, Dir>, rank: map<StateKey, nat>, clock: nat, i: nat)
    requires Inv(grid, sws, n, startKey, queue, fScore, gScore, before, dirs, rank, clock) && i < |queue|
    ensures Wf(sws, n, queue[i]) && Hash(queue[i]) in rank && Hash(queue[i]) in fScore
    ensures fScore[Hash(queue[i])] == queue[i].f
    ensures rank.Keys == before.Keys + {startKey}
    ensures Inv(grid, sws, n, startKey, Without(queue, i), fScore, gScore, before, dirs, rank, clock)
  {
    PopQueue(sws, n, queue, fScore, i);
  }

  /** `queue.get()`: an entry no other entry is below by `__lt__`. */
  method PopFirst(queue: seq<AState>, ghost n: nat) returns (i: nat)
    requires queue != [] && forall j :: 0 <= j < |queue| ==> |queue[j].stones| == n
    ensures i < |queue| && forall j :: 0 <= j < |queue| ==> !Less(queue[j], queue[i])
  {
    i := 0;
    LessIsStrictTotal(queue[0], queue[0], queue[0]);
    for t := 1 to |queue|
      invariant i < t && forall j :: 0 <= j < t ==> !Less(queue[j], queue[i])
    {
      if Less(queue[t], queue[i]) {
        forall j | 0 <= j < t ensures !Less(queue[j], queue[t]) {
          LessIsStrictTotal(queue[j], queue[t], queue[i]);
        }
        LessIsStrictTotal(queue[t], queue[t], queue[t]);
        i := t;
      }
    }
  }

  lemma PopQueue(sws: seq<Pos>, n: nat, queue: seq<AState>, fScore: map<StateKey, int>, i: nat)
    requires QueueOk(sws, n, queue, fScore) && i < |queue|
    ensures QueueOk(sws, n, Without(queue, i), fScore)
  {
    var rest := Without(queue, i);
    forall j | 0 <= j < |rest| ensures Wf(sws, n, rest[j]) && Hash(rest[j]) in fScore {
      assert rest[j] == if j < i then queue[j] else queue[j + 1];
    }
  }

  /** Consecutive states of a path: decoding the letter gives a direction
      whose successor of `a` is equal to `b`, and the letter is upper-case
      exactly when g changes. */
  ghost predicate Step(grid: GridScan.Grid, sws: seq<Pos>, a: AState, ch: char, b: AState)
    requires RowsCover(grid) && |a.stones| <= |sws|
  {
    && DecodeMove(ch).Some?
    && Successor(grid, sws, a, DecodeMove(ch).value.0).Some?
    && Hash(Successor(grid, sws, a, DecodeMove(ch).value.0).value) == Hash(b)
    && (DecodeMove(ch).value.1 <==> a.g != b.g)
  }

  /** `cs` are the states visited along `path`. */
  ghost predicate Linked(grid: GridScan.Grid, sws: seq<Pos>, cs: seq<AState>, path: string) {
    && RowsCover(grid)
    && |cs| == |path| + 1
    && (forall i :: 0 <= i < |cs| ==> |cs[i].stones| <= |sws|)
    && forall i :: 0 <= i < |path| ==> Step(grid, sws, cs[i], path[i], cs[i + 1])
  }

  lemma LinkedCons(grid: GridScan.Grid, sws: seq<Pos>, a: AState, ch: char, cs: seq<AState>, path: string)
    requires Linked(grid, sws, cs, path) && |a.stones| <= |sws| && Step(grid, sws, a, ch, cs[0])
    ensures Linked(grid, sws, [a] + cs, [ch] + path)
  {
    var cs', path' := [a] + cs, [ch] + path;
    forall i | 0 <= i < |path'| ensures Step(grid, sws, cs'[i], path'[i], cs'[i + 1]) {
      if i > 0 {
        assert cs'[i] == cs[i - 1] && cs'[i + 1] == cs[i] && path'[i] == path[i - 1];
      }
    }
  }

  /** `reversed`. */
  function Reverse(s: string): (r: string)
    ensures |r| == |s| && forall i :: 0 <= i < |s| ==> r[i] == s[|s| - 1 - i]
    decreases |s|
  {
    if s == [] then [] else [s[|s| - 1]] + Reverse(s[..|s| - 1])
  }

  /** A `before` link read back: the letter, upper-cased when g changed,
      is a step of the path. */
  lemma LinkStep(grid: GridScan.Grid, sws: seq<Pos>, t: AState, d: Dir, b: AState, ch: char)
    requires Leads(grid, sws, t, d, Hash(b))
    requires ch == if t.g != b.g then PushLabel(d) else WalkLabel(d)
    ensures Step(grid, sws, t, ch, b)
  {
    DecodeLabels(d);
  }

  /** One turn of the reconstruction loop keeps the chain linked and
      goes to an earlier recorded state. */
  lemma BackStep(grid: GridScan.Grid, sws: seq<Pos>, n: nat, before: map<StateKey, (AState, char)>,
                 dirs: map<StateKey, Dir>, rank: map<StateKey, nat>, chain: seq<AState>, reversed: string,
                 move: char)
    requires LinksOk(grid, sws, n, before, dirs, rank)
    requires Linked(grid, sws, chain, Reverse(reversed)) && Hash(chain[0]) in before
    requires var (prev, ch) := before[Hash(chain[0])];
             move == if prev.g != chain[0].g then Upper(ch) else ch
    ensures var prev := before[Hash(chain[0])].0;
            && Linked(grid, sws, [prev] + chain, Reverse(reversed + [move]))
            && Wf(sws, n, prev) && Hash(prev) in rank && Hash(chain[0]) in rank
            && rank[Hash(prev)] < rank[Hash(chain[0])]
  {
    var k := Hash(chain[0]);
    var (prev, ch) := before[k];
    assert LinkOk(sws, n, before, dirs, rank, k) && Leads(grid, sws, prev, dirs[k], k);
    UpperWalkIsPush(dirs[k]);
    LinkStep(grid, sws, prev, dirs[k], chain[0], move);
    LinkedCons(grid, sws, prev, move, chain, Reverse(reversed));
    assert (reversed + [move])[..|reversed|] == reversed;
  }

  /** Every letter of a linked path is one of the eight move letters. */
  lemma LinkedLetters(grid: GridScan.Grid, sws: seq<Pos>, cs: seq<AState>, path: string)
    requires Linked(grid, sws, cs, path)
    ensures forall i :: 0 <= i < |path| ==> IsMoveLetter(path[i])
  {
    forall i | 0 <= i < |path| ensures IsMoveLetter(path[i]) {
      assert Step(grid, sws, cs[i], path[i], cs[i + 1]);
    }
  }

  /** A step changes one coordinate by one. */
  lemma NextAdjacent(p: Pos, d: Dir)
    ensures Abs(p.0 - Next(p, d).0) + Abs(p.1 - Next(p, d).1) == 1
  {
  }

  /** Every successor keeps the weights of the stones. */
  lemma SuccessorWeights(grid: GridScan.Grid, sws: seq<Pos>, a: AState, d: Dir)
    requires RowsCover(grid) && |a.stones| <= |sws| && WeightsNonNegative(a.stones)
    requires Successor(grid, sws, a, d).Some?
    ensures WeightsNonNegative(Successor(grid, sws, a, d).value.stones)
  {
  }

  /** The heuristic is consistent: across any successor, including a
      blocked push, it drops by no more than the weight the step adds to
      g. */
  lemma HeuristicConsistent(grid: GridScan.Grid, sws: seq<Pos>, a: AState, d: Dir)
    requires RowsCover(grid) && |a.stones| <= |sws| && WeightsNonNegative(a.stones)
    requires Successor(grid, sws, a, d).Some?
    ensures var b := Successor(grid, sws, a, d).value;
            |b.stones| == |a.stones| &&
            Heuristic(a.stones, sws) <= (b.g - a.g) + Heuristic(b.stones, sws)
  {
    var t := Next((a.x, a.y), d);
    var beyond := Next(t, d);
    var pr := ProbeStones(a.stones, t, beyond);
    if pr.check1 && IsValid(grid, beyond.0, beyond.1) && !pr.check2 {
      var w := a.stones[pr.pos1].w;
      NextAdjacent(t, d);
      HeuristicShift(a.stones, sws, pr.pos1, Stone(beyond.0, beyond.1, w));
    }
  }

  /** States with one hash have the same g, the same stones in some
      order, and so the same heuristic. */
  lemma SameHash(sws: seq<Pos>, a: AState, b: AState)
    requires |a.stones| <= |sws| && Hash(a) == Hash(b)
    ensures a.f == b.f && a.x == b.x && a.y == b.y && a.g == b.g
    ensures multiset(a.stones) == multiset(b.stones) && |b.stones| == |a.stones|
    ensures Heuristic(a.stones, sws) == Heuristic(b.stones, sws)
  {
    SortIgnoresOrder(a.stones, b.stones);
    HeuristicIgnoresOrder(a.stones, b.stones, sws);
  }

  lemma LinkedTail(grid: GridScan.Grid, sws: seq<Pos>, cs: seq<AState>, path: string)
    requires Linked(grid, sws, cs, path) && path != []
    ensures Linked(grid, sws, cs[1..], path[1..])
  {
    forall i | 0 <= i < |path| - 1 ensures Step(grid, sws, cs[1..][i], path[1..][i], cs[1..][i + 1]) {
      assert Step(grid, sws, cs[i + 1], path[i + 1], cs[i + 2]);
    }
  }

  /** The heuristic is admissible: along any path of successor steps it
      is at most the weight the path adds to g plus the heuristic where it
      ends, so at most the weight to a goal. */
  lemma {:induction false} HeuristicAdmissible(grid: GridScan.Grid, sws: seq<Pos>, cs: seq<AState>, path: string)
    requires Linked(grid, sws, cs, path) && WeightsNonNegative(cs[0].stones)
    ensures Heuristic(cs[0].stones, sws) <= cs[|cs| - 1].g - cs[0].g + Heuristic(cs[|cs| - 1].stones, sws)
    ensures IsGoalState(cs[|cs| - 1].stones, sws) ==> Heuristic(cs[0].stones, sws) <= cs[|cs| - 1].g - cs[0].g
    decreases |path|
  {
    if path != [] {
      assert Step(grid, sws, cs[0], path[0], cs[1]);
      var d := DecodeMove(path[0]).value.0;
      var s := Successor(grid, sws, cs[0], d).value;
      HeuristicConsistent(grid, sws, cs[0], d);
      SuccessorWeights(grid, sws, cs[0], d);
      SameHash(sws, s, cs[1]);
      WeightsNonNegativeTransfer(s.stones, cs[1].stones);
      LinkedTail(grid, sws, cs, path);
      HeuristicAdmissible(grid, sws, cs[1..], path[1..]);
      assert cs[1..][|cs[1..]| - 1] == cs[|cs| - 1];
    }
  }

  /** The reconstruction at the end of `main`: follow the `before` links
      back from `last`, upper-casing a letter when g changed across it,
      and reverse. The result is a path of successor steps from the start
      to `last`. */
  method Reconstruct(grid: GridScan.Grid, switches: seq<Pos>, ghost n: nat, before: map<StateKey, (AState, char)>,
                     last: AState, ghost dirs: map<StateKey, Dir>, ghost rank: map<StateKey, nat>,
                     ghost startKey: StateKey)
    returns (path: string, ghost chain: seq<AState>)
    requires RowsCover(grid) && LinksOk(grid, switches, n, before, dirs, rank)
    requires rank.Keys == before.Keys + {startKey}
    requires Wf(switches, n, last) && Hash(last) in rank
    ensures Linked(grid, switches, chain, path)
    ensures chain[|chain| - 1] == last && Hash(chain[0]) == startKey
    ensures forall i :: 0 <= i < |path| ==> IsMoveLetter(path[i])
  {
    var current := last;
    var reversed: string := [];
    chain := [last];
    while Hash(current) in before
      invariant Linked(grid, switches, chain, Reverse(reversed))
      invariant chain[0] == current && chain[|chain| - 1] == last && Hash(current) in rank
      decreases rank[Hash(current)]
    {
      var (prevState, move) := before[Hash(current)];
      if prevState.g != current.g {
        move := Upper(move);
      }
      BackStep(grid, switches, n, before, dirs, rank, chain, reversed, move);
      reversed := reversed + [move];
      chain := [prevState] + chain;
      current := prevState;
    }
    path := Reverse(reversed);
    LinkedLetters(grid, switches, chain, path);
  }

  /** How the original ends: a printed weight, path and node count; a
      NameError on `last` after the queue runs dry; an IndexError while
      reading weights or computing the first heuristic; or, in the model
      only, the bound on pops reached. */
  datatype Outcome = Reached(weight: int, path: string, nodes: nat) | LastUnbound(nodes: nat)
                   | WeightsMissing | SwitchesMissing | OutOfFuel

  /** The states taken off the queue and expanded, by hash: none is a
      goal, and every successor of each is recorded. */
  ghost predicate ClosedOk(grid: GridScan.Grid, sws: seq<Pos>, n: nat, keys: set<StateKey>, closed: map<StateKey, AState>) {
    && RowsCover(grid)
    && forall k :: k in closed ==>
         && Hash(closed[k]) == k && Wf(sws, n, closed[k]) && Apart(closed[k].stones)
         && !IsGoalState(closed[k].stones, sws) && Expanded(grid, sws, closed[k], keys)
  }

  ghost predicate QueueApart(queue: seq<AState>) {
    forall j :: 0 <= j < |queue| ==> Apart(queue[j].stones)
  }

  /** Every recorded state is either expanded or still queued. */
  ghost predicate Closure(grid: GridScan.Grid, sws: seq<Pos>, n: nat, queue: seq<AState>, keys: set<StateKey>,
                          closed: map<StateKey, AState>) {
    && ClosedOk(grid, sws, n, keys, closed)
    && QueueApart(queue)
    && keys <= closed.Keys + QueueKeys(queue)
  }

  lemma PopClosure(grid: GridScan.Grid, sws: seq<Pos>, n: nat, queue: seq<AState>, keys: set<StateKey>,
                   closed: map<StateKey, AState>, i: nat)
    requires Closure(grid, sws, n, queue, keys, closed) && i < |queue|
    ensures Apart(queue[i].stones) && QueueApart(Without(queue, i))
    ensures keys <= closed.Keys + QueueKeys(Without(queue, i)) + {Hash(queue[i])}
  {
    QueueKeysWithout(queue, i);
  }

  lemma QueueKeysWithout(queue: seq<AState>, i: nat)
    requires i < |queue|
    ensures QueueKeys(queue) <= QueueKeys(Without(queue, i)) + {Hash(queue[i])}
  {
    var front, back := queue[..i], queue[i + 1..];
    assert queue == front + ([queue[i]] + back);
    assert Without(queue, i) == front + back;
    QueueKeysConcat(front, [queue[i]] + back);
    QueueKeysConcat([queue[i]], back);
    QueueKeysConcat(front, back);
    assert QueueKeys([queue[i]]) == {Hash(queue[i])} by {
      assert Hash([queue[i]][0]) == Hash(queue[i]);
    }
  }



  lemma AddedApart(succs: seq<Option<AState>>, keys: set<StateKey>)
    requires forall m :: 0 <= m < |succs| && succs[m].Some? ==> Apart(succs[m].value.stones)
    ensures QueueApart(Added(succs, keys))
    decreases |succs|
  {
    if succs != [] {
      var init := succs[..|succs| - 1];
      AddedApart(init, keys);
      var a: seq<AState> := Added(init, keys);
      var piece: seq<AState> := Fresh(succs[|succs| - 1], keys);
      forall j | 0 <= j < |a + piece| ensures Apart((a + piece)[j].stones) {
        if j >= |a| {
          assert (a + piece)[j] == succs[|succs| - 1].value;
        }
      }
    }
  }

  lemma QueueGrow(grid: GridScan.Grid, sws: seq<Pos>, top: AState, queue: seq<AState>, keys: set<StateKey>)
    requires RowsCover(grid) && |top.stones| <= |sws| && Apart(top.stones) && QueueApart(queue)
    ensures QueueApart(queue + Added(Successors(grid, sws, top), keys))
    ensures QueueKeys(queue + Added(Successors(grid, sws, top), keys)) ==
              QueueKeys(queue) + QueueKeys(Added(Successors(grid, sws, top), keys))
  {
    var succs := Successors(grid, sws, top);
    forall m | 0 <= m < |succs| && succs[m].Some? ensures Apart(succs[m].value.stones) {
      SuccessorApart(grid, sws, top, Order[m]);
    }
    var added := Added(succs, keys);
    AddedApart(succs, keys);
    forall j | 0 <= j < |queue + added| ensures Apart((queue + added)[j].stones) {
      if j >= |queue| {
        assert (queue + added)[j] == added[j - |queue|];
      }
    }
    QueueKeysConcat(queue, added);
  }

  lemma ClosedGrow(grid: GridScan.Grid, sws: seq<Pos>, n: nat, top: AState, keys: set<StateKey>, keys': set<StateKey>,
                   closed: map<StateKey, AState>)
    requires ClosedOk(grid, sws, n, keys, closed) && keys <= keys'
    requires Wf(sws, n, top) && Apart(top.stones) && !IsGoalState(top.stones, sws) && Expanded(grid, sws, top, keys')
    ensures ClosedOk(grid, sws, n, keys', closed[Hash(top) := top])
  {
    forall k | k in closed && k != Hash(top) ensures Expanded(grid, sws, closed[k], keys') {
      assert Expanded(grid, sws, closed[k], keys);
    }
  }

  /** Expanding `top` moves it from the queue to the expanded states. */
  lemma CloseTop(grid: GridScan.Grid, sws: seq<Pos>, n: nat, top: AState, queue: seq<AState>, keys: set<StateKey>,
                 closed: map<StateKey, AState>, queue': seq<AState>, keys': set<StateKey>)
    requires ClosedOk(grid, sws, n, keys, closed) && QueueApart(queue)
    requires keys <= closed.Keys + QueueKeys(queue) + {Hash(top)}
    requires Wf(sws, n, top) && Apart(top.stones) && !IsGoalState(top.stones, sws)
    requires queue' == queue + Added(Successors(grid, sws, top), keys)
    requires keys' == keys + QueueKeys(Added(Successors(grid, sws, top), keys))
    requires Expanded(grid, sws, top, keys')
    ensures Closure(grid, sws, n, queue', keys', closed[Hash(top) := top])
  {
    QueueGrow(grid, sws, top, queue, keys);
    ClosedGrow(grid, sws, n, top, keys, keys', closed);
  }

  /** One move from an expanded state leads to a recorded state. */
  lemma ClosedStep(grid: GridScan.Grid, sws: seq<Pos>, n: nat, keys: set<StateKey>, closed: map<StateKey, AState>,
                   a: AState, ch: char, b: AState)
    requires ClosedOk(grid, sws, n, keys, closed) && Hash(a) in closed
    requires |a.stones| <= |sws| && Step(grid, sws, a, ch, b)
    ensures Hash(b) in keys
  {
    var c := closed[Hash(a)];
    var d := DecodeMove(ch).value.0;
    SuccessorCongruent(grid, sws, c, a, d);
    assert Expanded(grid, sws, c, keys);
  }

  /** From an expanded state every chain of moves stays among expanded
      states, so none ends in a goal. */
  lemma {:induction false} ClosedChain(grid: GridScan.Grid, sws: seq<Pos>, n: nat, keys: set<StateKey>,
                                       closed: map<StateKey, AState>, cs: seq<AState>, path: string)
    requires ClosedOk(grid, sws, n, keys, closed) && keys <= closed.Keys
    requires Linked(grid, sws, cs, path) && Hash(cs[0]) in closed
    ensures !IsGoalState(cs[|cs| - 1].stones, sws)
    decreases |path|
  {
    if path == [] {
      SameHash(sws, closed[Hash(cs[0])], cs[0]);
    } else {
      ClosedStep(grid, sws, n, keys, closed, cs[0], path[0], cs[1]);
      LinkedTail(grid, sws, cs, path);
      ClosedChain(grid, sws, n, keys, closed, cs[1..], path[1..]);
    }
  }

  /** No chain of successor steps from a state with the hash of `start`
      ends in a goal. */
  ghost predicate NoGoalFrom(grid: GridScan.Grid, sws: seq<Pos>, start: AState) {
    forall cs: seq<AState>, path: string :: Linked(grid, sws, cs, path) && Hash(cs[0]) == Hash(start) ==>
      !IsGoalState(cs[|cs| - 1].stones, sws)
  }

  /** Every chain of successor steps from a state with the hash of `start`
      to a goal ends with g at least `w`. */
  ghost predicate NoneCheaper(grid: GridScan.Grid, sws: seq<Pos>, start: AState, w: int) {
    forall cs: seq<AState>, path: string ::
      Linked(grid, sws, cs, path) && Hash(cs[0]) == Hash(start) && IsGoalState(cs[|cs| - 1].stones, sws) ==>
        w <= cs[|cs| - 1].g
  }

  /** With the queue empty and the start recorded, no chain of moves from
      the start reaches a goal. */
  lemma Exhausted(grid: GridScan.Grid, sws: seq<Pos>, n: nat, keys: set<StateKey>, closed: map<StateKey, AState>, start: AState)
    requires Closure(grid, sws, n, [], keys, closed) && Hash(start) in keys
    ensures NoGoalFrom(grid, sws, start)
  {
    assert QueueKeys([]) == {};
    forall cs: seq<AState>, path: string | Linked(grid, sws, cs, path) && Hash(cs[0]) == Hash(start)
      ensures !IsGoalState(cs[|cs| - 1].stones, sws)
    {
      ClosedChain(grid, sws, n, keys, closed, cs, path);
    }
  }

  /** A step keeps the weights of the stones non-negative. */
  lemma StepWeights(grid: GridScan.Grid, sws: seq<Pos>, a: AState, ch: char, b: AState)
    requires RowsCover(grid) && |a.stones| <= |sws| && Step(grid, sws, a, ch, b) && WeightsNonNegative(a.stones)
    ensures WeightsNonNegative(b.stones)
  {
    var d := DecodeMove(ch).value.0;
    var s := Successor(grid, sws, a, d).value;
    SuccessorWeights(grid, sws, a, d);
    SuccessorShape(grid, sws, a, d);
    SameHash(sws, s, b);
    WeightsNonNegativeTransfer(s.stones, b.stones);
  }

  /** A chain from a recorded state to a goal costs at least the f of some
      queued state: its first state not yet expanded is queued, and from
      there the heuristic is at most the weight still to come. */
  lemma {:induction false} FrontierBound(grid: GridScan.Grid, sws: seq<Pos>, n: nat, queue: seq<AState>,
                                         fScore: map<StateKey, int>, closed: map<StateKey, AState>,
                                         cs: seq<AState>, path: string)
    requires Closure(grid, sws, n, queue, fScore.Keys, closed) && QueueOk(sws, n, queue, fScore)
    requires Linked(grid, sws, cs, path) && Hash(cs[0]) in fScore && WeightsNonNegative(cs[0].stones)
    requires IsGoalState(cs[|cs| - 1].stones, sws)
    ensures exists j :: 0 <= j < |queue| && queue[j].f <= cs[|cs| - 1].g
    decreases |path|
  {
    if Hash(cs[0]) in closed {
      SameHash(sws, closed[Hash(cs[0])], cs[0]);
      assert path != [];
      ClosedStep(grid, sws, n, fScore.Keys, closed, cs[0], path[0], cs[1]);
      StepWeights(grid, sws, cs[0], path[0], cs[1]);
      LinkedTail(grid, sws, cs, path);
      FrontierBound(grid, sws, n, queue, fScore, closed, cs[1..], path[1..]);
      assert cs[1..][|cs[1..]| - 1] == cs[|cs| - 1];
    } else {
      assert Hash(cs[0]) in QueueKeys(queue);
      var j :| 0 <= j < |queue| && Hash(queue[j]) == Hash(cs[0]);
      assert Wf(sws, n, queue[j]);
      SameHash(sws, queue[j], cs[0]);
      HeuristicAdmissible(grid, sws, cs, path);
    }
  }

  /** One chain from the start to a goal is no cheaper than a popped
      goal state: the popped state's f is its g, since h is zero there,
      and no queued state has a smaller f. */
  lemma ChainNoCheaper(grid: GridScan.Grid, sws: seq<Pos>, n: nat, queue: seq<AState>, fScore: map<StateKey, int>,
                       closed: map<StateKey, AState>, i: nat, start: AState, cs: seq<AState>, path: string)
    requires Closure(grid, sws, n, queue, fScore.Keys, closed) && QueueOk(sws, n, queue, fScore)
    requires i < |queue| && forall j :: 0 <= j < |queue| ==> !Less(queue[j], queue[i])
    requires |queue[i].stones| <= |sws| && IsGoalState(queue[i].stones, sws)
    requires Hash(start) in fScore && |start.stones| <= |sws| && WeightsNonNegative(start.stones)
    requires Linked(grid, sws, cs, path) && Hash(cs[0]) == Hash(start) && IsGoalState(cs[|cs| - 1].stones, sws)
    ensures queue[i].g <= cs[|cs| - 1].g
  {
    assert Wf(sws, n, queue[i]);
    SameHash(sws, start, cs[0]);
    WeightsNonNegativeTransfer(start.stones, cs[0].stones);
    FrontierBound(grid, sws, n, queue, fScore, closed, cs, path);
    var j :| 0 <= j < |queue| && queue[j].f <= cs[|cs| - 1].g;
    assert Wf(sws, n, queue[j]);
    assert !Less(queue[j], queue[i]);
  }

  /** A* returns a cheapest goal: a popped goal state is no dearer than
      any chain of successors from the start to a goal. */
  lemma Cheapest(grid: GridScan.Grid, sws: seq<Pos>, n: nat, queue: seq<AState>, fScore: map<StateKey, int>,
                 closed: map<StateKey, AState>, i: nat, start: AState)
    requires Closure(grid, sws, n, queue, fScore.Keys, closed) && QueueOk(sws, n, queue, fScore)
    requires i < |queue| && forall j :: 0 <= j < |queue| ==> !Less(queue[j], queue[i])
    requires |queue[i].stones| <= |sws| && IsGoalState(queue[i].stones, sws)
    requires Hash(start) in fScore && |start.stones| <= |sws| && WeightsNonNegative(start.stones)
    ensures NoneCheaper(grid, sws, start, queue[i].g)
  {
    forall cs: seq<AState>, path: string |
      Linked(grid, sws, cs, path) && Hash(cs[0]) == Hash(start) && IsGoalState(cs[|cs| - 1].stones, sws)
      ensures queue[i].g <= cs[|cs| - 1].g
    {
      ChainNoCheaper(grid, sws, n, queue, fScore, closed, i, start, cs, path);
    }
  }

  /** The search loop of `main`, stopped after `fuel` pops. A reported
      path leads from the start to a state whose heuristic is zero, step
      by step under the successor rule, and the reported weight is that
      state's g. */
  method Search(grid: GridScan.Grid, switches: seq<Pos>, start: AState, fuel: nat)
    returns (r: Outcome, ghost chain: seq<AState>)
    requires RowsCover(grid) && Wf(switches, |start.stones|, start)
    ensures r.Reached? || r.LastUnbound? || r.OutOfFuel?
    ensures r.Reached? ==> Linked(grid, switches, chain, r.path) && Hash(chain[0]) == Hash(start)
    ensures r.Reached? ==>
              && |chain[|chain| - 1].stones| == |start.stones|
              && IsGoalState(chain[|chain| - 1].stones, switches)
              && r.weight == chain[|chain| - 1].g
    ensures (r.Reached? || r.LastUnbound?) ==> 1 <= r.nodes <= fuel
    ensures r.LastUnbound? && Apart(start.stones) ==> NoGoalFrom(grid, switches, start)
    ensures r.Reached? && Apart(start.stones) && WeightsNonNegative(start.stones) ==>
              NoneCheaper(grid, switches, start, r.weight)
  {
    var n := |start.stones|;
    ghost var startKey := Hash(start);
    var queue := [start];
    var fScore := map[Hash(start) := start.f];
    var gScore := map[Hash(start) := start.g];
    var before: map<StateKey, (AState, char)> := map[];
    ghost var dirs: map<StateKey, Dir> := map[];
    ghost var rank: map<StateKey, nat> := map[Hash(start) := 0];
    ghost var clock: nat := 1;
    StartInv(grid, switches, start);
    var node := 0;
    var fuelLeft := fuel;
    ghost var closed: map<StateKey, AState> := map[];
    ghost var apart := Apart(start.stones);
    assert QueueKeys(queue) == {Hash(start)} by {
      assert Hash(queue[0]) == Hash(start);
    }
    while queue != []
      invariant Inv(grid, switches, n, startKey, queue, fScore, gScore, before, dirs, rank, clock)
      invariant startKey == Hash(start) && n == |start.stones|
      invariant node + fuelLeft == fuel && (node == 0 ==> queue != [])
      invariant apart ==> Closure(grid, switches, n, queue, fScore.Keys, closed)
      decreases fuelLeft
    {
      if fuelLeft == 0 {
        return OutOfFuel, [];
      }
      fuelLeft := fuelLeft - 1;
      node := node + 1;
      QueueSizes(switches, n, queue, fScore);
      var i := PopFirst(queue, n);
      var top := queue[i];
      Popped(grid, switches, n, startKey, queue, fScore, gScore, before, dirs, rank, clock, i);
      if apart {
        PopClosure(grid, switches, n, queue, fScore.Keys, closed, i);
        if WeightsNonNegative(start.stones) && IsGoalState(top.stones, switches) {
          Cheapest(grid, switches, n, queue, fScore, closed, i, start);
        }
      }
      queue := Without(queue, i);
      var h := GetHeuristic(top.stones, switches);
      if h == 0 {
        var path;
        path, chain := Reconstruct(grid, switches, n, before, top, dirs, rank, startKey);
        assert Hash(top).f == top.f == top.g;
        return Reached(fScore[Hash(top)], path, node), chain;
      }
      ghost var queue0, keys0 := queue, fScore.Keys;
      queue, fScore, gScore, before, dirs, rank, clock :=
        ExpandAll(grid, switches, n, startKey, top, queue, fScore, gScore, before, dirs, rank, clock);
      if apart {
        CloseTop(grid, switches, n, top, queue0, keys0, closed, queue, fScore.Keys);
      }
      closed := closed[Hash(top) := top];
    }
    if apart {
      Exhausted(grid, switches, n, fScore.Keys, closed, start);
    }
    return LastUnbound(node), [];
  }

  /** The start state: f is the heuristic, the agent where reading left
      it, g zero. */
  function StartState(f: Found): AState
    requires |f.stones| <= |f.switches|
  {
    AState(Heuristic(f.stones, f.switches), f.player.0, f.player.1, 0, f.stones)
  }

  /** `main` without the I/O, timing and memory figures: read, build the
      start state, search. */
  method Solve(grid: GridScan.Grid, numbers: seq<int>, fuel: nat) returns (out: Outcome, ghost chain: seq<AState>)
    requires RowsCover(grid)
    ensures out.WeightsMissing? <==> ReadAll(GridScan.Cells(grid), numbers).None?
    ensures ReadAll(GridScan.Cells(grid), numbers).Some? ==>
              var f := ReadAll(GridScan.Cells(grid), numbers).value;
              && (out.SwitchesMissing? <==> |f.switches| < |f.stones|)
              && (out.Reached? ==>
                    && |f.stones| <= |f.switches|
                    && Linked(grid, f.switches, chain, out.path)
                    && Hash(chain[0]) == Hash(StartState(f))
                    && |chain[|chain| - 1].stones| == |f.stones|
                    && IsGoalState(chain[|chain| - 1].stones, f.switches)
                    && out.weight == chain[|chain| - 1].g)
              && (out.LastUnbound? ==> NoGoalFrom(grid, f.switches, StartState(f)))
              && (out.Reached? && (forall k :: 0 <= k < |numbers| ==> numbers[k] >= 0) ==>
                    NoneCheaper(grid, f.switches, StartState(f), out.weight))
    ensures (out.Reached? || out.LastUnbound?) ==> 1 <= out.nodes <= fuel
  {
    var read := ReadInput(grid, numbers);
    if read.None? {
      return WeightsMissing, [];
    }
    var f := read.value;
    if |f.switches| < |f.stones| {
      return SwitchesMissing, [];
    }
    var h := GetHeuristic(f.stones, f.switches);
    var start := AState(h, f.player.0, f.player.1, 0, f.stones);
    ReadApart(grid, numbers);
    ReadAllFinds(GridScan.Cells(grid), numbers);
    assert (forall k :: 0 <= k < |numbers| ==> numbers[k] >= 0) ==> WeightsNonNegative(f.stones);
    out, chain := Search(grid, f.switches, start, fuel);
  }
}
