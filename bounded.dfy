/** Why the solvers' loops end. The solvers never bound-check a move:
    they rely on the puzzle being surrounded by walls. That reliance is
    stated here as `Enclosed`: a set of cells from which no step leaves
    except into a wall. Every configuration the solvers can reach then
    lies in a finite universe, and their visited sets can only grow
    inside it. */
module Bounded {
  import opened Rules

  /** From every non-wall cell of `cells`, each of the four steps lands on
      a wall or stays in `cells`. */
  ghost predicate Enclosed(walls: set<Pos>, cells: set<Pos>) {
    forall p, d :: p in cells && p !in walls ==> Next(p, d) in walls || Next(p, d) in cells
  }

  /** The agent and every stone stand on non-wall cells of `cells`, and
      every stone weight is one of `weights`. */
  ghost predicate Confined(walls: set<Pos>, cells: set<Pos>, weights: set<int>, c: Config) {
    && c.player in cells && c.player !in walls
    && (forall p :: p in c.stones ==> p in cells && p !in walls && c.stones[p] in weights)
  }

  /** A legal move never leaves an enclosure. */
  lemma MoveStaysConfined(walls: set<Pos>, cells: set<Pos>, weights: set<int>, c: Config, ch: char)
    requires Enclosed(walls, cells) && Confined(walls, cells, weights, c)
    requires ApplyMove(walls, c, ch).Moved?
    ensures Confined(walls, cells, weights, ApplyMove(walls, c, ch).next)
  {
    var d := DecodeMove(ch).value.0;
    var n := ApplyMove(walls, c, ch).next;
    assert n.player == Next(c.player, d);
    if DecodeMove(ch).value.1 {
      assert Next(n.player, d) in cells;
    }
  }

  ghost function Pick(s: set<Pos>): Pos
    requires s != {}
  {
    var p :| p in s; p
  }

  /** Every map from some of `cells` to `weights`. */
  ghost function AllMaps(cells: set<Pos>, weights: set<int>): set<map<Pos, int>>
    decreases cells
  {
    if cells == {} then {map[]}
    else
      var c := Pick(cells);
      var rest := AllMaps(cells - {c}, weights);
      rest + set m, w | m in rest && w in weights :: m[c := w]
  }

  lemma {:induction false} AllMapsComplete(cells: set<Pos>, weights: set<int>, m: map<Pos, int>)
    requires forall p :: p in m ==> p in cells && m[p] in weights
    ensures m in AllMaps(cells, weights)
    decreases cells
  {
    if cells == {} {
      assert m.Keys == {};
      assert m == map[];
    } else {
      var c := Pick(cells);
      var m' := m - {c};
      AllMapsComplete(cells - {c}, weights, m');
      var rest := AllMaps(cells - {c}, weights);
      if c in m {
        assert m == m'[c := m[c]];
        ExtendedIsIn(rest, weights, m', c, m[c]);
      } else {
        assert m == m';
      }
    }
  }

  lemma ExtendedIsIn(rest: set<map<Pos, int>>, weights: set<int>, m: map<Pos, int>, c: Pos, w: int)
    requires m in rest && w in weights
    ensures m[c := w] in (set x, v | x in rest && v in weights :: x[c := v])
  {
    var y := m[c := w];
    assert y == m[c := w];
  }

  /** The finite universe of confined configurations. */
  ghost function AllConfigs(cells: set<Pos>, weights: set<int>): set<Config> {
    set p, m | p in cells && m in AllMaps(cells, weights) :: Config(p, m)
  }

  /** The finite universe of visited keys. */
  ghost function AllKeys(cells: set<Pos>, weights: set<int>): set<Key> {
    set c | c in AllConfigs(cells, weights) :: KeyOf(c)
  }

  lemma ConfinedInUniverse(walls: set<Pos>, cells: set<Pos>, weights: set<int>, c: Config)
    requires Confined(walls, cells, weights, c)
    ensures c in AllConfigs(cells, weights)
    ensures KeyOf(c) in AllKeys(cells, weights)
  {
    AllMapsComplete(cells, weights, c.stones);
    assert c == Config(c.player, c.stones);
  }

  /** The weights carried by a stone mapping. */
  function WeightsOf(stones: map<Pos, int>): set<int> {
    set p | p in stones :: stones[p]
  }

  /** A set that grows strictly inside a finite universe leaves fewer
      elements of the universe outside it. */
  lemma FewerOutside<T>(universe: set<T>, a: set<T>, b: set<T>)
    requires a <= b <= universe && a != b
    ensures |universe - b| < |universe - a|
  {
    var x :| x in b && x !in a;
    SubsetSmaller(universe - b, (universe - a) - {x});
  }

  lemma {:induction false} SubsetSmaller<T>(a: set<T>, b: set<T>)
    requires a <= b
    ensures |a| <= |b|
    decreases b
  {
    if a != {} {
      var y :| y in a;
      SubsetSmaller(a - {y}, b - {y});
    }
  }
}
