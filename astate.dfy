/** The search state of the A* solver (A.py): f, the agent's row and
    column, g and the stone list. Equality and hashing look at the stone
    list sorted, so they do not depend on its order; `__lt__` orders states
    by f, then row, column, g and the sorted stones. Also `is_valid`. */
module AStarState {
  import opened AStarHeuristic
  import GridScan

  datatype AState = AState(f: int, x: int, y: int, g: int, stones: seq<Stone>)

  /** Python's comparison of the lists [r, c, w]. */
  predicate StoneLess(a: Stone, b: Stone) {
    a.r < b.r || (a.r == b.r && (a.c < b.c || (a.c == b.c && a.w < b.w)))
  }

  predicate StoneAtMost(a: Stone, b: Stone) {
    StoneLess(a, b) || a == b
  }

  /** Distinct stones are ordered one way or the other, never both. */
  lemma StoneLessIsStrictTotal(a: Stone, b: Stone, c: Stone)
    ensures !StoneLess(a, a)
    ensures StoneLess(a, b) ==> !StoneLess(b, a)
    ensures StoneLess(a, b) && StoneLess(b, c) ==> StoneLess(a, c)
    ensures a != b ==> StoneLess(a, b) || StoneLess(b, a)
  {
  }

  predicate Sorted(s: seq<Stone>) {
    forall i, j :: 0 <= i < j < |s| ==> StoneAtMost(s[i], s[j])
  }

  function Insert(x: Stone, s: seq<Stone>): (r: seq<Stone>)
    requires Sorted(s)
    ensures Sorted(r) && multiset(r) == multiset(s) + multiset{x}
    decreases |s|
  {
    if s == [] then [x]
    else if StoneAtMost(x, s[0]) then [x] + s
    else
      var rest := Insert(x, s[1..]);
      assert s == [s[0]] + s[1..];
      assert forall k :: 0 <= k < |rest| ==> StoneAtMost(s[0], rest[k]) by {
        forall k | 0 <= k < |rest| ensures StoneAtMost(s[0], rest[k]) {
          assert rest[k] in multiset(rest);
        }
      }
      [s[0]] + rest
  }

  /** `sorted(stones)`. */
  function Sort(s: seq<Stone>): (r: seq<Stone>)
    ensures Sorted(r) && multiset(r) == multiset(s) && |r| == |s|
    decreases |s|
  {
    if s == [] then []
    else
      assert s == [s[0]] + s[1..];
      Insert(s[0], Sort(s[1..]))
  }

  /** Two sorted lists of the same stones start with the same stone. */
  lemma SortedSameHead(a: seq<Stone>, b: seq<Stone>)
    requires Sorted(a) && Sorted(b) && multiset(a) == multiset(b) && a != []
    ensures b != [] && a[0] == b[0]
  {
    assert a[0] in multiset(b);
    var i :| 0 <= i < |b| && b[i] == a[0];
    assert b[0] in multiset(a);
    var j :| 0 <= j < |a| && a[j] == b[0];
    assert StoneAtMost(b[0], b[i]) by {
      if i > 0 {
        assert StoneAtMost(b[0], b[i]);
      }
    }
    assert StoneAtMost(a[0], a[j]) by {
      if j > 0 {
        assert StoneAtMost(a[0], a[j]);
      }
    }
    StoneLessIsStrictTotal(a[0], b[0], a[0]);
  }

  /** A sorted list is fixed by the stones it holds. */
  lemma {:induction false} SortedUnique(a: seq<Stone>, b: seq<Stone>)
    requires Sorted(a) && Sorted(b) && multiset(a) == multiset(b)
    ensures a == b
    decreases |a|
  {
    if a != [] {
      SortedSameHead(a, b);
      assert a == [a[0]] + a[1..] && b == [b[0]] + b[1..];
      assert multiset(a) == multiset{a[0]} + multiset(a[1..]);
      assert multiset(b) == multiset{b[0]} + multiset(b[1..]);
      assert multiset(a[1..]) == multiset(a) - multiset{a[0]};
      assert multiset(b[1..]) == multiset(b) - multiset{b[0]};
      SortedUnique(a[1..], b[1..]);
    } else {
      assert |multiset(b)| == 0;
    }
  }

  /** Sorting two stone lists gives the same list exactly when they hold
      the same stones. */
  lemma SortIgnoresOrder(a: seq<Stone>, b: seq<Stone>)
    ensures Sort(a) == Sort(b) <==> multiset(a) == multiset(b)
  {
    if multiset(a) == multiset(b) {
      SortedUnique(Sort(a), Sort(b));
    }
  }

  /** The tuple `__hash__` hashes. */
  datatype StateKey = StateKey(f: int, x: int, y: int, g: int, stones: seq<Stone>)

  /** `__hash__`. */
  function Hash(s: AState): StateKey {
    StateKey(s.f, s.x, s.y, s.g, Sort(s.stones))
  }

  /** `__eq__`. */
  predicate Equals(a: AState, b: AState) {
    a.f == b.f && a.x == b.x && a.y == b.y && a.g == b.g && Sort(a.stones) == Sort(b.stones)
  }

  /** Equal states are those with equal numbers and the same stones in
      any order, and they are exactly the states with equal hashes, so a
      dictionary keyed by states is a dictionary keyed by `Hash`. */
  lemma EqualsIgnoresStoneOrder(a: AState, b: AState)
    ensures Equals(a, b) <==>
              a.f == b.f && a.x == b.x && a.y == b.y && a.g == b.g && multiset(a.stones) == multiset(b.stones)
    ensures Equals(a, b) <==> Hash(a) == Hash(b)
  {
    SortIgnoresOrder(a.stones, b.stones);
  }

  /** The stone loop of `__lt__` on two sorted lists of one length. */
  predicate StonesLess(s: seq<Stone>, t: seq<Stone>)
    requires |s| == |t|
    decreases |s|
  {
    if s == [] then false
    else if s[0] != t[0] then StoneLess(s[0], t[0])
    else StonesLess(s[1..], t[1..])
  }

  lemma {:induction false} StonesLessIsStrictTotal(s: seq<Stone>, t: seq<Stone>, u: seq<Stone>)
    requires |s| == |t| == |u|
    ensures !StonesLess(s, s)
    ensures StonesLess(s, t) ==> !StonesLess(t, s)
    ensures StonesLess(s, t) && StonesLess(t, u) ==> StonesLess(s, u)
    ensures s != t ==> StonesLess(s, t) || StonesLess(t, s)
    decreases |s|
  {
    if s != [] {
      StonesLessIsStrictTotal(s[1..], t[1..], u[1..]);
      StoneLessIsStrictTotal(s[0], t[0], u[0]);
      assert s == [s[0]] + s[1..] && t == [t[0]] + t[1..];
    }
  }

  /** `__lt__`, between states with as many stones (the original reads
      past the end of the other list otherwise). */
  predicate Less(a: AState, b: AState)
    requires |a.stones| == |b.stones|
  {
    if a.f != b.f then a.f < b.f
    else if a.x != b.x then a.x < b.x
    else if a.y != b.y then a.y < b.y
    else if a.g != b.g then a.g < b.g
    else StonesLess(Sort(a.stones), Sort(b.stones))
  }

  /** `__lt__` is a strict total order on hashes: irreflexive,
      asymmetric, transitive, and one of two states with different hashes
      is below the other. */
  lemma LessIsStrictTotal(a: AState, b: AState, c: AState)
    requires |a.stones| == |b.stones| == |c.stones|
    ensures !Less(a, a)
    ensures Less(a, b) ==> !Less(b, a)
    ensures Less(a, b) && Less(b, c) ==> Less(a, c)
    ensures Hash(a) != Hash(b) ==> Less(a, b) || Less(b, a)
  {
    StonesLessIsStrictTotal(Sort(a.stones), Sort(b.stones), Sort(c.stones));
  }

  /** Every row is at least as long as the first, so `is_valid` can read
      any cell it tests. */
  predicate RowsCover(grid: GridScan.Grid) {
    forall i :: 0 <= i < |grid| ==> |grid[0]| <= |grid[i]|
  }

  /** `is_valid`: inside the bounds taken from the first row, and not a
      wall. */
  function IsValid(grid: GridScan.Grid, x: int, y: int): (r: bool)
    requires RowsCover(grid)
    ensures r <==> 0 <= x < |grid| && 0 <= y < |grid[0]| && grid[x][y] != '#'
  {
    !(x < 0 || y < 0 || x >= |grid| || y >= |grid[0]| || grid[x][y] == '#')
  }
}
