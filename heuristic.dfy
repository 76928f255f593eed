/** The heuristic of the A* solver (A.py): the cheapest way to send each
    stone to its own switch among the first as many switches as there are
    stones, a stone paying its weight for every step of Manhattan
    distance, found by trying every permutation. A solver state is a goal
    exactly when this cost is zero. */
module AStarHeuristic {
  import Rules
  import Bounded

  /** A stone of A.py: row, column and weight. */
  datatype Stone = Stone(r: int, c: int, w: int)

  function At(s: Stone): Rules.Pos {
    (s.r, s.c)
  }

  function Abs(x: int): nat {
    if x < 0 then -x else x
  }

  /** What sending stone `s` to switch `sw` costs. */
  function Term(s: Stone, sw: Rules.Pos): int {
    (Abs(s.r - sw.0) + Abs(s.c - sw.1)) * s.w
  }

  /** `p` sends each of `n` stones to one of `m` switches. */
  predicate Assigns(p: seq<nat>, n: nat, m: nat) {
    |p| == n && forall i :: 0 <= i < n ==> p[i] < m
  }

  /** `p` is an arrangement of range(n): n distinct values below n. */
  predicate IsPerm(p: seq<nat>, n: nat) {
    && Assigns(p, n, n)
    && forall i, j :: 0 <= i < j < n ==> p[i] != p[j]
  }

  function Sum(s: seq<int>): int
    decreases |s|
  {
    if s == [] then 0 else Sum(s[..|s| - 1]) + s[|s| - 1]
  }

  /** The cost of each stone under assignment `p`. */
  function Terms(stones: seq<Stone>, sws: seq<Rules.Pos>, p: seq<nat>): (r: seq<int>)
    requires Assigns(p, |stones|, |sws|)
    ensures |r| == |stones|
    ensures forall i :: 0 <= i < |stones| ==> r[i] == Term(stones[i], sws[p[i]])
  {
    seq(|stones|, i requires 0 <= i < |stones| => Term(stones[i], sws[p[i]]))
  }

  /** `var` at the end of the inner loop of `generate_permutations`. */
  function AssignCost(stones: seq<Stone>, sws: seq<Rules.Pos>, p: seq<nat>): int
    requires Assigns(p, |stones|, |sws|)
  {
    Sum(Terms(stones, sws, p))
  }

  function InsertAt(p: seq<nat>, k: nat, x: nat): seq<nat>
    requires k <= |p|
  {
    p[..k] + [x] + p[k..]
  }

  /** `p` with `x` inserted at each position below `k`. */
  function Spread(p: seq<nat>, x: nat, k: nat): seq<seq<nat>>
    requires k <= |p| + 1
  {
    if k == 0 then [] else Spread(p, x, k - 1) + [InsertAt(p, k - 1, x)]
  }

  /** Every arrangement of `ps` with `x` inserted at every position. */
  function InsertEverywhere(ps: seq<seq<nat>>, x: nat): seq<seq<nat>>
    decreases |ps|
  {
    if ps == [] then []
    else
      var p := ps[|ps| - 1];
      InsertEverywhere(ps[..|ps| - 1], x) + Spread(p, x, |p| + 1)
  }

  /** The arrangements of range(n) that `itertools.permutations` lists,
      here in an order of their own. */
  function Perms(n: nat): seq<seq<nat>> {
    if n == 0 then [[]] else InsertEverywhere(Perms(n - 1), n - 1)
  }

  lemma {:induction false} SpreadHas(p: seq<nat>, x: nat, k: nat, j: nat)
    requires j < k <= |p| + 1
    ensures InsertAt(p, j, x) in Spread(p, x, k)
    decreases k
  {
    if j < k - 1 {
      SpreadHas(p, x, k - 1, j);
    }
  }

  lemma {:induction false} SpreadOnly(p: seq<nat>, x: nat, k: nat, q: seq<nat>)
    requires k <= |p| + 1 && q in Spread(p, x, k)
    ensures exists j :: 0 <= j < k && q == InsertAt(p, j, x)
    decreases k
  {
    if k > 0 && q != InsertAt(p, k - 1, x) {
      SpreadOnly(p, x, k - 1, q);
    }
  }

  lemma {:induction false} InsertEverywhereHas(ps: seq<seq<nat>>, x: nat, t: nat, j: nat)
    requires t < |ps| && j <= |ps[t]|
    ensures InsertAt(ps[t], j, x) in InsertEverywhere(ps, x)
    decreases |ps|
  {
    var last := ps[|ps| - 1];
    if t < |ps| - 1 {
      assert ps[t] == ps[..|ps| - 1][t];
      InsertEverywhereHas(ps[..|ps| - 1], x, t, j);
    } else {
      SpreadHas(last, x, |last| + 1, j);
    }
  }

  lemma {:induction false} InsertEverywhereOnly(ps: seq<seq<nat>>, x: nat, q: seq<nat>)
    requires q in InsertEverywhere(ps, x)
    ensures exists t: nat, j: nat :: t < |ps| && j <= |ps[t]| && q == InsertAt(ps[t], j, x)
    decreases |ps|
  {
    var init, last := ps[..|ps| - 1], ps[|ps| - 1];
    if q in InsertEverywhere(init, x) {
      InsertEverywhereOnly(init, x, q);
      var t: nat, j: nat :| t < |init| && j <= |init[t]| && q == InsertAt(init[t], j, x);
      assert init[t] == ps[t];
    } else {
      SpreadOnly(last, x, |last| + 1, q);
    }
  }

  /** Inserting `n` anywhere into an arrangement of range(n) arranges
      range(n + 1). */
  lemma InsertPerm(p: seq<nat>, n: nat, k: nat)
    requires IsPerm(p, n) && k <= n
    ensures IsPerm(InsertAt(p, k, n), n + 1)
  {
    var q := InsertAt(p, k, n);
    assert forall i :: 0 <= i < k ==> q[i] == p[i];
    assert q[k] == n;
    assert forall i :: k < i <= n ==> q[i] == p[i - 1];
  }

  /** Taking `n` out of an arrangement of range(n + 1) arranges range(n),
      and putting it back restores the arrangement. */
  lemma RemovePerm(q: seq<nat>, n: nat, k: nat)
    requires IsPerm(q, n + 1) && k <= n && q[k] == n
    ensures IsPerm(q[..k] + q[k + 1..], n)
    ensures q == InsertAt(q[..k] + q[k + 1..], k, n)
  {
    var p := q[..k] + q[k + 1..];
    assert forall i :: 0 <= i < k ==> p[i] == q[i];
    assert forall i :: k <= i < n ==> p[i] == q[i + 1];
    assert p[..k] == q[..k] && p[k..] == q[k + 1..];
  }

  ghost function Image(p: seq<nat>, m: nat): set<nat>
    requires m <= |p|
  {
    set i | 0 <= i < m :: p[i]
  }

  ghost function Below(n: nat): set<nat> {
    if n == 0 then {} else Below(n - 1) + {n - 1}
  }

  lemma {:induction false} BelowHas(n: nat, v: nat)
    ensures v in Below(n) <==> v < n
  {
    if n > 0 {
      BelowHas(n - 1, v);
    }
  }

  lemma {:induction false} ImageSize(p: seq<nat>, n: nat, m: nat)
    requires IsPerm(p, n) && m <= n
    ensures |Image(p, m)| == m
  {
    if m > 0 {
      ImageSize(p, n, m - 1);
      assert Image(p, m) == Image(p, m - 1) + {p[m - 1]};
    }
  }

  lemma {:induction false} BelowSize(n: nat)
    ensures |Below(n)| == n
  {
    if n > 0 {
      BelowSize(n - 1);
      BelowHas(n - 1, n - 1);
    }
  }

  /** An arrangement of range(n) uses every value below n. */
  lemma PermCovers(p: seq<nat>, n: nat, v: nat)
    requires IsPerm(p, n) && v < n
    ensures v in p
  {
    if v !in p {
      ImageSize(p, n, n);
      BelowSize(n);
      forall x | x in Image(p, n) ensures x in Below(n) - {v} {
        BelowHas(n, x);
      }
      BelowHas(n, v);
      Bounded.SubsetSmaller(Image(p, n), Below(n) - {v});
    }
  }

  /** Every member of `Perms(n)` arranges range(n). */
  lemma {:induction false} PermsSound(n: nat)
    ensures forall k :: 0 <= k < |Perms(n)| ==> IsPerm(Perms(n)[k], n)
  {
    if n > 0 {
      PermsSound(n - 1);
      AllInsertedPerms(Perms(n - 1), n - 1);
    }
  }

  lemma AllInsertedPerms(ps: seq<seq<nat>>, n: nat)
    requires forall k :: 0 <= k < |ps| ==> IsPerm(ps[k], n)
    ensures forall k :: 0 <= k < |InsertEverywhere(ps, n)| ==> IsPerm(InsertEverywhere(ps, n)[k], n + 1)
  {
    forall k | 0 <= k < |InsertEverywhere(ps, n)| ensures IsPerm(InsertEverywhere(ps, n)[k], n + 1) {
      InsertedPerm(ps, n, InsertEverywhere(ps, n)[k]);
    }
  }

  /** Inserting n everywhere into arrangements of range(n) gives
      arrangements of range(n + 1). */
  lemma InsertedPerm(ps: seq<seq<nat>>, n: nat, q: seq<nat>)
    requires forall k :: 0 <= k < |ps| ==> IsPerm(ps[k], n)
    requires q in InsertEverywhere(ps, n)
    ensures IsPerm(q, n + 1)
  {
    InsertEverywhereOnly(ps, n, q);
    var t: nat, j: nat :| t < |ps| && j <= |ps[t]| && q == InsertAt(ps[t], j, n);
    InsertPerm(ps[t], n, j);
  }

  /** Inserting n - 1 into a member of `Perms(n - 1)` gives a member of
      `Perms(n)`. */
  lemma PermsStep(n: nat, p: seq<nat>, k: nat)
    requires n > 0 && p in Perms(n - 1) && k <= |p|
    ensures InsertAt(p, k, n - 1) in Perms(n)
  {
    InsertedIn(Perms(n - 1), p, k, n - 1);
  }

  /** An insertion into a member of `ps` is generated. */
  lemma InsertedIn(ps: seq<seq<nat>>, p: seq<nat>, k: nat, x: nat)
    requires p in ps && k <= |p|
    ensures InsertAt(p, k, x) in InsertEverywhere(ps, x)
  {
    var t := IndexOf(ps, p);
    InsertEverywhereHas(ps, x, t, k);
  }

  /** Every arrangement of range(n) is a member of `Perms(n)`. */
  lemma {:induction false} PermsComplete(q: seq<nat>, n: nat)
    requires IsPerm(q, n)
    ensures q in Perms(n)
  {
    if n == 0 {
      assert q == [];
    } else {
      PermCovers(q, n, n - 1);
      var k := IndexOf(q, n - 1);
      var p := q[..k] + q[k + 1..];
      RemovePerm(q, n - 1, k);
      PermsComplete(p, n - 1);
      PermsStep(n, p, k);
    }
  }

  function Identity(n: nat): (r: seq<nat>)
    ensures IsPerm(r, n)
  {
    seq(n, i requires 0 <= i < n => i)
  }

  lemma PermsNonEmpty(n: nat)
    ensures Perms(n) != []
  {
    PermsComplete(Identity(n), n);
  }

  /** Where `v` first occurs in `s`. */
  function IndexOf<T(==)>(s: seq<T>, v: T): (k: nat)
    requires v in s
    ensures k < |s| && s[k] == v
    decreases |s|
  {
    if s[0] == v then 0 else 1 + IndexOf(s[1..], v)
  }

  /** `ans` in `generate_permutations`: infinity until a first cost. */
  datatype Bound = Infinity | Finite(value: int)

  /** Python's `min(ans, var)`: `ans` unless `var` is smaller. */
  function Min(a: Bound, v: int): Bound {
    if a.Finite? && a.value <= v then a else Finite(v)
  }

  /** `ans` after the arrangements `ps`. */
  function MinCost(stones: seq<Stone>, sws: seq<Rules.Pos>, ps: seq<seq<nat>>): Bound
    requires forall k :: 0 <= k < |ps| ==> Assigns(ps[k], |stones|, |sws|)
    decreases |ps|
  {
    if ps == [] then Infinity
    else Min(MinCost(stones, sws, ps[..|ps| - 1]), AssignCost(stones, sws, ps[|ps| - 1]))
  }

  /** The running minimum is the least of the costs seen, and one of them. */
  lemma {:induction false} MinCostIsLeast(stones: seq<Stone>, sws: seq<Rules.Pos>, ps: seq<seq<nat>>)
    requires forall k :: 0 <= k < |ps| ==> Assigns(ps[k], |stones|, |sws|)
    ensures ps != [] ==> MinCost(stones, sws, ps).Finite?
    ensures forall k :: 0 <= k < |ps| ==>
              MinCost(stones, sws, ps).Finite? && MinCost(stones, sws, ps).value <= AssignCost(stones, sws, ps[k])
    ensures ps != [] ==> exists k :: 0 <= k < |ps| && MinCost(stones, sws, ps).value == AssignCost(stones, sws, ps[k])
    decreases |ps|
  {
    if ps != [] {
      var init := ps[..|ps| - 1];
      MinCostIsLeast(stones, sws, init);
      forall k | 0 <= k < |init| ensures init[k] == ps[k] {
      }
    }
  }

  /** `get_heuristic` for as many switches as stones or more. */
  function Heuristic(stones: seq<Stone>, sws: seq<Rules.Pos>): int
    requires |stones| <= |sws|
  {
    PermsSound(|stones|);
    PermsNonEmpty(|stones|);
    MinCostIsLeast(stones, sws, Perms(|stones|));
    MinCost(stones, sws, Perms(|stones|)).value
  }

  /** `is_goal`. */
  predicate IsGoalState(stones: seq<Stone>, sws: seq<Rules.Pos>)
    requires |stones| <= |sws|
  {
    Heuristic(stones, sws) == 0
  }

  /** The inner loop of `get_heuristic`: `var` for one arrangement. */
  method ArrangementCost(stones: seq<Stone>, switches: seq<Rules.Pos>, perm: seq<nat>) returns (v: int)
    requires Assigns(perm, |stones|, |switches|)
    ensures v == AssignCost(stones, switches, perm)
  {
    v := 0;
    for i := 0 to |stones|
      invariant v == Sum(Terms(stones, switches, perm)[..i])
    {
      assert Terms(stones, switches, perm)[..i + 1][..i] == Terms(stones, switches, perm)[..i];
      var pos := perm[i];
      v := v + (Abs(stones[i].r - switches[pos].0) + Abs(stones[i].c - switches[pos].1)) * stones[i].w;
    }
    assert Terms(stones, switches, perm)[..|stones|] == Terms(stones, switches, perm);
  }

  /** `get_heuristic`: for every arrangement `perm` of range(n), `var`
      sums each stone's weighted distance to switch `perm[i]`, and `ans`
      keeps the least `var`. With fewer switches than stones the original
      fails indexing `switches`. */
  method GetHeuristic(stones: seq<Stone>, switches: seq<Rules.Pos>) returns (h: int)
    requires |stones| <= |switches|
    ensures h == Heuristic(stones, switches)
  {
    var n := |stones|;
    var perms := Perms(n);
    PermsSound(n);
    PermsNonEmpty(n);
    var ans := Infinity;
    for k := 0 to |perms|
      invariant ans == MinCost(stones, switches, perms[..k])
    {
      assert perms[..k + 1][..k] == perms[..k];
      var v := ArrangementCost(stones, switches, perms[k]);
      ans := Min(ans, v);
    }
    assert perms[..|perms|] == perms;
    MinCostIsLeast(stones, switches, perms);
    return ans.value;
  }

  /** The heuristic is the least cost over every arrangement of the
      stones onto the first switches, and some arrangement costs exactly
      that. */
  lemma HeuristicIsMinimum(stones: seq<Stone>, sws: seq<Rules.Pos>)
    requires |stones| <= |sws|
    ensures forall p :: IsPerm(p, |stones|) ==> Heuristic(stones, sws) <= AssignCost(stones, sws, p)
    ensures exists p :: IsPerm(p, |stones|) && Heuristic(stones, sws) == AssignCost(stones, sws, p)
  {
    var n := |stones|;
    PermsSound(n);
    PermsNonEmpty(n);
    MinCostIsLeast(stones, sws, Perms(n));
    forall p | IsPerm(p, n) ensures Heuristic(stones, sws) <= AssignCost(stones, sws, p) {
      PermsComplete(p, n);
      var k :| 0 <= k < |Perms(n)| && Perms(n)[k] == p;
    }
    var k :| 0 <= k < |Perms(n)| && MinCost(stones, sws, Perms(n)).value == AssignCost(stones, sws, Perms(n)[k]);
    assert IsPerm(Perms(n)[k], n);
  }

  /** `ans` reads only `switches[perm[i]]` with `perm[i]` below the
      number of stones, so later switches never enter it. */
  lemma {:induction false} MinCostUsesFirstSwitches(stones: seq<Stone>, sws: seq<Rules.Pos>, ps: seq<seq<nat>>)
    requires |stones| <= |sws|
    requires forall k :: 0 <= k < |ps| ==> Assigns(ps[k], |stones|, |stones|) && Assigns(ps[k], |stones|, |sws|)
    ensures MinCost(stones, sws, ps) == MinCost(stones, sws[..|stones|], ps)
    decreases |ps|
  {
    if ps != [] {
      MinCostUsesFirstSwitches(stones, sws, ps[..|ps| - 1]);
      var p := ps[|ps| - 1];
      assert Terms(stones, sws, p) == Terms(stones, sws[..|stones|], p);
    }
  }

  /** The heuristic depends only on the first as many switches as there
      are stones, in reading order. */
  lemma HeuristicUsesFirstSwitches(stones: seq<Stone>, sws: seq<Rules.Pos>)
    requires |stones| <= |sws|
    ensures Heuristic(stones, sws) == Heuristic(stones, sws[..|stones|])
  {
    var ps := Perms(|stones|);
    PermsSound(|stones|);
    forall k | 0 <= k < |ps| ensures Assigns(ps[k], |stones|, |stones|) && Assigns(ps[k], |stones|, |sws|) {
      assert IsPerm(ps[k], |stones|);
    }
    MinCostUsesFirstSwitches(stones, sws, ps);
  }

  /** As written, the goal test misses a stone on a later switch: one
      stone of weight 1 on (1, 1), with switches (5, 5) and (1, 1), is
      charged for the way to (5, 5), so the state is not a goal. */
  lemma LaterSwitchIgnored()
    ensures var stones, sws := [Stone(1, 1, 1)], [(5, 5), (1, 1)];
            At(stones[0]) == sws[1] && Heuristic(stones, sws) == 8 && !IsGoalState(stones, sws)
  {
    var stones, sws := [Stone(1, 1, 1)], [(5, 5), (1, 1)];
    HeuristicIsMinimum(stones, sws);
    var p :| IsPerm(p, 1) && Heuristic(stones, sws) == AssignCost(stones, sws, p);
    assert p == [0];
    assert Terms(stones, sws, p) == [8];
  }

  /** With weights not negative, the heuristic is not negative. */
  lemma HeuristicNonNegative(stones: seq<Stone>, sws: seq<Rules.Pos>)
    requires |stones| <= |sws| && forall i :: 0 <= i < |stones| ==> stones[i].w >= 0
    ensures Heuristic(stones, sws) >= 0
  {
    HeuristicIsMinimum(stones, sws);
    var p :| IsPerm(p, |stones|) && Heuristic(stones, sws) == AssignCost(stones, sws, p);
    var t := Terms(stones, sws, p);
    assert forall i :: 0 <= i < |t| ==> t[i] >= 0;
    SumNonNegative(t);
  }

  lemma {:induction false} SumNonNegative(s: seq<int>)
    requires forall i :: 0 <= i < |s| ==> s[i] >= 0
    ensures Sum(s) >= 0
    decreases |s|
  {
    if s != [] {
      SumNonNegative(s[..|s| - 1]);
    }
  }

  /** A sum of non-negative terms is zero exactly when every term is. */
  lemma {:induction false} SumZero(s: seq<int>)
    requires forall i :: 0 <= i < |s| ==> s[i] >= 0
    ensures Sum(s) == 0 <==> forall i :: 0 <= i < |s| ==> s[i] == 0
    decreases |s|
  {
    if s != [] {
      var init := s[..|s| - 1];
      SumZero(init);
      SumNonNegative(init);
      assert forall i :: 0 <= i < |init| ==> init[i] == s[i];
    }
  }

  lemma {:induction false} SumConcat(x: seq<int>, y: seq<int>)
    ensures Sum(x + y) == Sum(x) + Sum(y)
    decreases |y|
  {
    if y != [] {
      var init, e := y[..|y| - 1], y[|y| - 1];
      var z := x + y;
      assert z[..|z| - 1] == x + init && z[|z| - 1] == e;
      assert Sum(z) == Sum(x + init) + e;
      SumConcat(x, init);
    } else {
      assert x + y == x;
    }
  }

  lemma SumSingleton(x: int)
    ensures Sum([x]) == x
  {
    assert [x][..0] == [];
  }

  lemma SumFirst(t: seq<int>)
    requires t != []
    ensures Sum(t) == t[0] + Sum(t[1..])
  {
    assert t == [t[0]] + t[1..];
    SumConcat([t[0]], t[1..]);
    SumSingleton(t[0]);
  }

  lemma SumSplit(s: seq<int>, i: nat)
    requires i < |s|
    ensures Sum(s) == Sum(s[..i]) + s[i] + Sum(s[i + 1..])
  {
    var rest := s[i..];
    assert s == s[..i] + rest;
    SumConcat(s[..i], rest);
    SumFirst(rest);
    assert rest[0] == s[i] && rest[1..] == s[i + 1..];
  }

  lemma SumRemove(s: seq<int>, i: nat)
    requires i < |s|
    ensures Sum(s) == Sum(s[..i] + s[i + 1..]) + s[i]
  {
    SumSplit(s, i);
    SumConcat(s[..i], s[i + 1..]);
  }

  /** Dropping the last term of `a` and its image in `b`. */
  lemma DropLast(a: seq<int>, b: seq<int>, sigma: seq<nat>, i0: nat)
    requires IsPerm(sigma, |a|) && |b| == |a|
    requires forall i :: 0 <= i < |b| ==> b[i] == a[sigma[i]]
    requires i0 < |a| && sigma[i0] == |a| - 1
    ensures IsPerm(sigma[..i0] + sigma[i0 + 1..], |a| - 1)
    ensures var b', sigma' := b[..i0] + b[i0 + 1..], sigma[..i0] + sigma[i0 + 1..];
            |b'| == |a| - 1 && forall i :: 0 <= i < |b'| ==> b'[i] == a[..|a| - 1][sigma'[i]]
  {
    var n := |a|;
    var sigma' := sigma[..i0] + sigma[i0 + 1..];
    var b' := b[..i0] + b[i0 + 1..];
    RemovePerm(sigma, n - 1, i0);
    forall i | 0 <= i < |b'| ensures b'[i] == a[..n - 1][sigma'[i]] {
      if i < i0 {
        assert b'[i] == b[i] && sigma'[i] == sigma[i];
      } else {
        assert b'[i] == b[i + 1] && sigma'[i] == sigma[i + 1];
      }
    }
  }

  /** Summing in another order gives the same sum. */
  lemma {:induction false} SumPermuted(a: seq<int>, b: seq<int>, sigma: seq<nat>)
    requires IsPerm(sigma, |a|) && |b| == |a|
    requires forall i :: 0 <= i < |b| ==> b[i] == a[sigma[i]]
    ensures Sum(b) == Sum(a)
    decreases |a|
  {
    var n := |a|;
    if n > 0 {
      PermCovers(sigma, n, n - 1);
      var i0 := IndexOf(sigma, n - 1);
      DropLast(a, b, sigma, i0);
      SumPermuted(a[..n - 1], b[..i0] + b[i0 + 1..], sigma[..i0] + sigma[i0 + 1..]);
      SumRemove(b, i0);
    }
  }

  /** The stones listed in the order `sigma` gives. */
  function Reorder(stones: seq<Stone>, sigma: seq<nat>): (r: seq<Stone>)
    requires IsPerm(sigma, |stones|)
    ensures |r| == |stones| && forall i :: 0 <= i < |r| ==> r[i] == stones[sigma[i]]
  {
    seq(|stones|, i requires 0 <= i < |stones| => stones[sigma[i]])
  }

  function Compose(q: seq<nat>, sigma: seq<nat>, n: nat): (r: seq<nat>)
    requires IsPerm(q, n) && IsPerm(sigma, n)
    ensures IsPerm(r, n) && forall i :: 0 <= i < n ==> r[i] == q[sigma[i]]
  {
    seq(n, i requires 0 <= i < n => q[sigma[i]])
  }

  /** Sending the reordered stones by `q` after `sigma` costs what
      sending the stones by `q` costs. */
  lemma CostReorder(stones: seq<Stone>, sws: seq<Rules.Pos>, sigma: seq<nat>, q: seq<nat>)
    requires |stones| <= |sws| && IsPerm(sigma, |stones|) && IsPerm(q, |stones|)
    ensures AssignCost(Reorder(stones, sigma), sws, Compose(q, sigma, |stones|)) == AssignCost(stones, sws, q)
  {
    var n := |stones|;
    SumPermuted(Terms(stones, sws, q), Terms(Reorder(stones, sigma), sws, Compose(q, sigma, n)), sigma);
  }

  /** Every arrangement of range(n) has an inverse. */
  lemma InverseExists(sigma: seq<nat>, n: nat)
    requires IsPerm(sigma, n)
    ensures exists tau: seq<nat> :: IsPerm(tau, n) && forall i :: 0 <= i < n ==> tau[sigma[i]] == i
  {
    forall k | 0 <= k < n ensures k in sigma {
      PermCovers(sigma, n, k);
    }
    var tau := seq(n, k requires 0 <= k < n => IndexOf(sigma, k));
    assert IsPerm(tau, n);
    forall i | 0 <= i < n ensures tau[sigma[i]] == i {
      assert sigma[tau[sigma[i]]] == sigma[i];
    }
  }

  lemma ComposeInverse(p: seq<nat>, tau: seq<nat>, sigma: seq<nat>, n: nat)
    requires IsPerm(p, n) && IsPerm(tau, n) && IsPerm(sigma, n)
    requires forall i :: 0 <= i < n ==> tau[sigma[i]] == i
    ensures Compose(Compose(p, tau, n), sigma, n) == p
  {
  }

  lemma ReorderNoDearer(stones: seq<Stone>, sws: seq<Rules.Pos>, sigma: seq<nat>)
    requires |stones| <= |sws| && IsPerm(sigma, |stones|)
    ensures Heuristic(Reorder(stones, sigma), sws) <= Heuristic(stones, sws)
  {
    HeuristicIsMinimum(stones, sws);
    HeuristicIsMinimum(Reorder(stones, sigma), sws);
    var q: seq<nat> :| IsPerm(q, |stones|) && Heuristic(stones, sws) == AssignCost(stones, sws, q);
    CostReorder(stones, sws, sigma, q);
  }

  lemma ReorderNoCheaper(stones: seq<Stone>, sws: seq<Rules.Pos>, sigma: seq<nat>)
    requires |stones| <= |sws| && IsPerm(sigma, |stones|)
    ensures Heuristic(stones, sws) <= Heuristic(Reorder(stones, sigma), sws)
  {
    var n := |stones|;
    var moved := Reorder(stones, sigma);
    HeuristicIsMinimum(stones, sws);
    HeuristicIsMinimum(moved, sws);
    var p: seq<nat> :| IsPerm(p, n) && Heuristic(moved, sws) == AssignCost(moved, sws, p);
    InverseExists(sigma, n);
    var tau: seq<nat> :| IsPerm(tau, n) && forall i :: 0 <= i < n ==> tau[sigma[i]] == i;
    var q := Compose(p, tau, n);
    ComposeInverse(p, tau, sigma, n);
    CostReorder(stones, sws, sigma, q);
  }

  /** The order of the stone list does not change the heuristic. */
  lemma HeuristicReorder(stones: seq<Stone>, sws: seq<Rules.Pos>, sigma: seq<nat>)
    requires |stones| <= |sws| && IsPerm(sigma, |stones|)
    ensures Heuristic(Reorder(stones, sigma), sws) == Heuristic(stones, sws)
  {
    ReorderNoDearer(stones, sws, sigma);
    ReorderNoCheaper(stones, sws, sigma);
  }

  /** `p` puts every stone on the switch it assigns. */
  predicate Matched(stones: seq<Stone>, sws: seq<Rules.Pos>, p: seq<nat>)
    requires Assigns(p, |stones|, |sws|)
  {
    forall i :: 0 <= i < |stones| ==> At(stones[i]) == sws[p[i]]
  }

  lemma ProductZero(a: nat, w: int)
    requires w > 0
    ensures a * w == 0 <==> a == 0
  {
    if a > 0 {
      assert a * w == (a - 1) * w + w;
      assert (a - 1) * w >= 0;
    }
  }

  /** With positive weights, a stone's term is zero exactly when it sits
      on the switch. */
  lemma TermZero(s: Stone, sw: Rules.Pos)
    requires s.w > 0
    ensures Term(s, sw) >= 0
    ensures Term(s, sw) == 0 <==> At(s) == sw
  {
    ProductZero(Abs(s.r - sw.0) + Abs(s.c - sw.1), s.w);
  }

  /** With positive weights, `is_goal` holds exactly when some
      arrangement puts every stone on a distinct one of the first
      switches. */
  lemma GoalIffMatched(stones: seq<Stone>, sws: seq<Rules.Pos>)
    requires |stones| <= |sws| && forall i :: 0 <= i < |stones| ==> stones[i].w > 0
    ensures IsGoalState(stones, sws) <==> exists p :: IsPerm(p, |stones|) && Matched(stones, sws, p)
  {
    var n := |stones|;
    HeuristicIsMinimum(stones, sws);
    forall p | IsPerm(p, n)
      ensures AssignCost(stones, sws, p) >= 0
      ensures AssignCost(stones, sws, p) == 0 <==> Matched(stones, sws, p)
    {
      var t := Terms(stones, sws, p);
      forall i | 0 <= i < n ensures t[i] >= 0 && (t[i] == 0 <==> At(stones[i]) == sws[p[i]]) {
        TermZero(stones[i], sws[p[i]]);
      }
      SumNonNegative(t);
      SumZero(t);
    }
  }

  /** A matching arrangement puts the stones on exactly the switch
      cells. */
  lemma MatchedCovers(stones: seq<Stone>, sws: seq<Rules.Pos>, p: seq<nat>)
    requires |stones| == |sws| && IsPerm(p, |stones|) && Matched(stones, sws, p)
    ensures (set i | 0 <= i < |stones| :: At(stones[i])) == (set k | 0 <= k < |sws| :: sws[k])
  {
    var n := |stones|;
    var occupied := set i | 0 <= i < n :: At(stones[i]);
    forall k | 0 <= k < n ensures sws[k] in occupied {
      PermCovers(p, n, k);
      var i := IndexOf(p, k);
      assert At(stones[i]) == sws[k];
    }
  }

  /** Stones on distinct cells that occupy exactly the switch cells are
      matched by some arrangement. */
  lemma CoveredMatched(stones: seq<Stone>, sws: seq<Rules.Pos>)
    requires |stones| == |sws|
    requires forall i, j :: 0 <= i < j < |stones| ==> At(stones[i]) != At(stones[j])
    requires (set i | 0 <= i < |stones| :: At(stones[i])) == (set k | 0 <= k < |sws| :: sws[k])
    ensures exists p :: IsPerm(p, |stones|) && Matched(stones, sws, p)
  {
    var n := |stones|;
    var targets := set k | 0 <= k < n :: sws[k];
    forall i | 0 <= i < n ensures At(stones[i]) in sws {
      assert At(stones[i]) in targets;
    }
    var p := seq(n, i requires 0 <= i < n => IndexOf(sws, At(stones[i])));
    assert IsPerm(p, n) && Matched(stones, sws, p);
  }

  /** With positive weights, as many switches as stones and the stones
      on distinct cells, `is_goal` holds exactly when the stones occupy
      exactly the switch cells. */
  lemma GoalIffOnSwitches(stones: seq<Stone>, sws: seq<Rules.Pos>)
    requires |stones| == |sws| && forall i :: 0 <= i < |stones| ==> stones[i].w > 0
    requires forall i, j :: 0 <= i < j < |stones| ==> At(stones[i]) != At(stones[j])
    ensures IsGoalState(stones, sws) <==>
              (set i | 0 <= i < |stones| :: At(stones[i])) == (set k | 0 <= k < |sws| :: sws[k])
  {
    GoalIffMatched(stones, sws);
    if IsGoalState(stones, sws) {
      var p: seq<nat> :| IsPerm(p, |stones|) && Matched(stones, sws, p);
      MatchedCovers(stones, sws, p);
    }
    if (set i | 0 <= i < |stones| :: At(stones[i])) == (set k | 0 <= k < |sws| :: sws[k]) {
      CoveredMatched(stones, sws);
    }
  }

  /** Every stone weighs zero or more. */
  predicate WeightsNonNegative(stones: seq<Stone>) {
    forall i :: 0 <= i < |stones| ==> stones[i].w >= 0
  }

  lemma WeightsNonNegativeTransfer(a: seq<Stone>, b: seq<Stone>)
    requires multiset(a) == multiset(b) && WeightsNonNegative(a)
    ensures WeightsNonNegative(b)
  {
    forall i | 0 <= i < |b| ensures b[i].w >= 0 {
      assert b[i] in multiset(a);
    }
  }

  lemma {:induction false} MulStep(a: nat, b: nat, w: nat)
    requires a <= b + 1
    ensures a * w <= b * w + w
  {
    if w > 0 {
      MulStep(a, b, w - 1);
      assert a * w == a * (w - 1) + a;
      assert b * w == b * (w - 1) + b;
    }
  }

  /** A stone one cell away from where it was costs at most its weight
      more to send to any switch. */
  lemma TermShift(s: Stone, s2: Stone, sw: Rules.Pos)
    requires s.w == s2.w >= 0 && Abs(s.r - s2.r) + Abs(s.c - s2.c) <= 1
    ensures Term(s, sw) <= Term(s2, sw) + s.w
  {
    MulStep(Abs(s.r - sw.0) + Abs(s.c - sw.1), Abs(s2.r - sw.0) + Abs(s2.c - sw.1), s.w);
  }

  lemma CostShift(stones: seq<Stone>, sws: seq<Rules.Pos>, p: seq<nat>, i: nat, s2: Stone)
    requires Assigns(p, |stones|, |sws|) && i < |stones|
    requires s2.w == stones[i].w >= 0 && Abs(stones[i].r - s2.r) + Abs(stones[i].c - s2.c) <= 1
    ensures AssignCost(stones, sws, p) <= AssignCost(stones[i := s2], sws, p) + stones[i].w
  {
    var t, t2 := Terms(stones, sws, p), Terms(stones[i := s2], sws, p);
    SumSplit(t, i);
    SumSplit(t2, i);
    assert t[..i] == t2[..i];
    assert t[i + 1..] == t2[i + 1..];
    TermShift(stones[i], s2, sws[p[i]]);
  }

  /** Moving one stone by one cell lowers the heuristic by at most that
      stone's weight: the heuristic is consistent with the cost of a push. */
  lemma HeuristicShift(stones: seq<Stone>, sws: seq<Rules.Pos>, i: nat, s2: Stone)
    requires |stones| <= |sws| && i < |stones|
    requires s2.w == stones[i].w >= 0 && Abs(stones[i].r - s2.r) + Abs(stones[i].c - s2.c) <= 1
    ensures Heuristic(stones, sws) <= Heuristic(stones[i := s2], sws) + stones[i].w
  {
    var moved := stones[i := s2];
    HeuristicIsMinimum(moved, sws);
    var p: seq<nat> :| IsPerm(p, |moved|) && Heuristic(moved, sws) == AssignCost(moved, sws, p);
    HeuristicIsMinimum(stones, sws);
    CostShift(stones, sws, p, i, s2);
  }

  /** The arrangement `rest` with the values from `j` on moved up by one. */
  function Lift(rest: seq<nat>, j: nat): (r: seq<nat>)
    ensures |r| == |rest| && forall i :: 0 <= i < |rest| ==> r[i] == if rest[i] < j then rest[i] else rest[i] + 1
  {
    seq(|rest|, i requires 0 <= i < |rest| => if rest[i] < j then rest[i] else rest[i] + 1)
  }

  lemma LiftPerm(rest: seq<nat>, n: nat, j: nat)
    requires IsPerm(rest, n) && j <= n
    ensures IsPerm(Lift(rest, j) + [j], n + 1)
  {
  }

  lemma MultisetRemove<T>(a: seq<T>, j: nat)
    requires j < |a|
    ensures multiset(a[..j] + a[j + 1..]) == multiset(a) - multiset{a[j]}
  {
    assert a == a[..j] + [a[j]] + a[j + 1..];
    assert multiset(a) == multiset(a[..j] + a[j + 1..]) + multiset{a[j]};
  }

  /** Some arrangement carries one list of stones onto another holding
      the same stones. */
  lemma {:induction false} Matching<T>(a: seq<T>, b: seq<T>) returns (sigma: seq<nat>)
    requires multiset(a) == multiset(b)
    ensures |b| == |a| && IsPerm(sigma, |a|)
    ensures forall i :: 0 <= i < |b| ==> b[i] == a[sigma[i]]
    decreases |b|
  {
    if b == [] {
      assert |multiset(a)| == 0;
      return [];
    }
    var n := |b| - 1;
    var x := b[n];
    assert x in multiset(a);
    var j := IndexOf(a, x);
    var a' := a[..j] + a[j + 1..];
    MultisetRemove(a, j);
    MultisetRemove(b, n);
    assert b[..n] + b[n + 1..] == b[..n];
    var rest := Matching(a', b[..n]);
    LiftPerm(rest, n, j);
    sigma := Lift(rest, j) + [j];
    forall i | 0 <= i < |b| ensures b[i] == a[sigma[i]] {
      if i < n {
        assert b[i] == b[..n][i] == a'[rest[i]];
      }
    }
  }

  /** The heuristic depends only on which stones there are, not on their
      order in the list. */
  lemma HeuristicIgnoresOrder(a: seq<Stone>, b: seq<Stone>, sws: seq<Rules.Pos>)
    requires |a| <= |sws| && multiset(a) == multiset(b)
    ensures |b| == |a| && Heuristic(a, sws) == Heuristic(b, sws)
  {
    var sigma := Matching(a, b);
    assert Reorder(a, sigma) == b;
    HeuristicReorder(a, sws, sigma);
  }
}
