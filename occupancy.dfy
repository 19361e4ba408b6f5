/** The `ants` node attribute as a tally of where the agents stand. Both
    engines keep it by hand: `TreeModel.__init__` sets the count at 'O' to the
    population, and every move takes one from the node left and adds one to the
    node entered. */
module Occupancy {
  import opened PyDicts
  import opened Network

  /** The number of entries of `s` equal to `x`. */
  function Count<T(==)>(s: seq<T>, x: T): nat
  {
    if |s| == 0 then 0 else Count(s[..|s| - 1], x) + (if s[|s| - 1] == x then 1 else 0)
  }

  /** `sum(m[k] for k in keys)`. */
  function SumAt<K(==)>(m: map<K, int>, keys: seq<K>): int
    requires forall k :: k in keys ==> k in m
  {
    if |keys| == 0 then 0 else SumAt(m, keys[..|keys| - 1]) + m[keys[|keys| - 1]]
  }

  /** The tally: the count at every node is a fixed base (what the node held before any
      agent was placed, 'O' excepted) plus the number of agents standing there. */
  ghost predicate Tally<K>(ants: map<K, int>, base: map<K, int>, positions: seq<K>)
  {
    ants.Keys == base.Keys && forall x :: x in ants ==> ants[x] == base[x] + Count(positions, x)
  }

  /** The counts after an agent moves from `u` to `v`. */
  function Shifted<K(==)>(ants: map<K, int>, u: K, v: K): (r: map<K, int>)
    requires u in ants && v in ants
    ensures r.Keys == ants.Keys
  {
    ants[u := ants[u] - 1][v := ants[v] + 1]
  }

  /** Sending one agent along a step keeps the tally; the counts of other nodes do not change. */
  lemma ShiftTally<K>(ants: map<K, int>, base: map<K, int>, ps: seq<K>, k: nat, u: K, v: K)
    requires Tally(ants, base, ps) && k < |ps| && ps[k] == u && u != v && u in ants && v in ants
    ensures Tally(Shifted(ants, u, v), base, ps[k := v])
    ensures forall x :: x in ants && x != u && x != v ==> Shifted(ants, u, v)[x] == ants[x]
  {
    forall x | x in ants ensures Shifted(ants, u, v)[x] == base[x] + Count(ps[k := v], x) {
      CountUpdate(ps, k, v, x);
    }
  }

  /** Replacing entry `k` by `v` moves one occurrence from the old entry to `v`. */
  lemma {:induction false} CountUpdate<T>(s: seq<T>, k: nat, v: T, x: T)
    requires k < |s|
    ensures Count(s[k := v], x) == Count(s, x) - (if s[k] == x then 1 else 0) + (if v == x then 1 else 0)
  {
    var n := |s| - 1;
    assert s[k := v][..n] == if k < n then s[..n][k := v] else s[..n];
    if k < n {
      CountUpdate(s[..n], k, v, x);
    }
  }

  /** `n` copies of `x`. */
  function Repeat<T>(x: T, n: nat): (r: seq<T>)
    ensures |r| == n && forall j :: 0 <= j < n ==> r[j] == x
  {
    if n == 0 then [] else Repeat(x, n - 1) + [x]
  }

  /** Every agent at `x`: the count at `x` is the number of agents, and zero elsewhere. */
  lemma {:induction false} CountAll<T>(s: seq<T>, x: T, y: T)
    requires forall i :: 0 <= i < |s| ==> s[i] == x
    ensures Count(s, x) == |s|
    ensures y != x ==> Count(s, y) == 0
  {
    if |s| > 0 {
      CountAll(s[..|s| - 1], x, y);
    }
  }

  /** `Shifted` keeps the total over a repeat-free list of nodes that names both ends. */
  lemma {:induction false} ShiftSum<K>(ants: map<K, int>, keys: seq<K>, u: K, v: K)
    requires u in ants && v in ants && u != v && (forall k :: k in keys ==> k in ants)
    requires Distinct(keys) && u in keys && v in keys
    ensures SumAt(Shifted(ants, u, v), keys) == SumAt(ants, keys)
  {
    ShiftSumPart(ants, keys, u, v);
  }

  /** The total of `Shifted` over any repeat-free list: one less if it names only `u`, one
      more if it names only `v`. */
  lemma {:induction false} ShiftSumPart<K>(ants: map<K, int>, keys: seq<K>, u: K, v: K)
    requires u in ants && v in ants && u != v && (forall k :: k in keys ==> k in ants) && Distinct(keys)
    ensures SumAt(Shifted(ants, u, v), keys) ==
      SumAt(ants, keys) - (if u in keys then 1 else 0) + (if v in keys then 1 else 0)
  {
    if |keys| > 0 {
      var n := |keys| - 1;
      var p := keys[..n];
      assert Distinct(p) by {
        forall i, j | 0 <= i < j < |p| ensures p[i] != p[j] {
          assert p[i] == keys[i] && p[j] == keys[j];
        }
      }
      assert forall k :: k in p ==> k in keys;
      ShiftSumPart(ants, p, u, v);
      assert keys[n] !in p by {
        forall i | 0 <= i < n ensures p[i] != keys[n] {
          assert p[i] == keys[i];
        }
      }
      assert keys == p + [keys[n]];
      assert u in keys <==> u in p || u == keys[n];
      assert v in keys <==> v in p || v == keys[n];
    }
  }

  /** With the tally in force, the total over a repeat-free list naming every counted node
      is the base total plus the number of agents. */
  lemma TallyTotal<K>(ants: map<K, int>, base: map<K, int>, ps: seq<K>, keys: seq<K>)
    requires Tally(ants, base, ps) && Distinct(keys)
    requires (forall k :: k in keys <==> k in ants) && (forall i :: 0 <= i < |ps| ==> ps[i] in ants)
    ensures SumAt(ants, keys) == SumAt(base, keys) + |ps|
  {
    TallySum(ants, base, ps, keys);
    CountSumAll(ps, keys);
  }

  /** `sum(len([a for a in ps if a == k]) for k in keys)`. */
  function CountSum<K(==)>(ps: seq<K>, keys: seq<K>): nat
  {
    if |keys| == 0 then 0 else CountSum(ps, keys[..|keys| - 1]) + Count(ps, keys[|keys| - 1])
  }

  lemma {:induction false} TallySum<K>(ants: map<K, int>, base: map<K, int>, ps: seq<K>, keys: seq<K>)
    requires Tally(ants, base, ps) && (forall k :: k in keys ==> k in ants)
    ensures SumAt(ants, keys) == SumAt(base, keys) + CountSum(ps, keys)
  {
    if |keys| > 0 {
      TallySum(ants, base, ps, keys[..|keys| - 1]);
    }
  }

  /** Counting every agent at every node of a repeat-free list naming all their positions counts each exactly once. */
  lemma {:induction false} CountSumAll<K>(ps: seq<K>, keys: seq<K>)
    requires Distinct(keys) && forall i :: 0 <= i < |ps| ==> ps[i] in keys
    ensures CountSum(ps, keys) == |ps|
  {
    if |ps| > 0 {
      var n := |ps| - 1;
      CountSumAll(ps[..n], keys);
      CountSumSnoc(ps[..n], ps[n], keys);
      assert ps == ps[..n] + [ps[n]];
      CountOnce(keys, ps[n]);
    } else {
      CountSumNone(keys);
    }
  }

  lemma {:induction false} CountSumNone<K>(keys: seq<K>)
    ensures CountSum([], keys) == 0
  {
    if |keys| > 0 {
      CountSumNone(keys[..|keys| - 1]);
    }
  }

  lemma {:induction false} CountSumSnoc<K>(ps: seq<K>, p: K, keys: seq<K>)
    ensures CountSum(ps + [p], keys) == CountSum(ps, keys) + Count(keys, p)
  {
    if |keys| > 0 {
      var n := |keys| - 1;
      CountSumSnoc(ps, p, keys[..n]);
      assert (ps + [p])[..|ps|] == ps;
    }
  }

  /** A repeat-free list names each of its entries once. */
  lemma {:induction false} CountOnce<T>(s: seq<T>, x: T)
    requires Distinct(s) && x in s
    ensures Count(s, x) == 1
  {
    var n := |s| - 1;
    var p := s[..n];
    assert Distinct(p) by {
      forall i, j | 0 <= i < j < |p| ensures p[i] != p[j] {
        assert p[i] == s[i] && p[j] == s[j];
      }
    }
    if s[n] == x {
      assert x !in p by {
        forall i | 0 <= i < n ensures p[i] != x {
          assert p[i] == s[i];
        }
      }
      CountAbsent(p, x);
    } else {
      var i :| 0 <= i < |s| && s[i] == x;
      assert p[i] == x;
      CountOnce(p, x);
    }
  }

  lemma {:induction false} CountAbsent<T>(s: seq<T>, x: T)
    requires x !in s
    ensures Count(s, x) == 0
  {
    if |s| > 0 {
      assert x !in s[..|s| - 1];
      CountAbsent(s[..|s| - 1], x);
    }
  }

  // ---------------------------------------------------------------------------
  // the counts on a tree, shared by both engines

  /** The number of ants on the tree: `sum(G.nodes[n]['ants'] for n in G.nodes)`. */
  function Total<K, E>(g: Graph<K, E>): int
    requires forall n :: n in g.nodes ==> n in g.ants
  {
    SumAt(g.ants, g.nodes)
  }

  /** A linked loopless tree, agents standing on its nodes at `ps`, and the `ants` counts
      kept as a tally of where they stand. */
  ghost predicate Consistent<K, E>(g: Graph<K, E>, base: map<string, int>, ps: seq<string>)
  {
    g.Linked() && g.Loopless() && (forall i :: 0 <= i < |ps| ==> ps[i] in g.adj) && Tally(g.ants, base, ps)
  }

  /** Agents all placed at 'O', which then holds as many ants as there are agents, make a
      consistent start, with 'O' counted as empty before. */
  lemma Placing<K, E>(g: Graph<K, E>, g1: Graph<K, E>, base: map<string, int>, ps: seq<string>)
    requires g.Linked() && g.Loopless() && "O" in g.adj && forall j :: 0 <= j < |ps| ==> ps[j] == "O"
    requires g1 == g.(ants := g.ants["O" := |ps|]) && base == g.ants["O" := 0]
    ensures Consistent(g1, base, ps)
  {
    assert g1.Linked();
    forall x | x in g1.ants
      ensures g1.ants[x] == base[x] + Count(ps, x)
    {
      CountAll(ps, "O", x);
    }
  }

  /** The census: in a consistent state the ants on the tree are the base counts plus one
      per agent. */
  lemma Census<K, E>(g: Graph<K, E>, base: map<string, int>, ps: seq<string>)
    requires Consistent(g, base, ps) && g.Unique()
    ensures Total(g) == SumAt(base, g.nodes) + |ps|
  {
    TallyTotal(g.ants, base, ps, g.nodes);
  }

  /** Two consistent states with the same nodes, base and number of agents have the same
      number of ants on the tree. */
  lemma SameCensus<K, E>(g0: Graph<K, E>, g1: Graph<K, E>, base: map<string, int>, ps0: seq<string>, ps1: seq<string>)
    requires Consistent(g0, base, ps0) && Consistent(g1, base, ps1) && g0.Unique()
    requires g1.nodes == g0.nodes && |ps1| == |ps0|
    ensures Total(g1) == Total(g0)
  {
    Census(g0, base, ps0);
    Census(g1, base, ps1);
  }
}
