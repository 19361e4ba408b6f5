/** What `construct_tree` builds from the complete leaf set `balanced_tree`
    produces: the full binary tree of the given depth, with every junction
    joined to its two children. The merge loop works through the tree level by
    level, from the leaves up: in state (k, j) every node of level k with index
    below j has been merged into its parent, and the working dictionary holds the
    rest of level k followed by the junctions of level k - 1 made so far. Nodes are
    written as (level, index) pairs; `Name(n, i)` is the name of node (n, i). */
module FullTree {
  import opened Results
  import opened Names
  import opened PyDicts
  import opened Network
  import opened TreeBuild

  /** The working width of node (n, i): the width of its leaf on the bottom level, else
      the larger of its two children's (positions past the end of `ws` never occur). */
  function WtAt(d: nat, ws: seq<real>, n: nat, i: nat): real
    decreases d - n
  {
    if n >= d then (if i < |ws| then ws[i] else 0.0)
    else Max(WtAt(d, ws, n + 1, 2 * i), WtAt(d, ws, n + 1, 2 * i + 1))
  }

  /** The kind node (n, i) is given: the kind of its leaf position on the bottom level,
      else the junction kind. */
  function KindAt<K>(d: nat, kinds: Kinds<K>, n: nat, i: nat): K
  {
    if n >= d then (if i < |kinds.leaves| then kinds.leaves[i] else kinds.node)
    else JuncKind(kinds, Name(n, i))
  }

  /** The names of level n with index from a up to b (exclusive). */
  function LevelNames(n: nat, a: nat, b: nat): (r: seq<string>)
    ensures |r| == if a <= b then b - a else 0
    ensures forall t :: 0 <= t < |r| ==> r[t] == Name(n, a + t)
  {
    seq(if a <= b then b - a else 0, t requires 0 <= t < (if a <= b then b - a else 0) => Name(n, a + t))
  }

  /** The keys of the working dictionary in state (k, j). */
  function Queue(k: nat, j: nat): seq<string>
  {
    LevelNames(k, j, Pow2(k)) + (if k > 0 then LevelNames(k - 1, 0, j / 2) else [])
  }

  /** Node (n, i) is in the graph in state (k, j). */
  predicate Present(n: nat, i: nat, k: nat, j: nat)
  {
    n >= k || (n + 1 == k && 2 * i < j)
  }

  /** Node (n, i) has been joined to its parent in state (k, j). */
  predicate Merged(n: nat, i: nat, k: nat, j: nat)
  {
    n > k || (n == k && i < j)
  }

  /** The neighbours a junction gets when it is made: its R child, then its L child. */
  function Down(d: nat, n: nat, i: nat): seq<string>
  {
    if n < d then [Name(n + 1, 2 * i + 1), Name(n + 1, 2 * i)] else []
  }

  /** The neighbour a node gets when it is merged: its parent. */
  function Up(n: nat, i: nat, k: nat, j: nat): seq<string>
  {
    if n > 0 && Merged(n, i, k, j) then [Name(n - 1, i / 2)] else []
  }

  predicate Slot(d: nat, n: nat, i: nat)
  {
    n <= d && i < Pow2(n)
  }

  ghost predicate InvNodes<K, E>(g: Graph<K, E>, d: nat, k: nat, j: nat)
  {
    && (forall x :: x in g.adj ==> IsTreeName(x, d) && Present(Level(x), Index(x), k, j))
    && |g.nodes| + Pow2(k) == Pow2(d + 1) + j / 2
  }

  ghost predicate InvAdj<K, E>(g: Graph<K, E>, d: nat, k: nat, j: nat)
  {
    forall n: nat, i: nat {:trigger Slot(d, n, i)} :: Slot(d, n, i) && Present(n, i, k, j) ==>
      Name(n, i) in g.adj && g.adj[Name(n, i)] == Down(d, n, i) + Up(n, i, k, j)
  }

  ghost predicate InvAttrs<K, E>(g: Graph<K, E>, d: nat, kinds: Kinds<K>, k: nat, j: nat)
  {
    forall n: nat, i: nat {:trigger Slot(d, n, i)} :: Slot(d, n, i) && Present(n, i, k, j) ==>
      Name(n, i) in g.kind && g.kind[Name(n, i)] == KindAt(d, kinds, n, i) &&
      Name(n, i) in g.ants && g.ants[Name(n, i)] == 0
  }

  ghost predicate InvEdges<K, E>(g: Graph<K, E>, d: nat, ws: seq<real>, mk: real -> E, k: nat, j: nat)
  {
    forall n: nat, i: nat {:trigger Slot(d, n, i)} :: Slot(d, n, i) && n > 0 && Merged(n, i, k, j) ==>
      (Name(n - 1, i / 2), Name(n, i)) in g.edges && g.edges[(Name(n - 1, i / 2), Name(n, i))] == mk(WtAt(d, ws, n, i))
  }

  ghost predicate InvDict(D: Weights, d: nat, ws: seq<real>, k: nat, j: nat)
  {
    D.Valid() && D.keys == Queue(k, j) && InvWts(D.vals, d, ws, k, j)
  }

  /** The working widths: those of the unmerged nodes of level k and of the junctions made. */
  ghost predicate InvWts(w: map<string, real>, d: nat, ws: seq<real>, k: nat, j: nat)
  {
    && (forall i :: j <= i < Pow2(k) ==> Name(k, i) in w && w[Name(k, i)] == WtAt(d, ws, k, i))
    && (forall n: nat, i :: n + 1 == k && 0 <= i < j / 2 ==> Name(n, i) in w && w[Name(n, i)] == WtAt(d, ws, n, i))
  }

  ghost predicate Inv<K, E>(g: Graph<K, E>, D: Weights, d: nat, ws: seq<real>, kinds: Kinds<K>, mk: real -> E, k: nat, j: nat)
  {
    && k <= d && j % 2 == 0 && j <= Pow2(k)
    && InvNodes(g, d, k, j) && InvAdj(g, d, k, j) && InvAttrs(g, d, kinds, k, j) && InvEdges(g, d, ws, mk, k, j)
    && InvDict(D, d, ws, k, j)
    && Tracked(g, D)
  }

  // ---------------------------------------------------------------------------
  // One merge: state (k, j) to state (k, j + 2)

  /** What the next merge in state (k, j) relies on: its two nodes, the L child (k, j)
      and the R child (k, j + 1), are keys and nodes and are siblings, and their junction
      (k - 1, j / 2) is neither. */
  ghost predicate Ready<K, E>(g: Graph<K, E>, D: Weights, k: nat, j: nat)
  {
    && k >= 1 && j % 2 == 0 && j + 2 <= Pow2(k)
    && Name(k, j) in D.vals && Name(k, j + 1) in D.vals && Name(k, j) in g.adj && Name(k, j + 1) in g.adj
    && Name(k - 1, j / 2) !in g.adj && Name(k - 1, j / 2) !in D.vals
    && IsSibling(Name(k, j + 1), Name(k, j)) && Prefix(Name(k, j)) == Name(k - 1, j / 2)
    && D.Valid() && Tracked(g, D)
  }

  /** The two nodes merged in state (k, j) and the junction they make. */
  lemma StepNames(d: nat, k: nat, j: nat)
    requires 1 <= k <= d && j % 2 == 0
    ensures Prefix(Name(k, j)) == Name(k - 1, j / 2) && Prefix(Name(k, j + 1)) == Name(k - 1, j / 2)
    ensures IsSibling(Name(k, j + 1), Name(k, j))
    ensures Down(d, k - 1, j / 2) == [Name(k, j + 1), Name(k, j)]
    ensures (j + 1) / 2 == j / 2
  {
    PairPrefix(k, j);
    PairDistinct(k, j);
    var i := j / 2;
    assert 2 * i + 1 == j + 1 && 2 * i == j;
  }

  /** The queue of state (k, j) starts with the pair merged next; the merge moves it to
      the queue of state (k, j + 2). */
  lemma QueueStep(k: nat, j: nat)
    requires k >= 1 && j % 2 == 0 && j + 2 <= Pow2(k)
    ensures |Queue(k, j)| >= 2 && Queue(k, j)[0] == Name(k, j) && Queue(k, j)[1] == Name(k, j + 1)
    ensures Queue(k, j)[2..] + [Name(k - 1, j / 2)] == Queue(k, j + 2)
  {
    var a, b := LevelNames(k, j, Pow2(k)), LevelNames(k - 1, 0, j / 2);
    var p := Name(k - 1, j / 2);
    assert Queue(k, j) == a + b;
    assert a[0] == Name(k, j) && a[1] == Name(k, j + 1);
    assert (a + b)[2..] == a[2..] + b;
    assert (a[2..] + b) + [p] == a[2..] + (b + [p]);
    LevelDrop(k, j, Pow2(k));
    LevelSnoc(k - 1, j / 2);
    assert (j + 2) / 2 == j / 2 + 1;
    assert Queue(k, j + 2) == a[2..] + (b + [p]);
  }

  lemma LevelDrop(n: nat, a: nat, b: nat)
    requires a + 2 <= b
    ensures LevelNames(n, a, b)[2..] == LevelNames(n, a + 2, b)
  {
  }

  lemma LevelSnoc(n: nat, c: nat)
    ensures LevelNames(n, 0, c) + [Name(n, c)] == LevelNames(n, 0, c + 1)
  {
  }

  /** The root is not queued while level k >= 1 is unfinished. */
  lemma RootAbsent(k: nat, j: nat)
    requires k >= 1 && j % 2 == 0 && j < Pow2(k)
    ensures "O" !in Queue(k, j)
  {
    var a, b := LevelNames(k, j, Pow2(k)), LevelNames(k - 1, 0, j / 2);
    assert Queue(k, j) == a + b;
    assert Pow2(1) == 2;
    forall t | 0 <= t < |a + b| ensures |(a + b)[t]| >= 2 {
      if t < |a| {
        assert (a + b)[t] == Name(k, j + t);
      } else {
        assert (a + b)[t] == Name(k - 1, t - |a|);
      }
    }
  }

  /** The first key's sibling is the second key when they are the pair of state (k, j). */
  lemma SiblingFound(keys: seq<string>, k: nat, j: nat)
    requires k >= 1 && j % 2 == 0 && |keys| >= 2 && keys[0] == Name(k, j) && keys[1] == Name(k, j + 1)
    ensures FindSibling(keys, keys[0], 0) == Some(1)
  {
    PairPrefix(k, j);
    PairDistinct(k, j);
    assert !IsSibling(keys[0], keys[0]);
    assert IsSibling(keys[1], keys[0]);
  }

  /** The dictionary side of state (k, j) with j below 2^k: the loop goes on ('O' is
      absent) and merges the first two keys, the pair (k, j) and (k, j + 1). */
  lemma DictSearch(D: Weights, k: nat, j: nat)
    requires k >= 1 && j % 2 == 0 && j < Pow2(k) && D.Valid() && D.keys == Queue(k, j)
    ensures j + 2 <= Pow2(k)
    ensures |D.keys| >= 2 && D.keys[0] == Name(k, j) && D.keys[1] == Name(k, j + 1)
    ensures Name(k, j) in D.vals && Name(k, j + 1) in D.vals && "O" !in D.vals
    ensures FindSibling(D.keys, D.keys[0], 0) == Some(1)
  {
    EvenBelow(k, j);
    QueueStep(k, j);
    RootAbsent(k, j);
    assert "O" !in D.keys;
    SiblingFound(D.keys, k, j);
  }

  /** An even index below 2^k (k >= 1) leaves room for its odd neighbour. */
  lemma EvenBelow(k: nat, j: nat)
    requires k >= 1 && j % 2 == 0 && j < Pow2(k)
    ensures j + 2 <= Pow2(k)
  {
    var m := Pow2(k - 1);
    assert Pow2(k) == 2 * m;
    assert j == 2 * (j / 2);
    assert j / 2 < m;
  }

  /** The graph side: the pair are nodes and their junction is not yet one. */
  lemma GraphSearch<K, E>(g: Graph<K, E>, D: Weights, d: nat, k: nat, j: nat)
    requires 1 <= k <= d && j % 2 == 0 && j + 2 <= Pow2(k)
    requires InvNodes(g, d, k, j) && InvAdj(g, d, k, j) && Tracked(g, D)
    ensures Name(k, j) in g.adj && Name(k, j + 1) in g.adj
    ensures Name(k - 1, j / 2) !in g.adj && Name(k - 1, j / 2) !in D.vals
  {
    NameFacts(k - 1, j / 2, d);
    assert Slot(d, k, j) && Present(k, j, k, j) && Slot(d, k, j + 1) && Present(k, j + 1, k, j);
    assert !Present(k - 1, j / 2, k, j);
  }

  /** In state (k, j) with j below 2^k the loop goes on: 'O' is absent and the first
      key's sibling is the second key. */
  lemma StepSearch<K, E>(g: Graph<K, E>, D: Weights, d: nat, ws: seq<real>, kinds: Kinds<K>, mk: real -> E, k: nat, j: nat)
    requires Inv(g, D, d, ws, kinds, mk, k, j) && k >= 1 && j < Pow2(k)
    ensures Ready(g, D, k, j)
    ensures |D.keys| >= 2 && D.keys[0] == Name(k, j) && D.keys[1] == Name(k, j + 1)
    ensures "O" !in D.vals
    ensures FindSibling(D.keys, D.keys[0], 0) == Some(1)
  {
    DictSearch(D, k, j);
    GraphSearch(g, D, d, k, j);
    StepNames(d, k, j);
  }

  /** The graph after the three updates of a merge of x0 (the L child) with x1 into p. */
  lemma JoinGraph<K, E>(g: Graph<K, E>, p: string, x0: string, x1: string, a: K, e1: E, e0: E)
    requires p !in g.adj && x0 in g.adj && x1 in g.adj && x0 != x1
    ensures var g3 := g.AddNode(p, a, 0).AddEdge(p, x1, e1).AddEdge(p, x0, e0);
      && g3.nodes == g.nodes + [p]
      && g3.kind == g.kind[p := a] && g3.ants == g.ants[p := 0]
      && g3.adj == g.adj[p := [x1, x0]][x1 := g.adj[x1] + [p]][x0 := g.adj[x0] + [p]]
      && g3.edges == g.edges[(p, x1) := e1][(x1, p) := e1][(p, x0) := e0][(x0, p) := e0]
  {
    var g1 := g.AddNode(p, a, 0);
    assert g1.adj == g.adj[p := []];
    assert x1 !in g1.adj[p];
    var g2 := g1.AddEdge(p, x1, e1);
    assert g2.adj == g1.adj[p := g1.adj[p] + [x1]][x1 := g1.adj[x1] + [p]];
    assert g1.adj[p] + [x1] == [x1] && g1.adj[x1] == g.adj[x1];
    assert g2.adj == g.adj[p := [x1]][x1 := g.adj[x1] + [p]];
    assert g2.adj[p] == [x1] && g2.adj[x0] == g.adj[x0];
    assert x0 !in g2.adj[p];
    var g3 := g2.AddEdge(p, x0, e0);
    assert g3.adj == g2.adj[p := g2.adj[p] + [x0]][x0 := g2.adj[x0] + [p]];
    assert [x1] + [x0] == [x1, x0];
  }

  /** The graph side of the merge in state (k, j). */
  lemma StepGraph<K, E>(g: Graph<K, E>, D: Weights, kinds: Kinds<K>, mk: real -> E, k: nat, j: nat)
    requires Ready(g, D, k, j)
    ensures var p, x0, x1 := Name(k - 1, j / 2), Name(k, j), Name(k, j + 1);
      var g3 := Merge(g, D, x0, x1, kinds, mk).0;
      && g3.nodes == g.nodes + [p]
      && g3.kind == g.kind[p := JuncKind(kinds, p)] && g3.ants == g.ants[p := 0]
      && g3.adj == g.adj[p := [x1, x0]][x1 := g.adj[x1] + [p]][x0 := g.adj[x0] + [p]]
      && g3.edges == g.edges[(p, x1) := mk(D.vals[x1])][(x1, p) := mk(D.vals[x1])][(p, x0) := mk(D.vals[x0])][(x0, p) := mk(D.vals[x0])]
  {
    var p, x0, x1 := Name(k - 1, j / 2), Name(k, j), Name(k, j + 1);
    JoinGraph(g, p, x0, x1, JuncKind(kinds, p), mk(D.vals[x1]), mk(D.vals[x0]));
  }

  /** The node set grows by the junction of state (k, j), which belongs to state (k, j + 2). */
  lemma NamesStep(names: set<string>, d: nat, k: nat, j: nat)
    requires 1 <= k <= d && j % 2 == 0 && j + 2 <= Pow2(k)
    requires forall x :: x in names ==> IsTreeName(x, d) && Present(Level(x), Index(x), k, j)
    ensures forall x :: x in names + {Name(k - 1, j / 2)} ==> IsTreeName(x, d) && Present(Level(x), Index(x), k, j + 2)
  {
    assert j / 2 < Pow2(k - 1) by {
      assert Pow2(k) == 2 * Pow2(k - 1);
    }
    NameFacts(k - 1, j / 2, d);
  }

  lemma StepNodes<K, E>(g: Graph<K, E>, g3: Graph<K, E>, d: nat, k: nat, j: nat)
    requires 1 <= k <= d && j % 2 == 0 && j + 2 <= Pow2(k) && InvNodes(g, d, k, j)
    requires g3.nodes == g.nodes + [Name(k - 1, j / 2)] && g3.adj.Keys == g.adj.Keys + {Name(k - 1, j / 2)}
    ensures InvNodes(g3, d, k, j + 2)
  {
    NamesStep(g.adj.Keys, d, k, j);
  }

  /** A node other than the junction made in state (k, j) has another name. */
  lemma OtherJunc(n: nat, i: nat, k: nat, j: nat)
    requires k >= 1 && i < Pow2(n) && j < Pow2(k) && !(n + 1 == k && i == j / 2)
    ensures Name(n, i) != Name(k - 1, j / 2)
  {
    assert j / 2 < Pow2(k - 1) by {
      assert Pow2(k) == 2 * Pow2(k - 1);
    }
    if Name(n, i) == Name(k - 1, j / 2) { NameInjective(n, i, k - 1, j / 2); }
  }

  /** A node other than the three of the merge in state (k, j) has another name than each. */
  lemma Other(n: nat, i: nat, k: nat, j: nat)
    requires k >= 1 && i < Pow2(n) && j + 2 <= Pow2(k) && !(n == k && i == j) && !(n == k && i == j + 1)
    requires !(n + 1 == k && i == j / 2)
    ensures Name(n, i) != Name(k - 1, j / 2) && Name(n, i) != Name(k, j) && Name(n, i) != Name(k, j + 1)
  {
    OtherJunc(n, i, k, j);
    if Name(n, i) == Name(k, j) { NameInjective(n, i, k, j); }
    if Name(n, i) == Name(k, j + 1) { NameInjective(n, i, k, j + 1); }
  }

  /** The neighbour list of node (n, i) after the merge of state (k, j). */
  lemma AdjAt(adj: map<string, seq<string>>, d: nat, k: nat, j: nat, n: nat, i: nat)
    requires 1 <= k <= d && j % 2 == 0 && j + 2 <= Pow2(k) && Slot(d, n, i) && Present(n, i, k, j + 2)
    requires Name(k, j) in adj && Name(k, j + 1) in adj
    requires Present(n, i, k, j) ==> Name(n, i) in adj && adj[Name(n, i)] == Down(d, n, i) + Up(n, i, k, j)
    ensures var p, x0, x1 := Name(k - 1, j / 2), Name(k, j), Name(k, j + 1);
      var a3 := adj[p := [x1, x0]][x1 := adj[x1] + [p]][x0 := adj[x0] + [p]];
      Name(n, i) in a3 && a3[Name(n, i)] == Down(d, n, i) + Up(n, i, k, j + 2)
  {
    var p, x0, x1 := Name(k - 1, j / 2), Name(k, j), Name(k, j + 1);
    var a3 := adj[p := [x1, x0]][x1 := adj[x1] + [p]][x0 := adj[x0] + [p]];
    PairNames(k, j);
    if n + 1 == k && i == j / 2 {
      AdjAtJunc(a3, d, k, j, p, x0, x1);
    } else if n == k && i == j {
      AdjAtChild(adj, a3, d, k, j, p, x0, x1, j);
    } else if n == k && i == j + 1 {
      AdjAtChild(adj, a3, d, k, j, p, x0, x1, j + 1);
    } else {
      Other(n, i, k, j);
      AdjAtOther(adj, a3, d, k, j, p, x0, x1, n, i);
    }
  }

  /** The pair of state (k, j) and their parent are three different names. */
  lemma PairNames(k: nat, j: nat)
    requires 1 <= k && j % 2 == 0
    ensures Name(k - 1, j / 2) != Name(k, j) && Name(k - 1, j / 2) != Name(k, j + 1) && Name(k, j) != Name(k, j + 1)
  {
    PairDistinct(k, j);
    assert |Name(k - 1, j / 2)| == k && |Name(k, j)| == k + 1 && |Name(k, j + 1)| == k + 1;
  }

  /** Any other present node keeps its neighbours. */
  lemma AdjAtOther(adj: map<string, seq<string>>, a3: map<string, seq<string>>, d: nat, k: nat, j: nat, p: string, x0: string, x1: string, n: nat, i: nat)
    requires 1 <= k <= d && j % 2 == 0 && j + 2 <= Pow2(k) && Slot(d, n, i) && Present(n, i, k, j + 2)
    requires !(n == k && i == j) && !(n == k && i == j + 1) && !(n + 1 == k && i == j / 2)
    requires x0 in adj && x1 in adj && a3 == adj[p := [x1, x0]][x1 := adj[x1] + [p]][x0 := adj[x0] + [p]]
    requires Name(n, i) != p && Name(n, i) != x0 && Name(n, i) != x1
    requires Present(n, i, k, j) ==> Name(n, i) in adj && adj[Name(n, i)] == Down(d, n, i) + Up(n, i, k, j)
    ensures Name(n, i) in a3 && a3[Name(n, i)] == Down(d, n, i) + Up(n, i, k, j + 2)
  {
    assert Up(n, i, k, j + 2) == Up(n, i, k, j);
  }

  /** The new junction's neighbours: its R child, then its L child. */
  lemma AdjAtJunc(a3: map<string, seq<string>>, d: nat, k: nat, j: nat, p: string, x0: string, x1: string)
    requires 1 <= k <= d && j % 2 == 0 && j + 2 <= Pow2(k)
    requires p == Name(k - 1, j / 2) && x0 == Name(k, j) && x1 == Name(k, j + 1)
    requires p in a3 && a3[p] == [x1, x0]
    ensures a3[Name(k - 1, j / 2)] == Down(d, k - 1, j / 2) + Up(k - 1, j / 2, k, j + 2)
  {
    assert 2 * (j / 2) == j;
  }

  /** A merged child gains its parent as last neighbour. */
  lemma AdjAtChild(adj: map<string, seq<string>>, a3: map<string, seq<string>>, d: nat, k: nat, j: nat, p: string, x0: string, x1: string, i: nat)
    requires 1 <= k <= d && j % 2 == 0 && j + 2 <= Pow2(k) && (i == j || i == j + 1)
    requires p == Name(k - 1, j / 2) && x0 == Name(k, j) && x1 == Name(k, j + 1) && x0 != x1
    requires x0 in adj && x1 in adj && a3 == adj[p := [x1, x0]][x1 := adj[x1] + [p]][x0 := adj[x0] + [p]] && p != x0 && p != x1
    requires adj[Name(k, i)] == Down(d, k, i) + Up(k, i, k, j)
    ensures Name(k, i) in a3 && a3[Name(k, i)] == Down(d, k, i) + Up(k, i, k, j + 2)
  {
    assert Up(k, i, k, j) == [] && Up(k, i, k, j + 2) == [p];
  }


  lemma StepAdj<K, E>(g: Graph<K, E>, g3: Graph<K, E>, d: nat, k: nat, j: nat)
    requires 1 <= k <= d && j % 2 == 0 && j + 2 <= Pow2(k) && InvAdj(g, d, k, j)
    requires Name(k, j) in g.adj && Name(k, j + 1) in g.adj
    requires var p, x0, x1 := Name(k - 1, j / 2), Name(k, j), Name(k, j + 1);
      g3.adj == g.adj[p := [x1, x0]][x1 := g.adj[x1] + [p]][x0 := g.adj[x0] + [p]]
    ensures InvAdj(g3, d, k, j + 2)
  {
    forall n: nat, i: nat | Slot(d, n, i) && Present(n, i, k, j + 2)
      ensures Name(n, i) in g3.adj && g3.adj[Name(n, i)] == Down(d, n, i) + Up(n, i, k, j + 2)
    {
      AdjAt(g.adj, d, k, j, n, i);
    }
  }

  lemma StepAttrs<K, E>(g: Graph<K, E>, g3: Graph<K, E>, d: nat, kinds: Kinds<K>, k: nat, j: nat)
    requires 1 <= k <= d && j % 2 == 0 && j + 2 <= Pow2(k) && InvAttrs(g, d, kinds, k, j)
    requires g3.kind == g.kind[Name(k - 1, j / 2) := JuncKind(kinds, Name(k - 1, j / 2))]
    requires g3.ants == g.ants[Name(k - 1, j / 2) := 0]
    ensures InvAttrs(g3, d, kinds, k, j + 2)
  {
    forall n: nat, i: nat | Slot(d, n, i) && Present(n, i, k, j + 2)
      ensures Name(n, i) in g3.kind && g3.kind[Name(n, i)] == KindAt(d, kinds, n, i)
      ensures Name(n, i) in g3.ants && g3.ants[Name(n, i)] == 0
    {
      if n + 1 == k && i == j / 2 {
      } else {
        assert Present(n, i, k, j);
        OtherJunc(n, i, k, j);
      }
    }
  }

  /** The edge from node (n, i) to its parent after the merge of state (k, j). */
  lemma EdgeAt<E>(es: map<EdgeKey, E>, d: nat, ws: seq<real>, mk: real -> E, e0: E, e1: E, k: nat, j: nat, n: nat, i: nat)
    requires 1 <= k <= d && j % 2 == 0 && j + 2 <= Pow2(k) && Slot(d, n, i) && n > 0 && Merged(n, i, k, j + 2)
    requires e0 == mk(WtAt(d, ws, k, j)) && e1 == mk(WtAt(d, ws, k, j + 1))
    requires Merged(n, i, k, j) ==>
      (Name(n - 1, i / 2), Name(n, i)) in es && es[(Name(n - 1, i / 2), Name(n, i))] == mk(WtAt(d, ws, n, i))
    ensures var p, x0, x1 := Name(k - 1, j / 2), Name(k, j), Name(k, j + 1);
      var es3 := es[(p, x1) := e1][(x1, p) := e1][(p, x0) := e0][(x0, p) := e0];
      (Name(n - 1, i / 2), Name(n, i)) in es3 && es3[(Name(n - 1, i / 2), Name(n, i))] == mk(WtAt(d, ws, n, i))
  {
    var p, x0, x1 := Name(k - 1, j / 2), Name(k, j), Name(k, j + 1);
    var es3 := es[(p, x1) := e1][(x1, p) := e1][(p, x0) := e0][(x0, p) := e0];
    if n == k && i == j {
      assert es3[(p, x0)] == e0;
    } else if n == k && i == j + 1 {
      PairNames(k, j);
      assert (j + 1) / 2 == j / 2;
      EdgeAtRight(es, es3, p, x0, x1, e0, e1);
    } else {
      Other(n, i, k, j);
      EdgeAtOther(es, es3, p, x0, x1, e0, e1, Name(n - 1, i / 2), Name(n, i));
    }
  }

  lemma EdgeAtRight<E>(es: map<EdgeKey, E>, es3: map<EdgeKey, E>, p: string, x0: string, x1: string, e0: E, e1: E)
    requires p != x0 && p != x1 && x0 != x1
    requires es3 == es[(p, x1) := e1][(x1, p) := e1][(p, x0) := e0][(x0, p) := e0]
    ensures (p, x1) in es3 && es3[(p, x1)] == e1
  {
  }

  lemma EdgeAtOther<E>(es: map<EdgeKey, E>, es3: map<EdgeKey, E>, p: string, x0: string, x1: string, e0: E, e1: E, u: string, v: string)
    requires v != p && v != x0 && v != x1
    requires es3 == es[(p, x1) := e1][(x1, p) := e1][(p, x0) := e0][(x0, p) := e0]
    ensures ((u, v) in es3 <==> (u, v) in es) && ((u, v) in es ==> es3[(u, v)] == es[(u, v)])
  {
  }

  lemma StepEdges<K, E>(g: Graph<K, E>, g3: Graph<K, E>, d: nat, ws: seq<real>, mk: real -> E, e0: E, e1: E, k: nat, j: nat)
    requires 1 <= k <= d && j % 2 == 0 && j + 2 <= Pow2(k) && InvEdges(g, d, ws, mk, k, j)
    requires e0 == mk(WtAt(d, ws, k, j)) && e1 == mk(WtAt(d, ws, k, j + 1))
    requires var p, x0, x1 := Name(k - 1, j / 2), Name(k, j), Name(k, j + 1);
      g3.edges == g.edges[(p, x1) := e1][(x1, p) := e1][(p, x0) := e0][(x0, p) := e0]
    ensures InvEdges(g3, d, ws, mk, k, j + 2)
  {
    forall n: nat, i: nat | Slot(d, n, i) && n > 0 && Merged(n, i, k, j + 2)
      ensures (Name(n - 1, i / 2), Name(n, i)) in g3.edges && g3.edges[(Name(n - 1, i / 2), Name(n, i))] == mk(WtAt(d, ws, n, i))
    {
      EdgeAt(g.edges, d, ws, mk, e0, e1, k, j, n, i);
    }
  }

  /** Appending a new key and deleting the first two keys of a repeat-free list. */
  lemma DropTwo(s: seq<string>, p: string)
    requires Distinct(s) && |s| >= 2 && p !in s
    ensures Remove(Remove(s + [p], s[0]), s[1]) == s[2..] + [p]
  {
    var s1 := s + [p];
    assert Distinct(s1) by {
      forall a, b | 0 <= a < b < |s1| ensures s1[a] != s1[b] {
        if b < |s| { assert s1[a] == s[a] && s1[b] == s[b]; } else { assert s1[a] == s[a]; }
      }
    }
    RemoveHead(s1);
    var s2 := s1[1..];
    assert s2 == s[1..] + [p];
    assert Distinct(s2) by {
      forall a, b | 0 <= a < b < |s2| ensures s2[a] != s2[b] {
        assert s2[a] == s1[a + 1] && s2[b] == s1[b + 1];
      }
    }
    RemoveHead(s2);
    assert s2[0] == s[1];
    assert s2[1..] == s[2..] + [p];
  }

  lemma StepQueue(D: Weights, k: nat, j: nat)
    requires k >= 1 && j % 2 == 0 && j + 2 <= Pow2(k) && D.Valid() && D.keys == Queue(k, j)
    requires IsSibling(Name(k, j + 1), Name(k, j)) && Prefix(Name(k, j)) == Name(k - 1, j / 2)
    requires Name(k - 1, j / 2) !in D.vals
    ensures Name(k, j) in D.vals && Name(k, j + 1) in D.vals
    ensures var D' := D.Put(Name(k - 1, j / 2), Max(D.vals[Name(k, j)], D.vals[Name(k, j + 1)])).Del(Name(k, j)).Del(Name(k, j + 1));
      D'.Valid() && D'.keys == Queue(k, j + 2)
  {
    var p, x0, x1 := Name(k - 1, j / 2), Name(k, j), Name(k, j + 1);
    QueueStep(k, j);
    assert x0 in D.vals && x1 in D.vals;
    MergeDict(D, x0, x1);
    assert p !in D.keys;
    DropTwo(D.keys, p);
  }

  lemma StepWts(w: map<string, real>, d: nat, ws: seq<real>, k: nat, j: nat)
    requires 1 <= k <= d && j % 2 == 0 && j + 2 <= Pow2(k) && InvWts(w, d, ws, k, j)
    ensures Name(k, j) in w && Name(k, j + 1) in w
    ensures w[Name(k, j)] == WtAt(d, ws, k, j) && w[Name(k, j + 1)] == WtAt(d, ws, k, j + 1)
    ensures var M := Max(w[Name(k, j)], w[Name(k, j + 1)]);
      InvWts(w[Name(k - 1, j / 2) := M] - {Name(k, j)} - {Name(k, j + 1)}, d, ws, k, j + 2)
  {
    var p, x0, x1 := Name(k - 1, j / 2), Name(k, j), Name(k, j + 1);
    var M := Max(w[x0], w[x1]);
    var w' := w[p := M] - {x0} - {x1};
    assert M == WtAt(d, ws, k - 1, j / 2) by {
      assert 2 * (j / 2) == j && 2 * (j / 2) + 1 == j + 1;
    }
    PairDistinct(k, j);
    assert p != x0 && p != x1 by {
      assert |p| == k && |x0| == k + 1 && |x1| == k + 1;
    }
    forall i | j + 2 <= i < Pow2(k) ensures Name(k, i) in w' && w'[Name(k, i)] == WtAt(d, ws, k, i) {
      Other(k, i, k, j);
    }
    forall n: nat, i | n + 1 == k && 0 <= i < (j + 2) / 2 ensures Name(n, i) in w' && w'[Name(n, i)] == WtAt(d, ws, n, i) {
      if i != j / 2 {
        assert i < Pow2(n) by {
          assert Pow2(k) == 2 * Pow2(n);
        }
        Other(n, i, k, j);
      }
    }
  }

  /** One merge takes state (k, j) to state (k, j + 2). */
  lemma Step<K, E>(g: Graph<K, E>, D: Weights, d: nat, ws: seq<real>, kinds: Kinds<K>, mk: real -> E, k: nat, j: nat)
    requires Inv(g, D, d, ws, kinds, mk, k, j) && k >= 1 && j < Pow2(k)
    ensures Ready(g, D, k, j) && |D.keys| >= 2 && D.keys[0] == Name(k, j) && D.keys[1] == Name(k, j + 1)
    ensures "O" !in D.vals && FindSibling(D.keys, D.keys[0], 0) == Some(1)
    ensures Inv(Merge(g, D, D.keys[0], D.keys[1], kinds, mk).0, Merge(g, D, D.keys[0], D.keys[1], kinds, mk).1, d, ws, kinds, mk, k, j + 2)
  {
    StepSearch(g, D, d, ws, kinds, mk, k, j);
    StepGraph(g, D, kinds, mk, k, j);
    var g3 := Merge(g, D, Name(k, j), Name(k, j + 1), kinds, mk).0;
    var D3 := Merge(g, D, Name(k, j), Name(k, j + 1), kinds, mk).1;
    StepWts(D.vals, d, ws, k, j);
    StepGraphInv(g, g3, d, ws, kinds, mk, k, j);
    StepDictInv(D, D3, d, ws, k, j);
    MergeFacts(g, D, Name(k, j), Name(k, j + 1), kinds, mk);
  }

  /** The graph half of the invariant carries over a merge of the pair (k, j). */
  lemma StepGraphInv<K, E>(g: Graph<K, E>, g3: Graph<K, E>, d: nat, ws: seq<real>, kinds: Kinds<K>, mk: real -> E, k: nat, j: nat)
    requires 1 <= k <= d && j % 2 == 0 && j + 2 <= Pow2(k)
    requires InvNodes(g, d, k, j) && InvAdj(g, d, k, j) && InvAttrs(g, d, kinds, k, j) && InvEdges(g, d, ws, mk, k, j)
    requires Name(k, j) in g.adj && Name(k, j + 1) in g.adj
    requires var p, x0, x1 := Name(k - 1, j / 2), Name(k, j), Name(k, j + 1);
      var e0, e1 := mk(WtAt(d, ws, k, j)), mk(WtAt(d, ws, k, j + 1));
      && g3.nodes == g.nodes + [p]
      && g3.kind == g.kind[p := JuncKind(kinds, p)] && g3.ants == g.ants[p := 0]
      && g3.adj == g.adj[p := [x1, x0]][x1 := g.adj[x1] + [p]][x0 := g.adj[x0] + [p]]
      && g3.edges == g.edges[(p, x1) := e1][(x1, p) := e1][(p, x0) := e0][(x0, p) := e0]
    ensures InvNodes(g3, d, k, j + 2) && InvAdj(g3, d, k, j + 2) && InvAttrs(g3, d, kinds, k, j + 2) && InvEdges(g3, d, ws, mk, k, j + 2)
  {
    assert g3.adj.Keys == g.adj.Keys + {Name(k - 1, j / 2)};
    StepNodes(g, g3, d, k, j);
    StepAdj(g, g3, d, k, j);
    StepAttrs(g, g3, d, kinds, k, j);
    StepEdges(g, g3, d, ws, mk, mk(WtAt(d, ws, k, j)), mk(WtAt(d, ws, k, j + 1)), k, j);
  }

  /** The dictionary half of the invariant carries over a merge of the pair (k, j). */
  lemma StepDictInv(D: Weights, D3: Weights, d: nat, ws: seq<real>, k: nat, j: nat)
    requires 1 <= k <= d && j % 2 == 0 && j + 2 <= Pow2(k) && InvDict(D, d, ws, k, j)
    requires IsSibling(Name(k, j + 1), Name(k, j)) && Prefix(Name(k, j)) == Name(k - 1, j / 2)
    requires Name(k - 1, j / 2) !in D.vals && Name(k, j) in D.vals && Name(k, j + 1) in D.vals
    requires D3 == D.Put(Name(k - 1, j / 2), Max(D.vals[Name(k, j)], D.vals[Name(k, j + 1)])).Del(Name(k, j)).Del(Name(k, j + 1))
    ensures InvDict(D3, d, ws, k, j + 2)
  {
    StepQueue(D, k, j);
    StepWts(D.vals, d, ws, k, j);
    assert D3.vals == D.vals[Name(k - 1, j / 2) := Max(D.vals[Name(k, j)], D.vals[Name(k, j + 1)])] - {Name(k, j)} - {Name(k, j + 1)};
  }


  // ---------------------------------------------------------------------------
  // From one level to the next: state (k, 2^k) is state (k - 1, 0)

  lemma Shift(n: nat, i: nat, k: nat)
    requires k >= 1 && i < Pow2(n)
    ensures Present(n, i, k, Pow2(k)) == Present(n, i, k - 1, 0)
    ensures Merged(n, i, k, Pow2(k)) == Merged(n, i, k - 1, 0)
    ensures Up(n, i, k, Pow2(k)) == Up(n, i, k - 1, 0)
  {
    if n + 1 == k {
      assert Pow2(k) == 2 * Pow2(n);
    }
  }

  lemma NextLevel<K, E>(g: Graph<K, E>, D: Weights, d: nat, ws: seq<real>, kinds: Kinds<K>, mk: real -> E, k: nat)
    requires k >= 1 && Inv(g, D, d, ws, kinds, mk, k, Pow2(k))
    ensures Inv(g, D, d, ws, kinds, mk, k - 1, 0)
  {
    var J := Pow2(k);
    assert J / 2 == Pow2(k - 1);
    forall x | x in g.adj ensures IsTreeName(x, d) && Present(Level(x), Index(x), k - 1, 0) {
      TreeNameIsName(x, d);
      Shift(Level(x), Index(x), k);
    }
    forall n: nat, i: nat | Slot(d, n, i) && Present(n, i, k - 1, 0)
      ensures Name(n, i) in g.adj && g.adj[Name(n, i)] == Down(d, n, i) + Up(n, i, k - 1, 0)
      ensures Name(n, i) in g.kind && g.kind[Name(n, i)] == KindAt(d, kinds, n, i)
      ensures Name(n, i) in g.ants && g.ants[Name(n, i)] == 0
    {
      Shift(n, i, k);
    }
    forall n: nat, i: nat | Slot(d, n, i) && n > 0 && Merged(n, i, k - 1, 0)
      ensures (Name(n - 1, i / 2), Name(n, i)) in g.edges && g.edges[(Name(n - 1, i / 2), Name(n, i))] == mk(WtAt(d, ws, n, i))
    {
      Shift(n, i, k);
    }
    assert Queue(k, J) == Queue(k - 1, 0);
  }

  // ---------------------------------------------------------------------------
  // The whole run, as a chain of merges

  type State<K, E> = (Graph<K, E>, Weights)

  /** One pass of the `while` loop takes state s to state s': the loop goes on, and the
      first key's first sibling is the second key (as in every full-tree state). */
  ghost predicate Moves<K, E>(s: State<K, E>, s': State<K, E>, kinds: Kinds<K>, mk: real -> E)
  {
    var (g, D) := s;
    && D.Valid() && Tracked(g, D) && "O" !in D.vals && |D.keys| >= 2
    && FindSibling(D.keys, D.keys[0], 0) == Some(1)
    && s' == Merge(g, D, D.keys[0], D.keys[1], kinds, mk)
  }

  /** Each state of `tr` moves to the next. */
  ghost predicate Chain<K, E>(tr: seq<State<K, E>>, kinds: Kinds<K>, mk: real -> E)
  {
    |tr| >= 1 && forall t :: 0 <= t < |tr| - 1 ==> Moves(tr[t], tr[t + 1], kinds, mk)
  }

  lemma ChainCons<K, E>(s: State<K, E>, s2: State<K, E>, rest: seq<State<K, E>>, kinds: Kinds<K>, mk: real -> E)
    requires Chain([s2] + rest, kinds, mk) && Moves(s, s2, kinds, mk)
    ensures Chain([s] + ([s2] + rest), kinds, mk)
    ensures Last([s] + ([s2] + rest)) == Last([s2] + rest)
  {
    var tr, tr' := [s2] + rest, [s] + ([s2] + rest);
    forall t | 0 <= t < |tr'| - 1 ensures Moves(tr'[t], tr'[t + 1], kinds, mk) {
      if t > 0 {
        assert tr'[t] == tr[t - 1] && tr'[t + 1] == tr[t];
      }
    }
  }

  function Last<T>(s: seq<T>): T
    requires |s| >= 1
  {
    s[|s| - 1]
  }

  /** The merge loop follows a chain of merges to its end: from the first state of a chain
      whose last dictionary holds 'O', `Run` returns the last state. */
  lemma {:induction false} RunChain<K, E>(tr: seq<State<K, E>>, kinds: Kinds<K>, mk: real -> E)
    requires Chain(tr, kinds, mk)
    requires tr[0].1.Valid() && Tracked(tr[0].0, tr[0].1)
    requires var (g, D) := tr[|tr| - 1]; D.Valid() && Tracked(g, D) && "O" in D.vals
    ensures Run(tr[0].0, tr[0].1, kinds, mk) == (Ok(tr[|tr| - 1].0), tr[|tr| - 1].1)
    decreases |tr|
  {
    if |tr| > 1 {
      var (g, D) := tr[0];
      assert Moves(tr[0], tr[1], kinds, mk);
      RunStep(g, D, kinds, mk, 1);
      var tr' := tr[1..];
      assert Chain(tr', kinds, mk) by {
        forall t | 0 <= t < |tr'| - 1 ensures Moves(tr'[t], tr'[t + 1], kinds, mk) {
          assert tr'[t] == tr[t + 1] && tr'[t + 1] == tr[t + 2];
        }
      }
      RunChain(tr', kinds, mk);
    }
  }

  /** One merge from state (k, j), naming the state it leads to. */
  lemma Advance<K, E>(g: Graph<K, E>, D: Weights, d: nat, ws: seq<real>, kinds: Kinds<K>, mk: real -> E, k: nat, j: nat)
      returns (g': Graph<K, E>, D': Weights)
    requires Inv(g, D, d, ws, kinds, mk, k, j) && k >= 1 && j < Pow2(k)
    ensures Inv(g', D', d, ws, kinds, mk, k, j + 2) && Moves((g, D), (g', D'), kinds, mk)
  {
    Step(g, D, d, ws, kinds, mk, k, j);
    g', D' := Merge(g, D, D.keys[0], D.keys[1], kinds, mk).0, Merge(g, D, D.keys[0], D.keys[1], kinds, mk).1;
  }

  /** In state (0, j) the dictionary is just 'O', so the loop has ended. */
  lemma Root(D: Weights, d: nat, ws: seq<real>, j: nat)
    requires InvDict(D, d, ws, 0, j) && j % 2 == 0 && j <= Pow2(0)
    ensures j == 0 && D.keys == ["O"] && "O" in D.vals
  {
    assert Name(0, 0) == "O" + Bits(0, 0) == "O";
    assert Queue(0, 0) == [Name(0, 0)];
  }

  /** From any state, merges lead on to state (0, 0), where the dictionary is just 'O'. */
  lemma {:induction false} RunFrom<K, E>(g: Graph<K, E>, D: Weights, d: nat, ws: seq<real>, kinds: Kinds<K>, mk: real -> E, k: nat, j: nat)
      returns (rest: seq<State<K, E>>)
    requires Inv(g, D, d, ws, kinds, mk, k, j)
    ensures Chain([(g, D)] + rest, kinds, mk)
    ensures Inv(Last([(g, D)] + rest).0, Last([(g, D)] + rest).1, d, ws, kinds, mk, 0, 0)
    decreases k, Pow2(k) - j, 1
  {
    if k == 0 {
      Root(D, d, ws, j);
      rest := [];
      assert [(g, D)] + rest == [(g, D)];
    } else if j == Pow2(k) {
      NextLevel(g, D, d, ws, kinds, mk, k);
      rest := RunFrom(g, D, d, ws, kinds, mk, k - 1, 0);
    } else {
      rest := RunOn(g, D, d, ws, kinds, mk, k, j);
    }
  }

  /** The same, from a state whose level still has a pair to merge. */
  lemma {:induction false} RunOn<K, E>(g: Graph<K, E>, D: Weights, d: nat, ws: seq<real>, kinds: Kinds<K>, mk: real -> E, k: nat, j: nat)
      returns (rest: seq<State<K, E>>)
    requires Inv(g, D, d, ws, kinds, mk, k, j) && k >= 1 && j < Pow2(k)
    ensures Chain([(g, D)] + rest, kinds, mk)
    ensures Inv(Last([(g, D)] + rest).0, Last([(g, D)] + rest).1, d, ws, kinds, mk, 0, 0)
    decreases k, Pow2(k) - j, 0
  {
    var g', D' := Advance(g, D, d, ws, kinds, mk, k, j);
    var rest' := RunFrom(g', D', d, ws, kinds, mk, k, j + 2);
    ChainCons((g, D), (g', D'), rest', kinds, mk);
    rest := [(g', D')] + rest';
  }


  /** The leaf pass over distinct names: one node per name, in order, with no neighbours. */
  lemma AddLeavesShape<K, E>(keys: seq<string>, kinds: seq<K>)
    requires Distinct(keys) && |keys| <= |kinds|
    ensures AddLeaves<K, E>(keys, kinds).Ok?
    ensures var g := AddLeaves<K, E>(keys, kinds).value;
      g.nodes == keys && g.edges == map[] &&
      (forall x :: x in g.adj ==> x in keys && g.adj[x] == []) &&
      (forall t :: 0 <= t < |keys| ==> keys[t] in g.adj && keys[t] in g.kind && g.kind[keys[t]] == kinds[t] && keys[t] in g.ants && g.ants[keys[t]] == 0)
  {
    AddLeavesOk<K, E>(keys, kinds);
    AddLeavesNodes<K, E>(keys, kinds);
    AddLeavesAttrs<K, E>(keys, kinds);
  }

  lemma {:induction false} AddLeavesNodes<K, E>(keys: seq<string>, kinds: seq<K>)
    requires Distinct(keys) && AddLeaves<K, E>(keys, kinds).Ok?
    ensures var g := AddLeaves<K, E>(keys, kinds).value;
      g.nodes == keys && g.edges == map[] && (forall x :: x in g.adj ==> x in keys && g.adj[x] == [])
  {
    if |keys| > 0 {
      var n := |keys| - 1;
      var p := keys[..n];
      DistinctPrefix(keys, n);
      AddLeavesNodes<K, E>(p, kinds);
      var g := AddLeaves<K, E>(p, kinds).value;
      assert keys[n] !in g.adj by {
        forall t | 0 <= t < n ensures p[t] != keys[n] {
          assert p[t] == keys[t];
        }
      }
      assert keys == p + [keys[n]];
    }
  }

  lemma {:induction false} AddLeavesAttrs<K, E>(keys: seq<string>, kinds: seq<K>)
    requires Distinct(keys) && AddLeaves<K, E>(keys, kinds).Ok?
    ensures var g := AddLeaves<K, E>(keys, kinds).value;
      forall t :: 0 <= t < |keys| ==> keys[t] in g.adj && keys[t] in g.kind && g.kind[keys[t]] == kinds[t] && keys[t] in g.ants && g.ants[keys[t]] == 0
  {
    if |keys| > 0 {
      var n := |keys| - 1;
      var p := keys[..n];
      DistinctPrefix(keys, n);
      AddLeavesAttrs<K, E>(p, kinds);
      var g := AddLeaves<K, E>(p, kinds).value;
      var h := g.AddNode(keys[n], kinds[n], 0);
      forall t | 0 <= t < |keys| ensures keys[t] in h.adj && keys[t] in h.kind && h.kind[keys[t]] == kinds[t] && keys[t] in h.ants && h.ants[keys[t]] == 0 {
        if t < n {
          assert keys[t] == p[t] && keys[t] != keys[n];
        }
      }
    }
  }

  /** The graph of the leaf pass in terms of the level/index invariant of state (d, 0). */
  lemma StartNodes<K, E>(g: Graph<K, E>, keys: seq<string>, d: nat)
    requires keys == LeafNames(d) && g.nodes == keys && forall x :: x in g.adj ==> x in keys
    ensures InvNodes(g, d, d, 0)
  {
    forall x | x in g.adj ensures IsTreeName(x, d) && Present(Level(x), Index(x), d, 0) {
      var t :| 0 <= t < |keys| && keys[t] == x;
      NameFacts(d, t, d);
    }
    assert Pow2(d + 1) == 2 * Pow2(d);
  }

  lemma StartAdj<K, E>(g: Graph<K, E>, keys: seq<string>, d: nat, ws: seq<real>, kinds: Kinds<K>, mk: real -> E)
    requires keys == LeafNames(d) && Pow2(d) <= |kinds.leaves|
    requires forall x :: x in g.adj ==> g.adj[x] == []
    requires forall t :: 0 <= t < |keys| ==>
      keys[t] in g.adj && keys[t] in g.kind && g.kind[keys[t]] == kinds.leaves[t] && keys[t] in g.ants && g.ants[keys[t]] == 0
    ensures InvAdj(g, d, d, 0) && InvAttrs(g, d, kinds, d, 0) && InvEdges(g, d, ws, mk, d, 0)
  {
    forall n: nat, i: nat | Slot(d, n, i) && Present(n, i, d, 0)
      ensures Name(n, i) in g.adj && g.adj[Name(n, i)] == Down(d, n, i) + Up(n, i, d, 0)
      ensures Name(n, i) in g.kind && g.kind[Name(n, i)] == KindAt(d, kinds, n, i)
      ensures Name(n, i) in g.ants && g.ants[Name(n, i)] == 0
    {
      assert keys[i] == Name(n, i);
    }
  }

  lemma StartDict(D: Weights, d: nat, ws: seq<real>)
    requires D.Valid() && |D.keys| == Pow2(d) && Pow2(d) <= |ws|
    requires forall i :: 0 <= i < Pow2(d) ==> D.keys[i] == Name(d, i) && D.vals[Name(d, i)] == ws[i]
    ensures InvDict(D, d, ws, d, 0)
  {
    assert D.keys == Queue(d, 0);
    forall i | 0 <= i < Pow2(d) ensures Name(d, i) in D.vals && D.vals[Name(d, i)] == WtAt(d, ws, d, i) {
      assert D.keys[i] in D.vals;
    }
  }

  /** The graph right after the leaf pass is the graph of state (d, 0). */
  lemma StartGraph<K, E>(d: nat, ws: seq<real>, kinds: Kinds<K>, mk: real -> E)
    requires |kinds.leaves| >= Pow2(d)
    ensures AddLeaves<K, E>(LeafNames(d), kinds.leaves).Ok?
    ensures var g := AddLeaves<K, E>(LeafNames(d), kinds.leaves).value;
      InvNodes(g, d, d, 0) && InvAdj(g, d, d, 0) && InvAttrs(g, d, kinds, d, 0) && InvEdges(g, d, ws, mk, d, 0) &&
      forall x :: x in LeafNames(d) ==> x in g.adj
  {
    var keys := LeafNames(d);
    LeafNamesDistinct(d);
    AddLeavesShape<K, E>(keys, kinds.leaves);
    AddLeavesFacts<K, E>(keys, kinds.leaves);
    var g := AddLeaves<K, E>(keys, kinds.leaves).value;
    StartNodes(g, keys, d);
    StartAdj(g, keys, d, ws, kinds, mk);
  }

  /** The dictionary `balanced_tree` returns on a long enough width list is the dictionary of state (d, 0). */
  lemma StartLeaves(d: nat, ws: seq<real>)
    requires |ws| >= Pow2(d)
    ensures Fill(LeafNames(d), ws).Ok?
    ensures var D := Fill(LeafNames(d), ws).value;
      D.keys == LeafNames(d) && InvDict(D, d, ws, d, 0)
  {
    BalancedTreeFacts(d, ws);
    var D := Fill(LeafNames(d), ws).value;
    assert D.keys == LeafNames(d);
    StartDict(D, d, ws);
  }

  /** The state right after the leaf pass is state (d, 0). */
  lemma Start<K, E>(d: nat, ws: seq<real>, kinds: Kinds<K>, mk: real -> E)
    requires |ws| >= Pow2(d) && |kinds.leaves| >= Pow2(d)
    ensures Fill(LeafNames(d), ws).Ok?
    ensures var D := Fill(LeafNames(d), ws).value;
      D.Valid() && AddLeaves<K, E>(D.keys, kinds.leaves).Ok? &&
      Inv(AddLeaves<K, E>(D.keys, kinds.leaves).value, D, d, ws, kinds, mk, d, 0)
  {
    StartLeaves(d, ws);
    StartGraph(d, ws, kinds, mk);
  }

  /** The shape of the finished tree, in terms of node names. */
  ghost predicate IsFullTree<K, E>(g: Graph<K, E>, d: nat, ws: seq<real>, kinds: Kinds<K>, mk: real -> E)
  {
    && (forall x :: x in g.adj ==> IsTreeName(x, d))
    && (forall x :: IsTreeName(x, d) ==> x in g.adj)
    && |g.nodes| + 1 == Pow2(d + 1)
    && (forall x :: x in g.adj ==> x in g.kind && g.kind[x] == KindAt(d, kinds, Level(x), Index(x)))
    && (forall x :: x in g.adj ==> x in g.ants && g.ants[x] == 0)
    && (forall x :: x in g.adj ==>
          g.adj[x] == (if Level(x) < d then [x + "R", x + "L"] else []) + (if |x| >= 2 then [Prefix(x)] else []))
    && (forall x :: x in g.adj && |x| >= 2 ==>
          (Prefix(x), x) in g.edges && g.edges[(Prefix(x), x)] == mk(WtAt(d, ws, Level(x), Index(x))))
  }

  lemma Finish<K, E>(g: Graph<K, E>, D: Weights, d: nat, ws: seq<real>, kinds: Kinds<K>, mk: real -> E)
    requires Inv(g, D, d, ws, kinds, mk, 0, 0)
    ensures IsFullTree(g, d, ws, kinds, mk)
    ensures D.keys == ["O"] && D.vals["O"] == WtAt(d, ws, 0, 0)
  {
    FinishCover(g, d);
    forall x | x in g.adj
      ensures x in g.kind && g.kind[x] == KindAt(d, kinds, Level(x), Index(x))
      ensures x in g.ants && g.ants[x] == 0
      ensures g.adj[x] == (if Level(x) < d then [x + "R", x + "L"] else []) + (if |x| >= 2 then [Prefix(x)] else [])
      ensures |x| >= 2 ==> (Prefix(x), x) in g.edges && g.edges[(Prefix(x), x)] == mk(WtAt(d, ws, Level(x), Index(x)))
    {
      FinishAttrsAt(g, d, kinds, x);
      FinishAdjAt(g, d, x);
      FinishEdgeAt(g, d, ws, mk, x);
    }
    assert Pow2(1) == 2;
    assert D.keys == [Name(0, 0)];
  }

  /** At state (0, 0) the nodes are exactly the tree names, 2^(d+1) - 1 of them. */
  lemma FinishCover<K, E>(g: Graph<K, E>, d: nat)
    requires InvNodes(g, d, 0, 0) && InvAdj(g, d, 0, 0)
    ensures forall x :: x in g.adj ==> IsTreeName(x, d)
    ensures forall x :: IsTreeName(x, d) ==> x in g.adj
    ensures |g.nodes| + 1 == Pow2(d + 1)
  {
    forall x | IsTreeName(x, d) ensures x in g.adj {
      TreeNameIsName(x, d);
      assert Slot(d, Level(x), Index(x)) && Present(Level(x), Index(x), 0, 0);
    }
    assert Pow2(0) == 1;
  }

  lemma FinishAttrsAt<K, E>(g: Graph<K, E>, d: nat, kinds: Kinds<K>, x: string)
    requires InvNodes(g, d, 0, 0) && InvAttrs(g, d, kinds, 0, 0) && x in g.adj
    ensures x in g.kind && g.kind[x] == KindAt(d, kinds, Level(x), Index(x))
    ensures x in g.ants && g.ants[x] == 0
  {
    TreeNameIsName(x, d);
    assert Slot(d, Level(x), Index(x)) && Present(Level(x), Index(x), 0, 0);
  }

  lemma FinishAdjAt<K, E>(g: Graph<K, E>, d: nat, x: string)
    requires InvNodes(g, d, 0, 0) && InvAdj(g, d, 0, 0) && x in g.adj
    ensures g.adj[x] == (if Level(x) < d then [x + "R", x + "L"] else []) + (if |x| >= 2 then [Prefix(x)] else [])
  {
    AdjOf(g, d, x);
    DownOf(x, d);
    UpOf(x, d);
  }

  lemma AdjOf<K, E>(g: Graph<K, E>, d: nat, x: string)
    requires InvNodes(g, d, 0, 0) && InvAdj(g, d, 0, 0) && x in g.adj
    ensures IsTreeName(x, d) && g.adj[x] == Down(d, Level(x), Index(x)) + Up(Level(x), Index(x), 0, 0)
  {
    TreeNameIsName(x, d);
    assert Slot(d, Level(x), Index(x)) && Present(Level(x), Index(x), 0, 0);
  }

  lemma DownOf(x: string, d: nat)
    requires IsTreeName(x, d)
    ensures Down(d, Level(x), Index(x)) == if Level(x) < d then [x + "R", x + "L"] else []
  {
    TreeNameIsName(x, d);
    NameStep(Level(x), Index(x));
  }

  lemma UpOf(x: string, d: nat)
    requires IsTreeName(x, d)
    ensures Up(Level(x), Index(x), 0, 0) == if |x| >= 2 then [Prefix(x)] else []
  {
    if |x| >= 2 {
      ParentFacts(x, d);
      TreeNameIsName(Prefix(x), d);
    }
  }

  lemma FinishEdgeAt<K, E>(g: Graph<K, E>, d: nat, ws: seq<real>, mk: real -> E, x: string)
    requires InvNodes(g, d, 0, 0) && InvEdges(g, d, ws, mk, 0, 0) && x in g.adj
    ensures |x| >= 2 ==> (Prefix(x), x) in g.edges && g.edges[(Prefix(x), x)] == mk(WtAt(d, ws, Level(x), Index(x)))
  {
    TreeNameIsName(x, d);
    var n, i := Level(x), Index(x);
    if n > 0 {
      assert Slot(d, n, i) && Merged(n, i, 0, 0);
      ParentFacts(x, d);
      TreeNameIsName(Prefix(x), d);
      assert Prefix(x) == Name(n - 1, i / 2);
    }
  }


  /** On the complete leaf set of depth d (every leaf with a width and a kind), the
      merge loop ends with 'O' present and builds the full binary tree of depth d:
      its nodes are exactly the 2^(d+1) - 1 names 'O' + {L,R}^(<= d), each leaf has
      the kind of its position and each junction the junction kind, no node holds ants,
      every junction's neighbours are its R child, its L child and then its parent,
      and the edge to every node carries that node's working width, which for a
      junction is the larger of its children's. The dictionary is left holding only 'O'. */
  lemma BuildsFullTree<K, E>(d: nat, ws: seq<real>, kinds: Kinds<K>, mk: real -> E)
    requires |ws| >= Pow2(d) && |kinds.leaves| >= Pow2(d)
    ensures Fill(LeafNames(d), ws).Ok?
    ensures var (r, D) := Construct(Fill(LeafNames(d), ws).value, kinds, mk);
      r.Ok? && IsFullTree(r.value, d, ws, kinds, mk) &&
      D.keys == ["O"] && "O" in D.vals && D.vals["O"] == WtAt(d, ws, 0, 0)
  {
    Start(d, ws, kinds, mk);
    var D0 := Fill(LeafNames(d), ws).value;
    ConstructRun(D0, kinds, mk);
    Complete(AddLeaves<K, E>(D0.keys, kinds.leaves).value, D0, d, ws, kinds, mk);
  }

  /** From the state after the leaf pass, the merge loop ends with the full tree. */
  lemma Complete<K, E>(g0: Graph<K, E>, D0: Weights, d: nat, ws: seq<real>, kinds: Kinds<K>, mk: real -> E)
    requires Inv(g0, D0, d, ws, kinds, mk, d, 0)
    ensures D0.Valid() && Tracked(g0, D0)
    ensures var (r, D) := Run(g0, D0, kinds, mk);
      r.Ok? && IsFullTree(r.value, d, ws, kinds, mk) &&
      D.keys == ["O"] && "O" in D.vals && D.vals["O"] == WtAt(d, ws, 0, 0)
  {
    var rest := RunFrom(g0, D0, d, ws, kinds, mk, d, 0);
    var tr := [(g0, D0)] + rest;
    Finish(Last(tr).0, Last(tr).1, d, ws, kinds, mk);
    RunChain(tr, kinds, mk);
  }

  /** `construct_tree` is the leaf pass followed by the merge loop. */
  lemma ConstructRun<K, E>(leaves: Weights, kinds: Kinds<K>, mk: real -> E)
    requires leaves.Valid() && AddLeaves<K, E>(leaves.keys, kinds.leaves).Ok?
    ensures AddLeaves<K, E>(leaves.keys, kinds.leaves).value.Wf()
    ensures Tracked(AddLeaves<K, E>(leaves.keys, kinds.leaves).value, leaves)
    ensures Construct(leaves, kinds, mk) == Run(AddLeaves<K, E>(leaves.keys, kinds.leaves).value, leaves, kinds, mk)
  {
    AddLeavesFacts<K, E>(leaves.keys, kinds.leaves);
  }

}
