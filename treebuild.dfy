/** The tree builder shared by both engines (`balanced_tree` and the
    merge loop of `construct_tree`). The two `construct_tree`s differ only
    in the node-kind attribute they write and the record an edge carries,
    so the loop is written once over a node kind `K` and an edge record `E`. */
module TreeBuild {
  import opened Results
  import opened Names
  import opened PyDicts
  import opened Network

  /** The working dictionary: node name to branch width. */
  type Weights = PyDict<string, real>

  /** What the merge loop writes as node kinds: the kind of the `i`-th leaf,
      the kind of the junction 'O' and the kind of every other junction. */
  datatype Kinds<K> = Kinds(leaves: seq<K>, home: K, node: K)

  // ---------------------------------------------------------------------------
  // balanced_tree

  /** `s` read back to front. */
  function Reversed<T>(s: seq<T>): (r: seq<T>)
    ensures |r| == |s|
  {
    seq(|s|, i requires 0 <= i < |s| => s[|s| - 1 - i])
  }

  lemma ReversedTwice<T>(s: seq<T>)
    ensures Reversed(Reversed(s)) == s
  {
  }

  /** `list.reverse()`: reverses the caller's list in place. */
  method Reverse(a: array<real>)
    modifies a
    ensures a[..] == Reversed(old(a[..]))
  {
    var n := a.Length;
    for i := 0 to n / 2
      invariant forall t :: 0 <= t < i ==> a[t] == old(a[n - 1 - t]) && a[n - 1 - t] == old(a[t])
      invariant forall t :: i <= t < n - i ==> a[t] == old(a[t])
    {
      a[i], a[n - 1 - i] := a[n - 1 - i], a[i];
    }
  }

  /** The leaf names in the order `balanced_tree` lists them: 'O' followed by each
      `itertools.product('LR', repeat = depth)` tuple. */
  function LeafNames(depth: nat): (r: seq<string>)
    ensures |r| == Pow2(depth)
    ensures forall i :: 0 <= i < Pow2(depth) ==> r[i] == Name(depth, i)
  {
    ProductIsBinary(depth);
    seq(Pow2(depth), i requires 0 <= i < Pow2(depth) => "O" + Product(depth)[i])
  }

  /** `for leaf in names: leafd[leaf] = w[i]; i += 1`, which raises IndexError once `w` runs out. */
  function Fill(names: seq<string>, w: seq<real>): (r: Result<Weights>)
    ensures r.Ok? ==> r.value.Valid()
  {
    if |names| == 0 then Ok(Empty())
    else match Fill(names[..|names| - 1], w)
      case Err(e) => Err(e)
      case Ok(d) =>
        if |names| - 1 < |w| then
          PutValid(d, names[|names| - 1], w[|names| - 1]);
          Ok(d.Put(names[|names| - 1], w[|names| - 1]))
        else Err(IndexError)
  }

  lemma FillStep(names: seq<string>, w: seq<real>, t: nat)
    requires t < |names|
    ensures Fill(names[..t + 1], w) == match Fill(names[..t], w)
      case Err(e) => Err(e)
      case Ok(d) => if t < |w| then Ok(d.Put(names[t], w[t])) else Err(IndexError)
  {
    assert names[..t + 1][..t] == names[..t];
  }

  /** Once `Fill` has failed on a prefix of the names, it fails on the whole list. */
  lemma {:induction false} FillErr(names: seq<string>, w: seq<real>, t: nat)
    requires t <= |names| && Fill(names[..t], w).Err?
    ensures Fill(names, w) == Fill(names[..t], w)
    decreases |names| - t
  {
    if t < |names| {
      FillStep(names, w, t);
      FillErr(names, w, t + 1);
    } else {
      assert names[..t] == names;
    }
  }

  /** The result of `balanced_tree(depth, weight_map)`, which reverses `weight_map` in place
    * once `itertools.product` has accepted the depth; a negative repeat count raises first. */
  method BalancedTree(depth: int, weightMap: array<real>) returns (r: Result<Weights>)
    modifies weightMap
    ensures depth < 0 ==> r == Err(ValueError) && weightMap[..] == old(weightMap[..])
    ensures depth >= 0 ==> weightMap[..] == Reversed(old(weightMap[..]))
    ensures depth >= 0 ==> r == Fill(LeafNames(depth), weightMap[..])
  {
    if depth < 0 {
      return Err(ValueError);
    }
    Reverse(weightMap);
    var leafNames := JoinNames(depth);
    r := FillLeaves(leafNames, weightMap);
  }

  /** The first loop of `balanced_tree`: 'O' joined to each `itertools.product` tuple. */
  method JoinNames(depth: nat) returns (leafNames: seq<string>)
    ensures leafNames == LeafNames(depth)
  {
    var uniques := Product(depth);
    ProductIsBinary(depth);
    ghost var L := LeafNames(depth);
    leafNames := [];
    for i := 0 to Pow2(depth)
      invariant leafNames == L[..i]
    {
      assert L[i] == "O" + uniques[i];
      assert L[..i + 1] == L[..i] + [L[i]];
      leafNames := leafNames + ["O" + uniques[i]];
    }
    assert L[..Pow2(depth)] == L;
  }

  /** The second loop of `balanced_tree`: `leafd[leaf] = weight_map[i]` for each name in turn. */
  method FillLeaves(leafNames: seq<string>, weightMap: array<real>) returns (r: Result<Weights>)
    ensures r == Fill(leafNames, weightMap[..])
  {
    ghost var w := weightMap[..];
    var leafd := Empty();
    var i := 0;
    for t := 0 to |leafNames|
      invariant i == t
      invariant Fill(leafNames[..t], w) == Ok(leafd)
    {
      FillStep(leafNames, w, t);
      if i >= weightMap.Length {
        FillErr(leafNames, w, t + 1);
        return Err(IndexError);
      }
      leafd := leafd.Put(leafNames[t], weightMap[i]);
      i := i + 1;
    }
    assert leafNames[..|leafNames|] == leafNames;
    return Ok(leafd);
  }

  /** A list too short for the leaves makes `Fill` fail; one long enough gives a
      dictionary whose keys are the names, in order, each mapped to the list entry at its position. */
  lemma FillFacts(names: seq<string>, w: seq<real>)
    requires Distinct(names)
    ensures Fill(names, w).Ok? <==> |names| <= |w|
    ensures Fill(names, w).Ok? ==> Fill(names, w).value.Valid() && Fill(names, w).value.keys == names
    ensures Fill(names, w).Ok? ==> forall i :: 0 <= i < |names| ==> Fill(names, w).value.vals[names[i]] == w[i]
  {
    FillOk(names, w);
    FillKeys(names, w);
    FillVals(names, w);
  }

  lemma {:induction false} FillOk(names: seq<string>, w: seq<real>)
    ensures Fill(names, w).Ok? <==> |names| <= |w|
  {
    if |names| > 0 {
      FillOk(names[..|names| - 1], w);
    }
  }

  lemma {:induction false} FillKeys(names: seq<string>, w: seq<real>)
    requires Distinct(names)
    ensures Fill(names, w).Ok? ==> Fill(names, w).value.keys == names
  {
    if |names| > 0 {
      var n := |names| - 1;
      var p := names[..n];
      DistinctPrefix(names, n);
      FillKeys(p, w);
      if Fill(p, w).Ok? && n < |w| {
        var d := Fill(p, w).value;
        assert names[n] !in p by {
          forall i | 0 <= i < n ensures p[i] != names[n] {
            assert p[i] == names[i];
          }
        }
        assert names[n] !in d.vals;
        assert names == p + [names[n]];
        assert Fill(names, w) == Ok(d.Put(names[n], w[n]));
      }
    }
  }

  lemma {:induction false} FillVals(names: seq<string>, w: seq<real>)
    requires Distinct(names)
    ensures Fill(names, w).Ok? ==> forall i :: 0 <= i < |names| ==>
      names[i] in Fill(names, w).value.vals && Fill(names, w).value.vals[names[i]] == w[i]
  {
    if |names| > 0 {
      var n := |names| - 1;
      var p := names[..n];
      DistinctPrefix(names, n);
      FillVals(p, w);
      if Fill(p, w).Ok? && n < |w| {
        forall i | 0 <= i < |names| ensures names[i] in Fill(names, w).value.vals && Fill(names, w).value.vals[names[i]] == w[i] {
          if i < n {
            assert names[i] == p[i] && names[i] != names[n];
          }
        }
      }
    }
  }

  lemma DistinctPrefix<T>(s: seq<T>, n: nat)
    requires Distinct(s) && n <= |s|
    ensures Distinct(s[..n])
  {
    var p := s[..n];
    forall i, j | 0 <= i < j < |p| ensures p[i] != p[j] {
      assert p[i] == s[i] && p[j] == s[j];
    }
  }

  /** What the `balanced_tree` property promises: given a list of at least 2^depth entries
      it returns exactly the 2^depth leaf names, leaf `i` being 'O' followed by the
      depth-digit binary form of `i` (L = 0, R = 1), mapped to entry `i` of the reversed list;
      a shorter list raises IndexError. */
  lemma BalancedTreeFacts(depth: nat, w: seq<real>)
    ensures Fill(LeafNames(depth), w).Ok? <==> Pow2(depth) <= |w|
    ensures Fill(LeafNames(depth), w).Ok? ==>
      var d := Fill(LeafNames(depth), w).value;
      d.Valid() && |d.keys| == Pow2(depth) &&
      forall i :: 0 <= i < Pow2(depth) ==> d.keys[i] == Name(depth, i) && d.vals[Name(depth, i)] == w[i]
  {
    LeafNamesDistinct(depth);
    FillFacts(LeafNames(depth), w);
  }

  lemma LeafNamesDistinct(depth: nat)
    ensures Distinct(LeafNames(depth))
  {
    var names := LeafNames(depth);
    forall i, j | 0 <= i < j < |names| ensures names[i] != names[j] {
      if names[i] == names[j] {
        NameInjective(depth, i, depth, j);
      }
    }
  }

  // ---------------------------------------------------------------------------
  // construct_tree

  /** The test of the inner loop: `leaf2 != leaf`, of the same length and with the same prefix. */
  predicate IsSibling(k: string, leaf: string)
  {
    k != leaf && |k| == |leaf| && Prefix(k) == Prefix(leaf)
  }

  /** The position at which `for leaf2 in leafd` breaks, searching from position `j`. */
  function FindSibling(keys: seq<string>, leaf: string, j: nat): (r: Option<nat>)
    requires j <= |keys|
    ensures r.Some? ==> j <= r.value < |keys| && IsSibling(keys[r.value], leaf)
    ensures r.Some? ==> forall t :: j <= t < r.value ==> !IsSibling(keys[t], leaf)
    ensures r.None? ==> forall t :: j <= t < |keys| ==> !IsSibling(keys[t], leaf)
    decreases |keys| - j
  {
    if j == |keys| then None
    else if IsSibling(keys[j], leaf) then Some(j)
    else FindSibling(keys, leaf, j + 1)
  }

  /** Every key of the working dictionary is a node of the graph. */
  ghost predicate Tracked<K, E>(g: Graph<K, E>, d: Weights)
  {
    forall k :: k in d.vals ==> k in g.adj
  }

  function JuncKind<K>(kinds: Kinds<K>, junc: string): K
  {
    if junc == "O" then kinds.home else kinds.node
  }

  function Max(a: real, b: real): (m: real)
    ensures m >= a && m >= b && (m == a || m == b)
  {
    if a > b then a else b
  }

  /** One pass of the `while` body once `leaf2` has been found: add the junction, the
      edge to `leaf2`, then the edge to `leaf`, give the junction the larger width,
      and delete both children from the working dictionary. */
  function Merge<K, E>(g: Graph<K, E>, d: Weights, leaf: string, leaf2: string, kinds: Kinds<K>, mk: real -> E): (Graph<K, E>, Weights)
    requires leaf in d.vals && leaf2 in d.vals && leaf in g.adj && leaf2 in g.adj
    requires IsSibling(leaf2, leaf)
  {
    var junc := Prefix(leaf);
    var g1 := g.AddNode(junc, JuncKind(kinds, junc), 0);
    var g2 := g1.AddEdge(junc, leaf2, mk(d.vals[leaf2]));
    var g3 := g2.AddEdge(junc, leaf, mk(d.vals[leaf]));
    (g3, d.Put(junc, Max(d.vals[leaf], d.vals[leaf2])).Del(leaf).Del(leaf2))
  }

  /** A merge replaces two siblings by their junction: the dictionary shrinks by one
      (by two when the junction was already a key), stays well formed and keeps
      naming only nodes of the graph, which stays well formed and free of self-loops. */
  lemma MergeFacts<K, E>(g: Graph<K, E>, d: Weights, leaf: string, leaf2: string, kinds: Kinds<K>, mk: real -> E)
    requires leaf in d.vals && leaf2 in d.vals && leaf in g.adj && leaf2 in g.adj
    requires IsSibling(leaf2, leaf) && d.Valid() && Tracked(g, d)
    ensures var (g', d') := Merge(g, d, leaf, leaf2, kinds, mk);
      d'.Valid() && Tracked(g', d') &&
      |d'.keys| == |d.keys| - (if Prefix(leaf) in d.vals then 2 else 1) &&
      Prefix(leaf) in d'.vals && leaf !in d'.vals && leaf2 !in d'.vals &&
      d'.vals[Prefix(leaf)] == Max(d.vals[leaf], d.vals[leaf2]) &&
      (g.Wf() ==> g'.Wf()) && (g.Wf() && g.Loopless() ==> g'.Loopless())
  {
    var junc := Prefix(leaf);
    MergeDict(d, leaf, leaf2);
    MergeGraph(g, junc, JuncKind(kinds, junc), leaf, leaf2, mk(d.vals[leaf2]), mk(d.vals[leaf]));
  }

  /** The graph side of a merge: one node more, still well formed and free of self-loops. */
  lemma MergeGraph<K, E>(g: Graph<K, E>, junc: string, kj: K, leaf: string, leaf2: string, e2: E, e1: E)
    requires leaf in g.adj && leaf2 in g.adj && junc != leaf && junc != leaf2
    ensures var g3 := g.AddNode(junc, kj, 0).AddEdge(junc, leaf2, e2).AddEdge(junc, leaf, e1);
      g3.adj.Keys == g.adj.Keys + {junc} && (g.Wf() ==> g3.Wf()) && (g.Wf() && g.Loopless() ==> g3.Loopless())
  {
    var g1 := g.AddNode(junc, kj, 0);
    var g2 := g1.AddEdge(junc, leaf2, e2);
    var g3 := g2.AddEdge(junc, leaf, e1);
    MergeKeys(g, g1, g2, g3, junc, kj, leaf, leaf2, e2, e1);
    if g.Wf() {
      MergeWf(g, g1, g2, g3, junc, kj, leaf, leaf2, e2, e1);
    }
  }

  lemma MergeKeys<K, E>(g: Graph<K, E>, g1: Graph<K, E>, g2: Graph<K, E>, g3: Graph<K, E>, junc: string, kj: K, leaf: string, leaf2: string, e2: E, e1: E)
    requires leaf in g.adj && leaf2 in g.adj && junc != leaf && junc != leaf2
    requires g1 == g.AddNode(junc, kj, 0) && g2 == g1.AddEdge(junc, leaf2, e2) && g3 == g2.AddEdge(junc, leaf, e1)
    ensures g3.adj.Keys == g.adj.Keys + {junc}
  {
    assert g1.adj.Keys == g.adj.Keys + {junc};
    assert g2.adj.Keys == g1.adj.Keys;
  }

  lemma MergeWf<K, E>(g: Graph<K, E>, g1: Graph<K, E>, g2: Graph<K, E>, g3: Graph<K, E>, junc: string, kj: K, leaf: string, leaf2: string, e2: E, e1: E)
    requires leaf in g.adj && leaf2 in g.adj && junc != leaf && junc != leaf2 && g.Wf()
    requires g1 == g.AddNode(junc, kj, 0) && g2 == g1.AddEdge(junc, leaf2, e2) && g3 == g2.AddEdge(junc, leaf, e1)
    ensures g3.Wf() && (g.Loopless() ==> g3.Loopless())
  {
    AddNodeWf(g, junc, kj, 0);
    AddEdgeWf(g1, junc, leaf2, e2);
    AddEdgeWf(g2, junc, leaf, e1);
  }

  /** The dictionary side of a merge. */
  lemma MergeDict(d: Weights, leaf: string, leaf2: string)
    requires leaf in d.vals && leaf2 in d.vals && IsSibling(leaf2, leaf) && d.Valid()
    ensures var d' := d.Put(Prefix(leaf), Max(d.vals[leaf], d.vals[leaf2])).Del(leaf).Del(leaf2);
      d'.Valid() && d'.vals.Keys == d.vals.Keys + {Prefix(leaf)} - {leaf, leaf2} &&
      |d'.keys| == |d.keys| - (if Prefix(leaf) in d.vals then 2 else 1) &&
      d'.vals[Prefix(leaf)] == Max(d.vals[leaf], d.vals[leaf2])
  {
    var junc := Prefix(leaf);
    var w := Max(d.vals[leaf], d.vals[leaf2]);
    assert junc != leaf && junc != leaf2;
    var d1 := d.Put(junc, w);
    var d2 := d1.Del(leaf);
    var d3 := d2.Del(leaf2);
    MergeDictSteps(d, d1, d2, d3, junc, w, leaf, leaf2);
  }

  lemma MergeDictSteps(d: Weights, d1: Weights, d2: Weights, d3: Weights, junc: string, w: real, leaf: string, leaf2: string)
    requires leaf in d.vals && leaf2 in d.vals && leaf != leaf2 && junc != leaf && junc != leaf2 && d.Valid()
    requires d1 == d.Put(junc, w) && d2 == d1.Del(leaf) && d3 == d2.Del(leaf2)
    ensures d3.Valid() && d3.vals.Keys == d.vals.Keys + {junc} - {leaf, leaf2}
    ensures |d3.keys| == |d.keys| - (if junc in d.vals then 2 else 1) && junc in d3.vals && d3.vals[junc] == w
  {
    MergeDictValid(d, d1, d2, d3, junc, w, leaf, leaf2);
    assert d3.vals == d.vals[junc := w] - {leaf} - {leaf2};
  }

  lemma MergeDictValid(d: Weights, d1: Weights, d2: Weights, d3: Weights, junc: string, w: real, leaf: string, leaf2: string)
    requires leaf in d.vals && leaf2 in d.vals && leaf != leaf2 && junc != leaf && junc != leaf2 && d.Valid()
    requires d1 == d.Put(junc, w) && d2 == d1.Del(leaf) && d3 == d2.Del(leaf2)
    ensures d3.Valid() && |d3.keys| == |d.keys| - (if junc in d.vals then 2 else 1)
  {
    PutValid(d, junc, w);
    DelValid(d1, leaf);
    DelValid(d2, leaf2);
  }

  /** The `while not 'O' in leafd` loop. Its three ways out: 'O' appears, the dictionary
      is empty (`list(leafd.keys())[0]` raises IndexError), or the first key has no
      sibling, in which case the same pass would repeat forever. */
  function Run<K, E>(g: Graph<K, E>, d: Weights, kinds: Kinds<K>, mk: real -> E): (r: (Result<Graph<K, E>>, Weights))
    requires d.Valid() && Tracked(g, d)
    decreases |d.keys|
  {
    if "O" in d.vals then (Ok(g), d)
    else if |d.keys| == 0 then (Err(IndexError), d)
    else match FindSibling(d.keys, d.keys[0], 0)
      case None => (Err(NeverTerminates), d)
      case Some(j) =>
        MergeFacts(g, d, d.keys[0], d.keys[j], kinds, mk);
        var (g', d') := Merge(g, d, d.keys[0], d.keys[j], kinds, mk);
        Run(g', d', kinds, mk)
  }

  /** `for leaf in leafd: G.add_node(leaf, <kind> = kinds[i], ants = 0)`; IndexError once `kinds` runs out. */
  function AddLeaves<K, E>(keys: seq<string>, kinds: seq<K>): (r: Result<Graph<K, E>>)
  {
    if |keys| == 0 then Ok(EmptyGraph())
    else match AddLeaves(keys[..|keys| - 1], kinds)
      case Err(e) => Err(e)
      case Ok(g) => if |keys| - 1 < |kinds| then Ok(g.AddNode(keys[|keys| - 1], kinds[|keys| - 1], 0)) else Err(IndexError)
  }

  /** A pass of the loop that finds a sibling continues with the merged graph and dictionary. */
  lemma RunStep<K, E>(g: Graph<K, E>, d: Weights, kinds: Kinds<K>, mk: real -> E, j: nat)
    requires d.Valid() && Tracked(g, d) && "O" !in d.vals && |d.keys| > 0
    requires FindSibling(d.keys, d.keys[0], 0) == Some(j)
    ensures var (g', d') := Merge(g, d, d.keys[0], d.keys[j], kinds, mk);
      d'.Valid() && Tracked(g', d') && |d'.keys| < |d.keys| && Run(g, d, kinds, mk) == Run(g', d', kinds, mk)
  {
    MergeFacts(g, d, d.keys[0], d.keys[j], kinds, mk);
  }

  /** The leaf pass gives a well-formed graph holding every key, or IndexError exactly when
      there are fewer kinds than keys. */
  lemma AddLeavesFacts<K, E>(keys: seq<string>, kinds: seq<K>)
    ensures AddLeaves<K, E>(keys, kinds).Ok? <==> |keys| <= |kinds|
    ensures AddLeaves<K, E>(keys, kinds).Err? ==> AddLeaves<K, E>(keys, kinds) == Err(IndexError)
    ensures AddLeaves<K, E>(keys, kinds).Ok? ==>
      var g := AddLeaves<K, E>(keys, kinds).value;
      g.Wf() && g.Loopless() && forall t :: 0 <= t < |keys| ==> keys[t] in g.adj
  {
    AddLeavesOk<K, E>(keys, kinds);
    AddLeavesWf<K, E>(keys, kinds);
    AddLeavesHas<K, E>(keys, kinds);
  }

  lemma {:induction false} AddLeavesOk<K, E>(keys: seq<string>, kinds: seq<K>)
    ensures AddLeaves<K, E>(keys, kinds).Ok? <==> |keys| <= |kinds|
    ensures AddLeaves<K, E>(keys, kinds).Err? ==> AddLeaves<K, E>(keys, kinds) == Err(IndexError)
  {
    if |keys| > 0 {
      AddLeavesOk<K, E>(keys[..|keys| - 1], kinds);
    }
  }

  lemma {:induction false} AddLeavesWf<K, E>(keys: seq<string>, kinds: seq<K>)
    ensures AddLeaves<K, E>(keys, kinds).Ok? ==> AddLeaves<K, E>(keys, kinds).value.Wf() && AddLeaves<K, E>(keys, kinds).value.Loopless()
  {
    if |keys| > 0 {
      var n := |keys| - 1;
      AddLeavesWf<K, E>(keys[..n], kinds);
      if AddLeaves<K, E>(keys[..n], kinds).Ok? && n < |kinds| {
        AddNodeWf(AddLeaves<K, E>(keys[..n], kinds).value, keys[n], kinds[n], 0);
      }
    }
  }

  lemma {:induction false} AddLeavesHas<K, E>(keys: seq<string>, kinds: seq<K>)
    ensures AddLeaves<K, E>(keys, kinds).Ok? ==> forall t :: 0 <= t < |keys| ==> keys[t] in AddLeaves<K, E>(keys, kinds).value.adj
  {
    if |keys| > 0 {
      var n := |keys| - 1;
      AddLeavesHas<K, E>(keys[..n], kinds);
      if AddLeaves<K, E>(keys[..n], kinds).Ok? && n < |kinds| {
        var g := AddLeaves<K, E>(keys[..n], kinds).value;
        forall t | 0 <= t < |keys| ensures keys[t] in g.AddNode(keys[n], kinds[n], 0).adj {
          if t < n {
            assert keys[t] == keys[..n][t];
          }
        }
      }
    }
  }

  /** The whole of `construct_tree(leaves, ...)`: its result and the state it leaves the
      caller's dictionary in. */
  function Construct<K, E>(leaves: Weights, kinds: Kinds<K>, mk: real -> E): (r: (Result<Graph<K, E>>, Weights))
    requires leaves.Valid()
  {
    AddLeavesFacts<K, E>(leaves.keys, kinds.leaves);
    match AddLeaves<K, E>(leaves.keys, kinds.leaves)
      case Err(e) => (Err(e), leaves)
      case Ok(g) =>
        assert Tracked(g, leaves);
        Run(g, leaves, kinds, mk)
  }

  /** The merge loop only ever yields graphs networkx would hold: well formed and without self-loops. */
  lemma {:induction false} RunWf<K, E>(g: Graph<K, E>, d: Weights, kinds: Kinds<K>, mk: real -> E)
    requires d.Valid() && Tracked(g, d) && g.Wf() && g.Loopless()
    ensures Run(g, d, kinds, mk).0.Ok? ==> Run(g, d, kinds, mk).0.value.Wf() && Run(g, d, kinds, mk).0.value.Loopless()
    ensures Run(g, d, kinds, mk).0.Ok? ==> "O" in Run(g, d, kinds, mk).1.vals
    decreases |d.keys|
  {
    if "O" !in d.vals && |d.keys| > 0 {
      match FindSibling(d.keys, d.keys[0], 0)
      case None =>
      case Some(j) =>
        MergeFacts(g, d, d.keys[0], d.keys[j], kinds, mk);
        var (g', d') := Merge(g, d, d.keys[0], d.keys[j], kinds, mk);
        RunWf(g', d', kinds, mk);
    }
  }

  lemma ConstructWf<K, E>(leaves: Weights, kinds: Kinds<K>, mk: real -> E)
    requires leaves.Valid()
    ensures Construct(leaves, kinds, mk).0.Ok? ==> Construct(leaves, kinds, mk).0.value.Wf() && Construct(leaves, kinds, mk).0.value.Loopless()
    ensures Construct(leaves, kinds, mk).0.Ok? ==> "O" in Construct(leaves, kinds, mk).1.vals
    ensures Construct(leaves, kinds, mk).0 == Err(IndexError) <==> |kinds.leaves| < |leaves.keys| || |leaves.keys| == 0
  {
    AddLeavesFacts<K, E>(leaves.keys, kinds.leaves);
    if AddLeaves<K, E>(leaves.keys, kinds.leaves).Ok? {
      var g := AddLeaves<K, E>(leaves.keys, kinds.leaves).value;
      RunWf(g, leaves, kinds, mk);
      RunIndexError(g, leaves, kinds, mk);
    }
  }

  /** The merge loop raises IndexError only on an empty dictionary: every merge leaves the junction behind. */
  lemma {:induction false} RunIndexError<K, E>(g: Graph<K, E>, d: Weights, kinds: Kinds<K>, mk: real -> E)
    requires d.Valid() && Tracked(g, d)
    ensures Run(g, d, kinds, mk).0 == Err(IndexError) <==> |d.keys| == 0
    decreases |d.keys|
  {
    if "O" !in d.vals && |d.keys| > 0 {
      match FindSibling(d.keys, d.keys[0], 0)
      case None =>
      case Some(j) =>
        MergeFacts(g, d, d.keys[0], d.keys[j], kinds, mk);
        var (g', d') := Merge(g, d, d.keys[0], d.keys[j], kinds, mk);
        RunIndexError(g', d', kinds, mk);
        assert Prefix(d.keys[0]) in d'.vals;
    }
  }

  /** `construct_tree` itself: the leaf pass, then the merge loop. Besides the graph it
      returns the caller's dictionary in the state the loop leaves it, since `leafd`
      is that very dictionary. */
  method ConstructTree<K, E>(leaves: Weights, kinds: Kinds<K>, mk: real -> E) returns (r: Result<Graph<K, E>>, leafd: Weights)
    requires leaves.Valid()
    ensures (r, leafd) == Construct(leaves, kinds, mk)
  {
    var G := AddLeafNodes<K, E>(leaves.keys, kinds.leaves);
    AddLeavesFacts<K, E>(leaves.keys, kinds.leaves);
    if G.Err? {
      return Err(G.error), leaves;
    }
    assert Tracked(G.value, leaves);
    r, leafd := MergeLoop(G.value, leaves, kinds, mk);
  }

  /** The first loop of `construct_tree`: every key becomes a node of kind `kinds[i]` with no ants. */
  method AddLeafNodes<K, E>(keys: seq<string>, kinds: seq<K>) returns (r: Result<Graph<K, E>>)
    ensures r == AddLeaves<K, E>(keys, kinds)
  {
    var G := EmptyGraph<K, E>();
    var i := 0;
    for t := 0 to |keys|
      invariant i == t
      invariant AddLeaves<K, E>(keys[..t], kinds) == Ok(G)
    {
      assert keys[..t + 1][..t] == keys[..t];
      if i >= |kinds| {
        AddLeavesFacts<K, E>(keys, kinds);
        AddLeavesFacts<K, E>(keys[..t + 1], kinds);
        return Err(IndexError);
      }
      G := G.AddNode(keys[t], kinds[i], 0);
      i := i + 1;
    }
    assert keys[..|keys|] == keys;
    return Ok(G);
  }

  /** The `while not 'O' in leafd` loop with its inner search for the first key's sibling. */
  method MergeLoop<K, E>(G0: Graph<K, E>, leaves: Weights, kinds: Kinds<K>, mk: real -> E) returns (r: Result<Graph<K, E>>, leafd: Weights)
    requires leaves.Valid() && Tracked(G0, leaves)
    ensures (r, leafd) == Run(G0, leaves, kinds, mk)
  {
    var G := G0;
    leafd := leaves;
    while "O" !in leafd.vals
      invariant leafd.Valid() && Tracked(G, leafd)
      invariant Run(G, leafd, kinds, mk) == Run(G0, leaves, kinds, mk)
      decreases |leafd.keys|
    {
      if |leafd.keys| == 0 {
        return Err(IndexError), leafd;
      }
      var leaf := leafd.keys[0];
      var j := 0;
      while j < |leafd.keys| && !IsSibling(leafd.keys[j], leaf)
        invariant j <= |leafd.keys|
        invariant FindSibling(leafd.keys, leaf, 0) == FindSibling(leafd.keys, leaf, j)
      {
        j := j + 1;
      }
      if j == |leafd.keys| {
        return Err(NeverTerminates), leafd;
      }
      RunStep(G, leafd, kinds, mk, j);
      G, leafd := MergePass(G, leafd, leaf, leafd.keys[j], kinds, mk);
    }
    return Ok(G), leafd;
  }

  /** The body of the inner loop once `leaf2` is found, up to its `break`. */
  method MergePass<K, E>(G0: Graph<K, E>, d: Weights, leaf: string, leaf2: string, kinds: Kinds<K>, mk: real -> E)
    returns (G: Graph<K, E>, leafd: Weights)
    requires leaf in d.vals && leaf2 in d.vals && leaf in G0.adj && leaf2 in G0.adj
    requires IsSibling(leaf2, leaf)
    ensures (G, leafd) == Merge(G0, d, leaf, leaf2, kinds, mk)
  {
    var junc := leaf[..|leaf| - 1];
    G := G0.AddNode(junc, if junc == "O" then kinds.home else kinds.node, 0);
    G := G.AddEdge(junc, leaf2, mk(d.vals[leaf2]));
    G := G.AddEdge(junc, leaf, mk(d.vals[leaf]));
    leafd := d.Put(junc, if d.vals[leaf] > d.vals[leaf2] then d.vals[leaf] else d.vals[leaf2]);
    leafd := leafd.Del(leaf);
    leafd := leafd.Del(leaf2);
  }
}
