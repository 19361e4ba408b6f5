/** The part of an undirected networkx graph that the engine uses. Nodes
    are strings; each node carries a kind attribute (K) and an `ants`
    counter; each edge carries an attribute record (E). Neighbour order is
    the order in which the incident edges were added, as in networkx. */
module Network {

  /** Edge data is keyed by the ordered pair of endpoints and stored under both
      orders, as networkx shares one attribute record between `G[u][v]` and `G[v][u]`. */
  type EdgeKey = (string, string)

  datatype Graph<K, E> = Graph(
    nodes: seq<string>,               // insertion order, no repeats
    kind: map<string, K>,             // the node-type attribute
    ants: map<string, int>,           // the occupancy attribute
    adj: map<string, seq<string>>,    // neighbours in edge-insertion order
    edges: map<EdgeKey, E>)
  {
    /** The consistency networkx keeps between its node table, adjacency and edge data. */
    ghost predicate Wf()
    {
      Unique() && Linked()
    }

    /** The node table has no repeats. */
    ghost predicate Unique()
    {
      forall i, j :: 0 <= i < j < |nodes| ==> nodes[i] != nodes[j]
    }

    /** The node table, the attribute tables, the adjacency and the edge data agree. */
    ghost predicate Linked()
    {
      NodesOk() && AdjOk() && EdgesOk()
    }

    ghost predicate NodesOk()
    {
      (forall n :: n in adj <==> n in nodes) && kind.Keys == adj.Keys && ants.Keys == adj.Keys
    }

    /** Every adjacency is symmetric and has edge data. */
    ghost predicate AdjOk()
    {
      forall u, v :: u in adj && v in adj[u] ==> v in adj && u in adj[v] && (u, v) in edges
    }

    /** Every edge datum belongs to an adjacency and is the same record in both directions. */
    ghost predicate EdgesOk()
    {
      forall u, v :: (u, v) in edges ==> u in adj && v in adj[u] && (v, u) in edges && edges[(v, u)] == edges[(u, v)]
    }

    /** No node is its own neighbour. */
    ghost predicate Loopless()
    {
      forall u :: u in adj ==> u !in adj[u]
    }

    /** `G.add_node(n, <kind attribute>=k, ants=a)`: a new node goes last with no neighbours;
        an existing node only has its attributes replaced. */
    function AddNode(n: string, k: K, a: int): (g: Graph<K, E>)
      ensures g.kind == kind[n := k] && g.ants == ants[n := a] && g.edges == edges
      ensures n in adj ==> g.nodes == nodes && g.adj == adj
      ensures n !in adj ==> g.nodes == nodes + [n] && g.adj == adj[n := []]
    {
      if n in adj then this.(kind := kind[n := k], ants := ants[n := a])
      else Graph(nodes + [n], kind[n := k], ants[n := a], adj[n := []], edges)
    }

    /** `G.add_edge(u, v, **e)` between existing nodes: a new edge is appended to both
        neighbour lists; an existing edge only has its data replaced. */
    function AddEdge(u: string, v: string, e: E): (g: Graph<K, E>)
      requires u in adj && v in adj && u != v
      ensures g.nodes == nodes && g.kind == kind && g.ants == ants
      ensures g.edges == edges[(u, v) := e][(v, u) := e]
      ensures v in adj[u] ==> g.adj == adj
      ensures v !in adj[u] ==> g.adj == adj[u := adj[u] + [v]][v := adj[v] + [u]]
    {
      if v in adj[u] then this.(edges := edges[(u, v) := e][(v, u) := e])
      else this.(adj := adj[u := adj[u] + [v]][v := adj[v] + [u]], edges := edges[(u, v) := e][(v, u) := e])
    }
  }

  function EmptyGraph<K, E>(): (g: Graph<K, E>)
    ensures g.Wf() && g.Loopless()
  {
    Graph([], map[], map[], map[], map[])
  }

  lemma AddNodeWf<K, E>(g: Graph<K, E>, n: string, k: K, a: int)
    requires g.Wf()
    ensures g.AddNode(n, k, a).Wf()
    ensures g.Loopless() ==> g.AddNode(n, k, a).Loopless()
  {
    if n !in g.adj {
      NewNodeNodesOk(g, n, k, a);
      NewNodeAdjOk(g, n, k, a);
    }
    AddNodeEdgesOk(g, n, k, a);
  }

  lemma NewNodeNodesOk<K, E>(g: Graph<K, E>, n: string, k: K, a: int)
    requires g.Wf() && n !in g.adj
    ensures g.AddNode(n, k, a).Unique() && g.AddNode(n, k, a).NodesOk()
  {
    var h := g.AddNode(n, k, a);
    forall i, j | 0 <= i < j < |h.nodes| ensures h.nodes[i] != h.nodes[j] {
      if j == |g.nodes| {
        assert g.nodes[i] in g.adj;
      } else {
        assert h.nodes[i] == g.nodes[i] && h.nodes[j] == g.nodes[j];
      }
    }
  }

  lemma NewNodeAdjOk<K, E>(g: Graph<K, E>, n: string, k: K, a: int)
    requires g.Wf() && n !in g.adj
    ensures g.AddNode(n, k, a).AdjOk()
  {
    var h := g.AddNode(n, k, a);
    forall u, v | u in h.adj && v in h.adj[u] ensures v in h.adj && u in h.adj[v] && (u, v) in h.edges {
      assert u != n;
      assert v in g.adj[u];
    }
  }

  lemma AddNodeEdgesOk<K, E>(g: Graph<K, E>, n: string, k: K, a: int)
    requires g.Wf()
    ensures g.AddNode(n, k, a).EdgesOk()
  {
  }

  lemma AddEdgeWf<K, E>(g: Graph<K, E>, u: string, v: string, e: E)
    requires g.Wf() && u in g.adj && v in g.adj && u != v
    ensures g.AddEdge(u, v, e).Wf()
    ensures g.Loopless() ==> g.AddEdge(u, v, e).Loopless()
  {
    var h := g.AddEdge(u, v, e);
    assert h.NodesOk() by {
      assert h.adj.Keys == g.adj.Keys;
    }
    AddEdgeAdjOk(g, u, v, e);
    AddEdgeEdgesOk(g, u, v, e);
    if g.Loopless() {
      forall x | x in h.adj ensures x !in h.adj[x] {
        AddEdgeAdjAt(g, u, v, e, x);
      }
    }
  }

  /** The neighbour list of one node after `AddEdge`. */
  lemma AddEdgeAdjAt<K, E>(g: Graph<K, E>, u: string, v: string, e: E, x: string)
    requires u in g.adj && v in g.adj && u != v && x in g.adj
    ensures x in g.AddEdge(u, v, e).adj
    ensures forall y :: y in g.AddEdge(u, v, e).adj[x] <==>
      y in g.adj[x] || (v !in g.adj[u] && ((x == u && y == v) || (x == v && y == u)))
  {
  }

  lemma AddEdgeAdjOk<K, E>(g: Graph<K, E>, u: string, v: string, e: E)
    requires g.Wf() && u in g.adj && v in g.adj && u != v
    ensures g.AddEdge(u, v, e).AdjOk()
  {
    var h := g.AddEdge(u, v, e);
    forall x, y | x in h.adj && y in h.adj[x] ensures y in h.adj && x in h.adj[y] && (x, y) in h.edges {
      AddEdgeAdjAt(g, u, v, e, x);
      if y in g.adj[x] {
        assert y in g.adj && x in g.adj[y];
        AddEdgeAdjAt(g, u, v, e, y);
      } else {
        AddEdgeAdjAt(g, u, v, e, y);
      }
    }
  }

  lemma AddEdgeEdgesOk<K, E>(g: Graph<K, E>, u: string, v: string, e: E)
    requires g.Wf() && u in g.adj && v in g.adj && u != v
    ensures g.AddEdge(u, v, e).EdgesOk()
  {
    var h := g.AddEdge(u, v, e);
    assert v in h.adj[u] && u in h.adj[v];
    forall x, y | (x, y) in h.edges
      ensures x in h.adj && y in h.adj[x] && (y, x) in h.edges && h.edges[(y, x)] == h.edges[(x, y)]
    {
      AddEdgeAdjAt(g, u, v, e, x);
      if (x, y) != (u, v) && (x, y) != (v, u) {
        assert (x, y) in g.edges;
      }
    }
  }
}
