/** The individual engine: ants leave 'O', walk the tree by the bias rules alone and stop
    for good on the first nest they reach; the model activates every ant once per step in
    a shuffled order. */
module Individual {
  import opened Results
  import opened Names
  import opened PyDicts
  import opened Network
  import opened TreeBuild
  import opened FullTree
  import opened Routing
  import opened Occupancy

  /** The individual engine's graph: a node's kind is its `nest` flag and a branch's datum
      is its width. */
  type Tree = Graph<bool, real>

  /** Where an ant is, and where it came from. */
  datatype Walker = Walker(pos: string, ppos: Option<string>)

  // ---------------------------------------------------------------------------
  // construct_tree, individual flavour

  /** Every one of `n` leaves is a nest; 'O' and every other junction is not. */
  function NestKinds(n: nat): Kinds<bool>
  {
    Kinds(Repeat(true, n), false, false)
  }

  /** A new edge carries the child's working width. */
  function NewWidth(w: real): real
  {
    w
  }

  /** `construct_tree(leaves)`: the merge loop, with `nest=True` on the leaves and
      `nest=False` on the junctions. With no leaves at all the loop finds no first key. */
  method ConstructNestTree(leaves: Weights) returns (r: Result<Tree>)
    requires leaves.Valid()
    ensures r == Construct(leaves, NestKinds(|leaves.keys|), NewWidth).0
    ensures r == Err(IndexError) <==> |leaves.keys| == 0
    ensures r.Ok? ==> r.value.Wf() && r.value.Loopless()
  {
    ConstructWf(leaves, NestKinds(|leaves.keys|), NewWidth);
    var leafd;
    r, leafd := ConstructTree(leaves, NestKinds(|leaves.keys|), NewWidth);
  }

  /** On a full leaf set the tree is built: exactly the leaves are nests, nobody is on it
      yet, and the branch to every node has that node's working width. */
  lemma NestTree(d: nat, ws: seq<real>, g: Tree)
    requires |ws| >= Pow2(d)
    requires Fill(LeafNames(d), ws).Ok?
    requires Construct(Fill(LeafNames(d), ws).value, NestKinds(Pow2(d)), NewWidth).0 == Ok(g)
    ensures g.Wf() && g.Loopless() && "O" in g.adj
    ensures forall x :: x in g.adj ==> x in g.ants && g.ants[x] == 0
    ensures forall x :: x in g.adj ==> Level(x) <= d && x in g.kind && (g.kind[x] <==> Level(x) == d)
    ensures forall x :: x in g.adj && |x| >= 2 ==>
      (Prefix(x), x) in g.edges && g.edges[(Prefix(x), x)] == WtAt(d, ws, Level(x), Index(x))
  {
    BuildsFullTree(d, ws, NestKinds(Pow2(d)), NewWidth);
    ConstructWf(Fill(LeafNames(d), ws).value, NestKinds(Pow2(d)), NewWidth);
    NestShape(d, ws, g);
  }

  /** The nest flags and widths of a full tree. */
  lemma NestShape(d: nat, ws: seq<real>, g: Tree)
    requires IsFullTree(g, d, ws, NestKinds(Pow2(d)), NewWidth)
    ensures "O" in g.adj
    ensures forall x :: x in g.adj ==> Level(x) <= d && x in g.kind && (g.kind[x] <==> Level(x) == d)
    ensures forall x :: x in g.adj && |x| >= 2 ==>
      (Prefix(x), x) in g.edges && g.edges[(Prefix(x), x)] == WtAt(d, ws, Level(x), Index(x))
  {
    assert IsTreeName("O", d);
    forall x | x in g.adj
      ensures Level(x) <= d && x in g.kind && (g.kind[x] <==> Level(x) == d)
    {
      TreeNameIsName(x, d);
    }
    forall x | x in g.adj && |x| >= 2
      ensures (Prefix(x), x) in g.edges && g.edges[(Prefix(x), x)] == WtAt(d, ws, Level(x), Index(x))
    {
      assert g.edges[(Prefix(x), x)] == NewWidth(WtAt(d, ws, Level(x), Index(x)));
    }
  }

  // ---------------------------------------------------------------------------
  // choice and move

  /** `weight ** width` of the branch to each neighbour, in neighbour order. */
  function Scores(g: Tree, pos: string, ns: seq<string>, width: nat): (s: seq<real>)
    requires forall i :: 0 <= i < |ns| ==> (pos, ns[i]) in g.edges
  {
    seq(|ns|, i requires 0 <= i < |ns| => Pow(g.edges[(pos, ns[i])], width))
  }

  /** `choice(list(G.neighbors(pos)))` for the ant `w` with draw `r`. */
  function Target(g: Tree, w: Walker, b: Bias, r: real): (res: Result<string>)
    requires g.Linked() && w.pos in g.adj
    ensures res.Ok? ==> res.value in g.adj[w.pos] && res.value in g.adj
  {
    var ns := g.adj[w.pos];
    assert forall i :: 0 <= i < |ns| ==> (w.pos, ns[i]) in g.edges by {
      forall i | 0 <= i < |ns| ensures (w.pos, ns[i]) in g.edges {
        assert ns[i] in g.adj[w.pos];
      }
    }
    var ss := Scores(g, w.pos, ns, b.width);
    ChooseNeighbour(b, ns, ss, w.pos, w.ppos, r);
    Choose(b, ns, ss, w.pos, w.ppos, r)
  }

  /** `move`: an ant on a nest stays and the result is its position; any other ant goes to
      the chosen neighbour, one ant is taken from the node left and one added to the node
      entered, and the result is the new node. A failed choice raises before anything
      changes. */
  function Travel(g: Tree, w: Walker, b: Bias, r: real): (Tree, Walker, Result<string>)
    requires g.Linked() && w.pos in g.adj
  {
    if g.kind[w.pos] then (g, w, Ok(w.pos))
    else match Target(g, w, b, r)
      case Err(e) => (g, w, Err(e))
      case Ok(v) => (g.(ants := Shifted(g.ants, w.pos, v)), Walker(v, Some(w.pos)), Ok(v))
  }

  /** A move changes nothing but the counts and the ant: an ant on a nest, or one whose
      choice failed, stays as it was; otherwise it goes to a neighbour, remembers where it
      came from, the result names the new node and the counts are shifted. */
  lemma TravelStays(g: Tree, w: Walker, b: Bias, r: real)
    requires g.Linked() && w.pos in g.adj
    ensures var (g1, w1, res) := Travel(g, w, b, r);
      g1.Linked() && g1 == g.(ants := g1.ants) && w1.pos in g.adj &&
      (g.kind[w.pos] ==> g1 == g && w1 == w && res == Ok(w.pos)) &&
      (res.Err? ==> g1 == g && w1 == w) &&
      (!g.kind[w.pos] && res.Ok? ==>
        res.value == w1.pos && w1.pos in g.adj[w.pos] && w1.ppos == Some(w.pos) &&
        g1.ants == Shifted(g.ants, w.pos, w1.pos))
  {
    if !g.kind[w.pos] && Target(g, w, b, r).Ok? {
      var v := Target(g, w, b, r).value;
      assert g.(ants := Shifted(g.ants, w.pos, v)).Linked();
    }
  }

  /** The count of a nest never falls, and the total population stays what it was. */
  lemma TravelNests(g: Tree, w: Walker, b: Bias, r: real)
    requires g.Linked() && g.Loopless() && w.pos in g.adj
    ensures var g1 := Travel(g, w, b, r).0;
      forall x :: x in g.kind && g.kind[x] ==> g1.ants[x] >= g.ants[x]
  {
    TravelStays(g, w, b, r);
  }

  lemma TravelConserves(g: Tree, w: Walker, b: Bias, r: real)
    requires g.Wf() && g.Loopless() && w.pos in g.adj
    ensures Total(Travel(g, w, b, r).0) == Total(g)
  {
    TravelStays(g, w, b, r);
    var (g1, w1, res) := Travel(g, w, b, r);
    if !g.kind[w.pos] && res.Ok? {
      ShiftSum(g.ants, g.nodes, w.pos, w1.pos);
    }
  }

  /** A move of agent `k` from `u` to a neighbour `v` keeps the tree and the positions
      consistent. */
  lemma MoveConsistent(g: Tree, g1: Tree, base: map<string, int>, ps: seq<string>, ps1: seq<string>, k: nat, u: string, v: string)
    requires Consistent(g, base, ps) && k < |ps| && ps[k] == u && u in g.adj && v in g.adj[u]
    requires ps1 == ps[k := v] && g1 == g.(ants := Shifted(g.ants, u, v))
    ensures Consistent(g1, base, ps1)
  {
    assert g1.Linked();
    ShiftTally(g.ants, base, ps, k, u, v);
  }

  /** What the steps keep of the tree: it stays linked and loopless, only the counts
      change, and no nest loses an ant. */
  ghost predicate Kept(g0: Tree, g1: Tree)
  {
    && g1.Linked() && g1.Loopless() && g1 == g0.(ants := g1.ants)
    && (forall x :: x in g0.kind && g0.kind[x] ==> x in g1.ants && x in g0.ants && g1.ants[x] >= g0.ants[x])
  }

  lemma KeptTrans(g0: Tree, g1: Tree, g2: Tree)
    requires Kept(g0, g1) && Kept(g1, g2)
    ensures Kept(g0, g2)
  {
  }

  /** One move keeps the tree (`Kept`), and the ant stays on it. */
  lemma TravelKeeps(g: Tree, w: Walker, b: Bias, r: real)
    requires g.Linked() && g.Loopless() && w.pos in g.adj
    ensures Kept(g, Travel(g, w, b, r).0) && Travel(g, w, b, r).1.pos in g.adj
  {
    TravelStays(g, w, b, r);
    TravelNests(g, w, b, r);
  }

  /** `step` on values: `move`, with its result dropped and a raise becoming `Fail`. */
  function Tick(g: Tree, w: Walker, b: Bias, r: real): (Tree, Walker, Outcome)
    requires g.Linked() && w.pos in g.adj
  {
    var (g1, w1, res) := Travel(g, w, b, r);
    (g1, w1, if res.Err? then Fail(res.error) else Pass)
  }

  /** Every walker stands on a node of the tree. */
  ghost predicate OnTree(g: Tree, ws: seq<Walker>)
  {
    forall i :: 0 <= i < |ws| ==> ws[i].pos in g.adj
  }

  /** The activation of `TreeModel.step` on values: agent `order[t]` takes its `Tick` with
      `draws[t]`, one after the other, and the first step that raises ends the round. */
  function Ticks(g: Tree, ws: seq<Walker>, b: Bias, order: seq<nat>, draws: seq<real>): (Tree, seq<Walker>, Outcome)
    requires g.Linked() && g.Loopless() && OnTree(g, ws)
    requires |draws| == |order| && forall t :: 0 <= t < |order| ==> order[t] < |ws|
    decreases |order|
  {
    if |order| == 0 then (g, ws, Pass)
    else
      var k := order[0];
      TravelKeeps(g, ws[k], b, draws[0]);
      var (g1, w1, o) := Tick(g, ws[k], b, draws[0]);
      if o.Fail? then (g1, ws[k := w1], o)
      else Ticks(g1, ws[k := w1], b, order[1..], draws[1..])
  }

  /** The round from position `t` on: agent `order[t]` steps, and unless it raised, the
      round goes on from `t + 1`. */
  lemma TicksAt(g: Tree, ws: seq<Walker>, b: Bias, order: seq<nat>, draws: seq<real>, t: nat,
                g1: Tree, w1: Walker, o: Outcome)
    requires g.Linked() && g.Loopless() && OnTree(g, ws)
    requires |draws| == |order| && (forall t :: 0 <= t < |order| ==> order[t] < |ws|) && t < |order|
    requires (g1, w1, o) == Tick(g, ws[order[t]], b, draws[t])
    ensures g1.Linked() && g1.Loopless() && OnTree(g1, ws[order[t] := w1])
    ensures Ticks(g, ws, b, order[t..], draws[t..]) ==
      if o.Fail? then (g1, ws[order[t] := w1], o) else Ticks(g1, ws[order[t] := w1], b, order[t + 1..], draws[t + 1..])
  {
    TravelKeeps(g, ws[order[t]], b, draws[t]);
    assert order[t..][0] == order[t] && order[t..][1..] == order[t + 1..];
    assert draws[t..][0] == draws[t] && draws[t..][1..] == draws[t + 1..];
  }

  /** A round keeps the tree (`Kept`) and every agent on it; an agent that stands on a
      nest, or is not scheduled, is where it was, and so is everyone scheduled after the
      step that raised. */
  lemma {:induction false} TicksKeep(g: Tree, ws: seq<Walker>, b: Bias, order: seq<nat>, draws: seq<real>)
    requires g.Linked() && g.Loopless() && OnTree(g, ws)
    requires |draws| == |order| && forall t :: 0 <= t < |order| ==> order[t] < |ws|
    decreases |order|
    ensures var (g1, ws1, o) := Ticks(g, ws, b, order, draws);
      Kept(g, g1) && OnTree(g1, ws1) && |ws1| == |ws|
      && (forall i :: 0 <= i < |ws| && i !in order ==> ws1[i] == ws[i])
      && (forall i :: 0 <= i < |ws| && g.kind[ws[i].pos] ==> ws1[i] == ws[i])
  {
    if |order| > 0 {
      var k := order[0];
      TravelKeeps(g, ws[k], b, draws[0]);
      TravelStays(g, ws[k], b, draws[0]);
      var (g1, w1, o) := Tick(g, ws[k], b, draws[0]);
      if o.Pass? {
        TicksKeep(g1, ws[k := w1], b, order[1..], draws[1..]);
        var (g2, ws2, o2) := Ticks(g1, ws[k := w1], b, order[1..], draws[1..]);
        KeptTrans(g, g1, g2);
        forall i | 0 <= i < |ws| && i !in order ensures ws2[i] == ws[i] {
          assert i != k && i !in order[1..];
        }
        forall i | 0 <= i < |ws| && g.kind[ws[i].pos] ensures ws2[i] == ws[i] {
          assert ws[k := w1][i] == ws[i];
        }
      }
    }
  }

  /** A round keeps the number of ants on the tree. */
  lemma {:induction false} TicksConserve(g: Tree, ws: seq<Walker>, b: Bias, order: seq<nat>, draws: seq<real>)
    requires g.Wf() && g.Loopless() && OnTree(g, ws)
    requires |draws| == |order| && forall t :: 0 <= t < |order| ==> order[t] < |ws|
    decreases |order|
    ensures Ticks(g, ws, b, order, draws).0.Linked()
    ensures Total(Ticks(g, ws, b, order, draws).0) == Total(g)
  {
    if |order| > 0 {
      var k := order[0];
      TravelKeeps(g, ws[k], b, draws[0]);
      TravelConserves(g, ws[k], b, draws[0]);
      var (g1, w1, o) := Tick(g, ws[k], b, draws[0]);
      if o.Pass? {
        assert g1.Wf();
        TicksConserve(g1, ws[k := w1], b, order[1..], draws[1..]);
      }
    }
  }

  // ---------------------------------------------------------------------------
  // The agents and the model

  class Ant {
    const id: nat
    const model: TreeModel
    var pos: string
    var ppos: Option<string>

    /** A new ant stands at 'O' and has no previous position. */
    constructor (id: nat, model: TreeModel)
      ensures this.id == id && this.model == model
      ensures pos == "O" && ppos == None
    {
      this.id := id;
      this.model := model;
      pos := "O";
      ppos := None;
    }

    ghost function Walk(): Walker
      reads this
    {
      Walker(pos, ppos)
    }

    /** This ant is one of the model's agents, and it stands where the model has it. */
    ghost predicate Enrolled()
      reads this, model
    {
      model.Valid() && id < |model.agents| && model.agents[id] == this && pos == model.places[id]
    }

    /** `choice`: the neighbours are paired with their branch widths, scored, biased,
        normalised and compared with the draw. */
    method Choice(neighbors: seq<string>, r: real) returns (res: Result<string>)
      requires forall i :: 0 <= i < |neighbors| ==> (pos, neighbors[i]) in model.G.edges
      ensures res == Choose(model.bias, neighbors, Scores(model.G, pos, neighbors, model.bias.width), pos, ppos, r)
    {
      if |neighbors| == 1 {
        return Ok(neighbors[0]);
      }
      var data: seq<real> := [];
      for i := 0 to |neighbors|
        invariant |data| == i
        invariant forall j :: 0 <= j < i ==> data[j] == model.G.edges[(pos, neighbors[j])]
      {
        data := data + [model.G.edges[(pos, neighbors[i])]];
      }
      var width := model.bias.width;
      var scores := seq(|data|, i requires 0 <= i < |data| => Pow(data[i], width));
      assert scores == Scores(model.G, pos, neighbors, width);
      res := Decide(model.bias, neighbors, scores, pos, ppos, r);
    }

    /** `move`, as the specification function `Travel` states it; the model stays consistent. */
    method Move(r: real) returns (res: Result<string>)
      requires Enrolled()
      modifies this, model`G, model`places
      ensures Enrolled() && model.places == old(model.places)[id := pos]
      ensures model.G == Travel(old(model.G), old(Walk()), model.bias, r).0
      ensures Walk() == Travel(old(model.G), old(Walk()), model.bias, r).1
      ensures res == Travel(old(model.G), old(Walk()), model.bias, r).2
    {
      if model.G.kind[pos] {
        return Ok(pos);
      }
      var node := Decision(r);
      if node.Err? {
        return node;
      }
      Go(node.value);
      res := node;
    }

    /** The neighbour `move` picks: `choice(list(G.neighbors(pos)))`. */
    method Decision(r: real) returns (c: Result<string>)
      requires model.G.Linked() && pos in model.G.adj
      ensures c == Target(model.G, Walk(), model.bias, r)
    {
      var neighbors := model.G.adj[pos];
      assert forall i :: 0 <= i < |neighbors| ==> (pos, neighbors[i]) in model.G.edges by {
        forall i | 0 <= i < |neighbors| ensures (pos, neighbors[i]) in model.G.edges {
          assert neighbors[i] in model.G.adj[pos];
        }
      }
      c := Choice(neighbors, r);
    }

    /** The moving half of `move`: the counts and the position. */
    method Go(node: string)
      requires Enrolled() && node in model.G.adj[pos]
      modifies this, model`G, model`places
      ensures Enrolled() && model.places == old(model.places)[id := node]
      ensures model.G == old(model.G).(ants := Shifted(old(model.G.ants), old(pos), node))
      ensures pos == node && ppos == Some(old(pos))
    {
      ghost var g0, ps0, u := model.G, model.places, pos;
      var g := model.G.(ants := Shifted(model.G.ants, pos, node));
      ppos := Some(pos);
      pos := node;
      model.G := g;
      model.places := model.places[id := node];
      MoveConsistent(g0, model.G, model.base, ps0, model.places, id, u, node);
    }

    /** `step`: `move`, whose result is dropped. */
    method Step(r: real) returns (out: Outcome)
      requires Enrolled()
      modifies this, model`G, model`places
      ensures Enrolled() && model.places == old(model.places)[id := pos]
      ensures model.G == Travel(old(model.G), old(Walk()), model.bias, r).0
      ensures Walk() == Travel(old(model.G), old(Walk()), model.bias, r).1
      ensures out == if Travel(old(model.G), old(Walk()), model.bias, r).2.Err?
        then Fail(Travel(old(model.G), old(Walk()), model.bias, r).2.error) else Pass
    {
      var res := Move(r);
      out := if res.Err? then Fail(res.error) else Pass;
    }
  }

  class TreeModel {
    var G: Tree
    var agents: seq<Ant>
    /** Where each agent stands, agent by agent. */
    ghost var places: seq<string>
    /** What each node held before the ants were placed, with 'O' taken as empty. */
    ghost var base: map<string, int>
    const bias: Bias

    /** The agents of this model, each at the index of its id, with the tree and the
        places they are recorded at `Consistent`. */
    ghost predicate Valid()
      reads this
    {
      && Consistent(G, base, places) && |places| == |agents|
      && (forall i :: 0 <= i < |agents| ==> agents[i].model == this && agents[i].id == i)
    }

    /** Every agent stands at its recorded place. */
    ghost predicate Placed()
      reads this, agents
    {
      |places| == |agents| && forall i :: 0 <= i < |agents| ==> agents[i].pos == places[i]
    }

    /** `TreeModel(G, pop)`: `pop` ants are placed at 'O', which then holds `pop`. */
    constructor (G: Tree, pop: nat, bias: Bias)
      requires G.Linked() && G.Loopless() && "O" in G.adj
      ensures Valid() && Placed()
      ensures this.G == G.(ants := G.ants["O" := pop]) && base == G.ants["O" := 0]
      ensures |agents| == pop
      ensures forall i :: 0 <= i < pop ==> fresh(agents[i]) && agents[i].id == i
      ensures forall i :: 0 <= i < pop ==> agents[i].pos == "O" && agents[i].ppos == None
    {
      this.G := G;
      this.bias := bias;
      agents := [];
      places := [];
      base := G.ants["O" := 0];
      new;
      agents := Spawn(this, pop);
      places := Repeat("O", pop);
      this.G := G.(ants := G.ants["O" := pop]);
      Placing(G, this.G, base, places);
    }

    /** The loop of `__init__`: ant `i` is created for `i` in `range(pop)`, each placed at 'O'. */
    static method Spawn(model: TreeModel, pop: nat) returns (ants: seq<Ant>)
      ensures |ants| == pop
      ensures forall i :: 0 <= i < pop ==> fresh(ants[i]) && ants[i].model == model && ants[i].id == i
      ensures forall i :: 0 <= i < pop ==> ants[i].pos == "O" && ants[i].ppos == None
    {
      ants := [];
      for i := 0 to pop
        invariant |ants| == i
        invariant forall j :: 0 <= j < i ==> fresh(ants[j]) && ants[j].model == model && ants[j].id == j
        invariant forall j :: 0 <= j < i ==> ants[j].pos == "O" && ants[j].ppos == None
      {
        var ant := new Ant(i, model);
        ants := ants + [ant];
      }
    }

    /** The agents as walkers: `ws` lists them in order. */
    ghost predicate Agrees(ws: seq<Walker>)
      reads this, agents
    {
      |ws| == |agents| && forall i :: 0 <= i < |agents| ==> agents[i].Walk() == ws[i]
    }

    /** Every agent stands on the tree. */
    lemma AgreesOnTree(ws: seq<Walker>)
      requires Valid() && Placed() && Agrees(ws)
      ensures OnTree(G, ws)
    {
    }

    /** `step`: every agent in `order` (the shuffle of the activation) takes its step with
        its draw, stopping at the first that raises. With `ws` the agents as walkers, the
        tree, the agents and the outcome are `Ticks` of the old state; the model stays
        valid, only the counts change, no nest loses an ant, an ant that stands on a nest
        stays there, and the number of ants on the tree is unchanged. */
    method Step(order: seq<nat>, draws: seq<real>, ghost ws: seq<Walker>) returns (out: Outcome)
      requires Valid() && Placed() && Agrees(ws)
      requires |draws| == |order| && forall t :: 0 <= t < |order| ==> order[t] < |agents|
      modifies this`G, this`places, agents
      ensures Valid() && Placed() && agents == old(agents) && OnTree(old(G), ws)
      ensures var (g1, ws1, o) := Ticks(old(G), ws, bias, order, draws); G == g1 && Agrees(ws1) && out == o
      ensures Kept(old(G), G)
      ensures forall i :: 0 <= i < |agents| && old(G).kind[ws[i].pos] ==> agents[i].Walk() == ws[i]
      ensures old(G.Unique()) ==> Total(G) == Total(old(G))
    {
      AgreesOnTree(ws);
      TicksKeep(G, ws, bias, order, draws);
      if G.Unique() {
        TicksConserve(G, ws, bias, order, draws);
      }
      out := Round(order, draws, ws);
    }

    /** The activation loop of `step`: the agents in `order` step one by one, and the first
        that raises ends the round. */
    method Round(order: seq<nat>, draws: seq<real>, ghost ws0: seq<Walker>) returns (out: Outcome)
      requires Valid() && Placed() && Agrees(ws0) && OnTree(G, ws0)
      requires |draws| == |order| && forall t :: 0 <= t < |order| ==> order[t] < |agents|
      modifies this`G, this`places, agents
      ensures Valid() && Placed() && agents == old(agents)
      ensures var (g1, ws1, o) := Ticks(old(G), ws0, bias, order, draws); G == g1 && Agrees(ws1) && out == o
    {
      ghost var g0 := G;
      ghost var ws := ws0;
      out := Pass;
      var t := 0;
      assert order[0..] == order && draws[0..] == draws;
      while t < |order| && out.Pass?
        invariant During(g0, ws0, order, draws, t, ws, out) && agents == old(agents)
      {
        out, ws := Turn(order, draws, t, g0, ws0, ws);
        t := t + 1;
      }
      Finished(g0, ws0, order, draws, t, ws, out);
    }

    /** A round that has run through `order`, or stopped at a raise, is `Ticks` of its start. */
    lemma Finished(g0: Tree, ws0: seq<Walker>, order: seq<nat>, draws: seq<real>, t: nat, ws: seq<Walker>, out: Outcome)
      requires During(g0, ws0, order, draws, t, ws, out) && (t == |order| || out.Fail?)
      ensures var (g1, ws1, o) := Ticks(g0, ws0, bias, order, draws); G == g1 && Agrees(ws1) && out == o
    {
      if out.Pass? {
        assert order[t..] == [] && draws[t..] == [];
      }
    }

    /** Part way through a round that started from `g0` and `ws0`: the first `t` scheduled
        agents have stepped, the agents are `ws`, and unless one raised, the rest of the
        round is what is left of `Ticks`. */
    ghost predicate During(g0: Tree, ws0: seq<Walker>, order: seq<nat>, draws: seq<real>, t: nat, ws: seq<Walker>, out: Outcome)
      reads this, agents
    {
      && t <= |order| && |draws| == |order| && (forall t :: 0 <= t < |order| ==> order[t] < |agents|)
      && Valid() && Placed() && Agrees(ws) && OnTree(G, ws)
      && g0.Linked() && g0.Loopless() && OnTree(g0, ws0) && |ws0| == |ws|
      && Ticks(g0, ws0, bias, order, draws) ==
        if out.Pass? then Ticks(G, ws, bias, order[t..], draws[t..]) else (G, ws, out)
    }

    /** One pass of the loop of `Round`: agent `order[t]` steps. */
    method Turn(order: seq<nat>, draws: seq<real>, t: nat, ghost g0: Tree, ghost ws0: seq<Walker>, ghost ws: seq<Walker>)
      returns (out: Outcome, ghost ws1: seq<Walker>)
      requires t < |order| && During(g0, ws0, order, draws, t, ws, Pass)
      modifies this`G, this`places, agents[order[t]]
      ensures During(g0, ws0, order, draws, t + 1, ws1, out)
    {
      ghost var g1 := G;
      var k := order[t];
      ghost var w;
      out, w := Activate(k, draws[t], ws);
      ws1 := ws[k := w];
      TicksAt(g1, ws, bias, order, draws, t, G, w, out);
    }

    /** One agent's step, within the model: the tree, agent `k` and the outcome are `Tick`
        of the old state, no other agent changes (the walkers `ws` become `ws[k := ...]`),
        the tree is `Kept`, and an ant that stood on a nest has not moved. */
    method Activate(k: nat, r: real, ghost ws: seq<Walker>) returns (out: Outcome, ghost w: Walker)
      requires Valid() && Placed() && k < |agents| && Agrees(ws)
      modifies this`G, this`places, agents[k]
      ensures Valid() && Placed() && Kept(old(G), G)
      ensures old(G.Linked()) && ws[k].pos in old(G.adj)
      ensures w == agents[k].Walk() && (G, w, out) == Tick(old(G), ws[k], bias, r)
      ensures Agrees(ws[k := w])
      ensures old(G.kind[ws[k].pos]) ==> w == ws[k]
    {
      ghost var g1, w1 := G, agents[k].Walk();
      var ant := agents[k];
      out := ant.Step(r);
      w := ant.Walk();
      TravelKeeps(g1, w1, bias, r);
      TravelStays(g1, w1, bias, r);
      forall i | 0 <= i < |agents|
        ensures agents[i].Walk() == ws[k := w][i]
      {
        assert agents[i].id == i;
      }
    }
  }
}
