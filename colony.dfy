/** The colony engine: ants that leave home, search the tree, wait at a nest,
    return and lay pheromone on the way back; the model activates every ant
    once per step in a shuffled order and then computes a decayed copy of the
    pheromone. */
module Colony {
  import opened Results
  import opened Names
  import opened PyDicts
  import opened Network
  import opened TreeBuild
  import opened FullTree
  import opened Routing
  import opened Occupancy

  /** The ant states of `States`. */
  datatype AntState = WaitingHome | WaitingNest | Searching | Returning

  /** The attributes of a branch: its width and its pheromone. */
  datatype Trail = Trail(weight: real, p: real)

  /** The colony's graph; a node's kind is its `ntype` string. */
  type Tree = Graph<string, Trail>

  type PosReal = r: real | r > 0.0 witness 1.0

  /** The module parameters. `expo(x)` is the value of `exp(-0.2 * (x - 10))` for a
      nest holding `x` ants; it is positive, and the engine takes it as given. */
  datatype Params = Params(bias: Bias, padd: real, pdecay: real, leaveHome: real, expo: int -> PosReal)

  /** The values the engine ships with. */
  function Defaults(expo: int -> PosReal): Params
  {
    Params(DefaultBias, 0.1, -0.01, 0.10, expo)
  }

  /** The random numbers one activation may draw: the one `step` compares with the
      leaving chance and the one `choice` compares with the running sums. */
  datatype Draw = Draw(leave: real, pick: real)

  /** What an ant is, apart from its identity. */
  datatype Walker = Walker(pos: string, ppos: Option<string>, state: AntState)

  // ---------------------------------------------------------------------------
  // construct_tree, colony flavour

  /** Leaf i gets `fooddist[i]`, 'O' is "Home" and every other junction a "Node". */
  function ColonyKinds(fooddist: seq<string>): Kinds<string>
  {
    Kinds(fooddist, "Home", "Node")
  }

  /** A new edge carries the child's working width and no pheromone. */
  function NewTrail(w: real): Trail
  {
    Trail(w, 0.0)
  }

  /** On a full leaf set the colony tree is built: leaf i has type `fooddist[i]`, 'O' is the
      home (unless it is itself the only leaf) and every other junction a plain node,
      nobody is on it yet, and the branch to every node has that node's working width and
      no pheromone. */
  lemma ColonyTree(d: nat, ws: seq<real>, fooddist: seq<string>, g: Tree)
    requires |ws| >= Pow2(d) && |fooddist| >= Pow2(d)
    requires Fill(LeafNames(d), ws).Ok?
    requires Construct(Fill(LeafNames(d), ws).value, ColonyKinds(fooddist), NewTrail).0 == Ok(g)
    ensures g.Wf() && g.Loopless() && "O" in g.adj
    ensures forall x :: x in g.adj ==> x in g.ants && g.ants[x] == 0
    ensures forall x :: x in g.adj ==>
      && Level(x) <= d && x in g.kind
      && (Level(x) == d ==> Index(x) < |fooddist| && g.kind[x] == fooddist[Index(x)])
      && (Level(x) < d ==> g.kind[x] == if x == "O" then "Home" else "Node")
    ensures forall x :: x in g.adj && |x| >= 2 ==>
      (Prefix(x), x) in g.edges && g.edges[(Prefix(x), x)] == Trail(WtAt(d, ws, Level(x), Index(x)), 0.0)
  {
    BuildsFullTree(d, ws, ColonyKinds(fooddist), NewTrail);
    ConstructWf(Fill(LeafNames(d), ws).value, ColonyKinds(fooddist), NewTrail);
    ColonyShape(d, ws, fooddist, g);
  }

  /** The node kinds of a full colony tree. */
  lemma ColonyShape(d: nat, ws: seq<real>, fooddist: seq<string>, g: Tree)
    requires |fooddist| >= Pow2(d) && IsFullTree(g, d, ws, ColonyKinds(fooddist), NewTrail)
    ensures "O" in g.adj
    ensures forall x :: x in g.adj ==>
      && Level(x) <= d && x in g.kind
      && (Level(x) == d ==> Index(x) < |fooddist| && g.kind[x] == fooddist[Index(x)])
      && (Level(x) < d ==> g.kind[x] == if x == "O" then "Home" else "Node")
    ensures forall x :: x in g.adj && |x| >= 2 ==>
      (Prefix(x), x) in g.edges && g.edges[(Prefix(x), x)] == Trail(WtAt(d, ws, Level(x), Index(x)), 0.0)
  {
    assert IsTreeName("O", d);
    forall x | x in g.adj && |x| >= 2
      ensures (Prefix(x), x) in g.edges && g.edges[(Prefix(x), x)] == Trail(WtAt(d, ws, Level(x), Index(x)), 0.0)
    {
      assert g.edges[(Prefix(x), x)] == NewTrail(WtAt(d, ws, Level(x), Index(x)));
    }
    forall x | x in g.adj
      ensures Level(x) <= d && x in g.kind
      ensures Level(x) == d ==> Index(x) < |fooddist| && g.kind[x] == fooddist[Index(x)]
      ensures Level(x) < d ==> g.kind[x] == if x == "O" then "Home" else "Node"
    {
      TreeNameIsName(x, d);
    }
  }

  // ---------------------------------------------------------------------------
  // choice and move

  /** `weight ** width + p` of the branch to each neighbour, in neighbour order. */
  function Scores(g: Tree, pos: string, ns: seq<string>, width: nat): (s: seq<real>)
    requires forall i :: 0 <= i < |ns| ==> (pos, ns[i]) in g.edges
  {
    seq(|ns|, i requires 0 <= i < |ns| => Pow(g.edges[(pos, ns[i])].weight, width) + g.edges[(pos, ns[i])].p)
  }

  /** `choice(list(G.neighbors(pos)))` for the ant `w` with draw `r`. */
  function Target(g: Tree, w: Walker, params: Params, r: real): (res: Result<string>)
    requires g.Linked() && w.pos in g.adj
    ensures res.Ok? ==> res.value in g.adj[w.pos] && res.value in g.adj
  {
    var ns := g.adj[w.pos];
    assert forall i :: 0 <= i < |ns| ==> (w.pos, ns[i]) in g.edges by {
      forall i | 0 <= i < |ns| ensures (w.pos, ns[i]) in g.edges {
        assert ns[i] in g.adj[w.pos];
      }
    }
    var ss := Scores(g, w.pos, ns, params.bias.width);
    ChooseNeighbour(params.bias, ns, ss, w.pos, w.ppos, r);
    Choose(params.bias, ns, ss, w.pos, w.ppos, r)
  }

  /** The states in which `move` moves. */
  predicate Moving(s: AntState)
  {
    s == Searching || s == Returning
  }

  /** `set_edge_attributes(G, {(u, v): {'p': G[u][v]['p'] + padd}})`: one record, shared by both orders. */
  function Deposit(g: Tree, u: string, v: string, padd: real): Tree
    requires (u, v) in g.edges
  {
    var e := g.edges[(u, v)];
    g.(edges := g.edges[(u, v) := e.(p := e.p + padd)][(v, u) := e.(p := e.p + padd)])
  }

  /** `move`: a searching or returning ant goes to the chosen neighbour, one ant is taken
      from the node left and one added to the node entered, and a returning ant lays
      `padd` on the branch it took; an ant in a waiting state does nothing. A failed
      choice raises before anything changes. */
  function Travel(g: Tree, w: Walker, params: Params, r: real): (Tree, Walker, Outcome)
    requires g.Linked() && w.pos in g.adj
  {
    if !Moving(w.state) then (g, w, Pass)
    else match Target(g, w, params, r)
      case Err(e) => (g, w, Fail(e))
      case Ok(v) =>
        var g1 := g.(ants := Shifted(g.ants, w.pos, v));
        (if w.state == Returning then Deposit(g1, w.pos, v, params.padd) else g1, Walker(v, Some(w.pos), w.state), Pass)
  }

  lemma DepositWf(g: Tree, u: string, v: string, padd: real)
    requires g.Linked() && (u, v) in g.edges
    ensures Deposit(g, u, v, padd).Linked()
    ensures Deposit(g, u, v, padd).edges.Keys == g.edges.Keys
  {
    var h := Deposit(g, u, v, padd);
    assert (v, u) in g.edges;
    forall a, b | (a, b) in h.edges
      ensures a in h.adj && b in h.adj[a] && (b, a) in h.edges && h.edges[(b, a)] == h.edges[(a, b)]
    {
      assert (a, b) in g.edges;
    }
  }

  /** A move leaves the tree's shape and its node kinds alone and keeps it well formed;
      the ant stays put unless it moved along a branch, and then it remembers where it
      came from and the counts are shifted from the node left to the node entered. */
  lemma TravelStays(g: Tree, w: Walker, params: Params, r: real)
    requires g.Linked() && w.pos in g.adj
    ensures var (g1, w1, o) := Travel(g, w, params, r);
      g1.Linked() && g1.nodes == g.nodes && g1.adj == g.adj && g1.kind == g.kind &&
      g1.edges.Keys == g.edges.Keys && w1.state == w.state && w1.pos in g.adj &&
      (o.Fail? || !Moving(w.state) ==> g1 == g && w1 == w) &&
      (o.Pass? && Moving(w.state) ==>
        w1.pos in g.adj[w.pos] && w1.ppos == Some(w.pos) && g1.ants == Shifted(g.ants, w.pos, w1.pos))
  {
    if Moving(w.state) && Target(g, w, params, r).Ok? {
      var v := Target(g, w, params, r).value;
      var g1 := g.(ants := Shifted(g.ants, w.pos, v));
      assert g1.Linked();
      if w.state == Returning {
        DepositWf(g1, w.pos, v, params.padd);
      }
    }
  }

  /** Branch widths never change; the pheromone changes only on the branch a returning
      ant took, and there it grows by `padd` (in both orders of the pair). */
  lemma TravelTrail(g: Tree, w: Walker, params: Params, r: real)
    requires g.Linked() && w.pos in g.adj
    ensures var (g1, w1, o) := Travel(g, w, params, r);
      forall k :: k in g.edges ==>
        k in g1.edges && g1.edges[k].weight == g.edges[k].weight &&
        g1.edges[k].p == g.edges[k].p +
          (if o.Pass? && w.state == Returning && (k == (w.pos, w1.pos) || k == (w1.pos, w.pos)) then params.padd else 0.0)
  {
    TravelStays(g, w, params, r);
  }

  /** The total population over the tree's nodes stays what it was. */
  lemma TravelConserves(g: Tree, w: Walker, params: Params, r: real)
    requires g.Wf() && g.Loopless() && w.pos in g.adj
    ensures Total(Travel(g, w, params, r).0) == Total(g)
  {
    TravelStays(g, w, params, r);
    var (g1, w1, o) := Travel(g, w, params, r);
    if o.Pass? && Moving(w.state) {
      ShiftSum(g.ants, g.nodes, w.pos, w1.pos);
    }
  }

  /** A move of agent `k` from `u` to a neighbour `v`, with or without a deposit, keeps the
      tree and the positions consistent. */
  lemma MoveConsistent(g: Tree, g1: Tree, base: map<string, int>, ps: seq<string>, ps1: seq<string>,
                       k: nat, u: string, v: string, deposit: bool, padd: real)
    requires Consistent(g, base, ps) && k < |ps| && ps[k] == u && u in g.adj && v in g.adj[u]
    requires ps1 == ps[k := v]
    requires var h := g.(ants := Shifted(g.ants, u, v)); g1 == if deposit then Deposit(h, u, v, padd) else h
    ensures Consistent(g1, base, ps1)
  {
    var h := g.(ants := Shifted(g.ants, u, v));
    assert h.Linked();
    ShiftTally(g.ants, base, ps, k, u, v);
    if deposit {
      DepositWf(h, u, v, padd);
    }
  }

  // ---------------------------------------------------------------------------
  // step and update

  /** The chance that an ant waiting at a nest leaves: `1 - (1 - p0) / (1 + exp(...))`. */
  function Chance(p0: real, e: PosReal): real
  {
    -((1.0 - p0) / (1.0 + e)) + 1.0
  }

  /** A waiting-nest ant leaves with a chance between `p0` and 1, and strictly between
      them unless `p0` is 1. */
  lemma ChanceRange(p0: real, e: PosReal)
    requires p0 <= 1.0
    ensures p0 <= Chance(p0, e) <= 1.0
    ensures p0 < 1.0 ==> p0 < Chance(p0, e) < 1.0
  {
    var q := (1.0 - p0) / (1.0 + e);
    assert q * (1.0 + e) == 1.0 - p0;
    assert 0.0 <= q;
    assert q <= 1.0 - p0 by {
      assert q * e >= 0.0;
    }
    if p0 < 1.0 {
      assert q * e > 0.0;
    }
  }

  /** The smaller the exponential term (the more ants at the nest), the smaller the chance. */
  lemma ChanceFalls(p0: real, e1: PosReal, e2: PosReal)
    requires p0 <= 1.0 && e1 <= e2
    ensures Chance(p0, e1) <= Chance(p0, e2)
  {
    var q1 := (1.0 - p0) / (1.0 + e1);
    var q2 := (1.0 - p0) / (1.0 + e2);
    assert q1 * (1.0 + e1) == 1.0 - p0 && q2 * (1.0 + e2) == 1.0 - p0;
    assert q1 * (1.0 + e2) >= q1 * (1.0 + e1);
  }

  /** The state `step` sets before calling `move`: a waiting-home ant starts searching if
      the draw is below `leave_home`, a waiting-nest ant starts returning if it is below
      its chance, and searching and returning ants keep their state. */
  function Leave(s: AntState, r: real, leaveHome: real, chance: real): AntState
  {
    match s
    case WaitingHome => if r < leaveHome then Searching else WaitingHome
    case WaitingNest => if r < chance then Returning else WaitingNest
    case _ => s
  }

  /** `update`: the node type decides the state; a plain node leaves it as it is. */
  function Forced(ntype: string, s: AntState): AntState
  {
    if ntype == "Nest" then WaitingNest
    else if ntype == "Food" then Returning
    else if ntype == "Home" then WaitingHome
    else s
  }

  /** An ant whose state matches the type of the node it stands on. */
  predicate Fits(ntype: string, s: AntState)
  {
    (ntype == "Nest" ==> s == WaitingNest) && (ntype == "Food" ==> s == Returning) && (ntype == "Home" ==> s == WaitingHome)
  }

  /** `update` always leaves a fitting state, and changes nothing in one that fits. */
  lemma ForcedFits(ntype: string, s: AntState)
    ensures Fits(ntype, Forced(ntype, s))
    ensures Fits(ntype, s) ==> Forced(ntype, s) == s
  {
  }

  /** A waiting ant goes on to move exactly when its draw is below its threshold; the
      others always do. */
  lemma LeaveRule(s: AntState, r: real, leaveHome: real, chance: real)
    ensures s == WaitingHome ==> (Moving(Leave(s, r, leaveHome, chance)) <==> r < leaveHome)
    ensures s == WaitingNest ==> (Moving(Leave(s, r, leaveHome, chance)) <==> r < chance)
    ensures Moving(s) ==> Leave(s, r, leaveHome, chance) == s
  {
  }

  /** `step` of one ant: the state change, `move`, and `update` unless `move` raised. */
  function Tick(g: Tree, w: Walker, params: Params, d: Draw): (Tree, Walker, Outcome)
    requires g.Linked() && w.pos in g.adj
  {
    var s := Leave(w.state, d.leave, params.leaveHome, Chance(params.leaveHome, params.expo(g.ants[w.pos])));
    TravelStays(g, w.(state := s), params, d.pick);
    var (g1, w1, out) := Travel(g, w.(state := s), params, d.pick);
    if out.Fail? then (g1, w1, out)
    else (g1, w1.(state := Forced(g1.kind[w1.pos], w1.state)), Pass)
  }

  /** After a step that did not raise, the ant's state fits the node it stands on. */
  lemma TickFits(g: Tree, w: Walker, params: Params, d: Draw)
    requires g.Linked() && w.pos in g.adj
    ensures var (g1, w1, o) := Tick(g, w, params, d);
      o.Pass? ==> w1.pos in g1.kind && Fits(g1.kind[w1.pos], w1.state)
  {
    var s := Leave(w.state, d.leave, params.leaveHome, Chance(params.leaveHome, params.expo(g.ants[w.pos])));
    TravelStays(g, w.(state := s), params, d.pick);
    var (g1, w1, o) := Travel(g, w.(state := s), params, d.pick);
    ForcedFits(g1.kind[w1.pos], w1.state);
  }

  /** In a loopless tree an ant changes node exactly when its (new) state is a moving one
      and the choice succeeds; a waiting ant that stays leaves the tree as it was. */
  lemma TickMoves(g: Tree, w: Walker, params: Params, d: Draw)
    requires g.Linked() && g.Loopless() && w.pos in g.adj
    ensures var s := Leave(w.state, d.leave, params.leaveHome, Chance(params.leaveHome, params.expo(g.ants[w.pos])));
      var (g1, w1, o) := Tick(g, w, params, d);
      (w1.pos != w.pos <==> Moving(s) && Target(g, w.(state := s), params, d.pick).Ok?) &&
      (!Moving(s) ==> g1 == g && w1.pos == w.pos && w1.ppos == w.ppos && o.Pass?)
  {
    var s := Leave(w.state, d.leave, params.leaveHome, Chance(params.leaveHome, params.expo(g.ants[w.pos])));
    TravelStays(g, w.(state := s), params, d.pick);
  }

  /** What the steps keep of the tree: a linked loopless tree stays one, with the same
      nodes, branches, node kinds and branch widths; and no branch loses pheromone when
      `padd` is not negative. */
  ghost predicate Kept(g0: Tree, g1: Tree, padd: real)
  {
    && g0.Linked() && g1.Linked() && g1.Loopless()
    && g1.nodes == g0.nodes && g1.adj == g0.adj && g1.kind == g0.kind && g1.edges.Keys == g0.edges.Keys
    && (forall k :: k in g0.edges ==> g1.edges[k].weight == g0.edges[k].weight)
    && (padd >= 0.0 ==> forall k :: k in g0.edges ==> g1.edges[k].p >= g0.edges[k].p)
  }

  lemma KeptTrans(g0: Tree, g1: Tree, g2: Tree, padd: real)
    requires Kept(g0, g1, padd) && Kept(g1, g2, padd)
    ensures Kept(g0, g2, padd)
  {
  }

  /** One step keeps the tree (`Kept`), and the ant stays on it. */
  lemma TickKeeps(g: Tree, w: Walker, params: Params, d: Draw)
    requires g.Linked() && g.Loopless() && w.pos in g.adj
    ensures var (g1, w1, o) := Tick(g, w, params, d);
      Kept(g, g1, params.padd) && w1.pos in g.adj
  {
    var s := Leave(w.state, d.leave, params.leaveHome, Chance(params.leaveHome, params.expo(g.ants[w.pos])));
    TravelStays(g, w.(state := s), params, d.pick);
    TravelTrail(g, w.(state := s), params, d.pick);
  }

  /** One step keeps the number of ants on the tree. */
  lemma TickConserves(g: Tree, w: Walker, params: Params, d: Draw)
    requires g.Wf() && g.Loopless() && w.pos in g.adj
    ensures Total(Tick(g, w, params, d).0) == Total(g)
  {
    var s := Leave(w.state, d.leave, params.leaveHome, Chance(params.leaveHome, params.expo(g.ants[w.pos])));
    TravelStays(g, w.(state := s), params, d.pick);
    TravelConserves(g, w.(state := s), params, d.pick);
  }

  /** Every walker stands on a node of the tree. */
  ghost predicate OnTree(g: Tree, ws: seq<Walker>)
  {
    forall i :: 0 <= i < |ws| ==> ws[i].pos in g.adj
  }

  /** The activation of `TreeModel.step` on values: agent `order[t]` takes its `Tick` with
      `draws[t]`, one after the other, and the first step that raises ends the round. */
  function Ticks(g: Tree, ws: seq<Walker>, params: Params, order: seq<nat>, draws: seq<Draw>): (Tree, seq<Walker>, Outcome)
    requires g.Linked() && g.Loopless() && OnTree(g, ws)
    requires |draws| == |order| && forall t :: 0 <= t < |order| ==> order[t] < |ws|
    decreases |order|
  {
    if |order| == 0 then (g, ws, Pass)
    else
      var k := order[0];
      TickKeeps(g, ws[k], params, draws[0]);
      var (g1, w1, o) := Tick(g, ws[k], params, draws[0]);
      if o.Fail? then (g1, ws[k := w1], o)
      else Ticks(g1, ws[k := w1], params, order[1..], draws[1..])
  }

  /** The round from position `t` on: agent `order[t]` steps, and unless it raised, the
      round goes on from `t + 1`. */
  lemma TicksAt(g: Tree, ws: seq<Walker>, params: Params, order: seq<nat>, draws: seq<Draw>, t: nat,
                g1: Tree, w1: Walker, o: Outcome)
    requires g.Linked() && g.Loopless() && OnTree(g, ws)
    requires |draws| == |order| && (forall t :: 0 <= t < |order| ==> order[t] < |ws|) && t < |order|
    requires (g1, w1, o) == Tick(g, ws[order[t]], params, draws[t])
    ensures g1.Linked() && g1.Loopless() && OnTree(g1, ws[order[t] := w1])
    ensures Ticks(g, ws, params, order[t..], draws[t..]) ==
      if o.Fail? then (g1, ws[order[t] := w1], o) else Ticks(g1, ws[order[t] := w1], params, order[t + 1..], draws[t + 1..])
  {
    TickKeeps(g, ws[order[t]], params, draws[t]);
    assert order[t..][0] == order[t] && order[t..][1..] == order[t + 1..];
    assert draws[t..][0] == draws[t] && draws[t..][1..] == draws[t + 1..];
  }

  /** A round keeps the tree and every agent on it, and leaves the agents that are not
      scheduled, or are scheduled after the step that raised, as they were. */
  lemma {:induction false} TicksKeep(g: Tree, ws: seq<Walker>, params: Params, order: seq<nat>, draws: seq<Draw>)
    requires g.Linked() && g.Loopless() && OnTree(g, ws)
    requires |draws| == |order| && forall t :: 0 <= t < |order| ==> order[t] < |ws|
    decreases |order|
    ensures var (g1, ws1, o) := Ticks(g, ws, params, order, draws);
      Kept(g, g1, params.padd) && OnTree(g1, ws1) && |ws1| == |ws|
      && forall i :: 0 <= i < |ws| && i !in order ==> ws1[i] == ws[i]
  {
    if |order| > 0 {
      var k := order[0];
      TickKeeps(g, ws[k], params, draws[0]);
      var (g1, w1, o) := Tick(g, ws[k], params, draws[0]);
      if o.Pass? {
        TicksKeep(g1, ws[k := w1], params, order[1..], draws[1..]);
        var (g2, ws2, o2) := Ticks(g1, ws[k := w1], params, order[1..], draws[1..]);
        KeptTrans(g, g1, g2, params.padd);
        forall i | 0 <= i < |ws| && i !in order ensures ws2[i] == ws[i] {
          assert i != k && i !in order[1..];
        }
      }
    }
  }

  /** A round keeps the number of ants on the tree. */
  lemma {:induction false} TicksConserve(g: Tree, ws: seq<Walker>, params: Params, order: seq<nat>, draws: seq<Draw>)
    requires g.Wf() && g.Loopless() && OnTree(g, ws)
    requires |draws| == |order| && forall t :: 0 <= t < |order| ==> order[t] < |ws|
    decreases |order|
    ensures Ticks(g, ws, params, order, draws).0.Linked()
    ensures Total(Ticks(g, ws, params, order, draws).0) == Total(g)
  {
    if |order| > 0 {
      var k := order[0];
      TickKeeps(g, ws[k], params, draws[0]);
      TickConserves(g, ws[k], params, draws[0]);
      var (g1, w1, o) := Tick(g, ws[k], params, draws[0]);
      if o.Pass? {
        assert g1.Wf();
        TicksConserve(g1, ws[k := w1], params, order[1..], draws[1..]);
      }
    }
  }

  // ---------------------------------------------------------------------------
  // updatep

  /** `max(0, p + pdecay)` as `updatep` computes it. */
  function Decay(p: real, pdecay: real): (r: real)
  {
    if p + pdecay < 0.0 then 0.0 else p + pdecay
  }

  /** A decayed value is never negative, never above the old one when `pdecay` is not
      positive, and is exactly `p + pdecay` while that stays non-negative. */
  lemma DecayBounds(p: real, pdecay: real)
    ensures Decay(p, pdecay) >= 0.0
    ensures pdecay <= 0.0 && p >= 0.0 ==> Decay(p, pdecay) <= p
    ensures p + pdecay >= 0.0 ==> Decay(p, pdecay) == p + pdecay
    ensures p + pdecay < 0.0 ==> Decay(p, pdecay) == 0.0
  {
  }

  // ---------------------------------------------------------------------------
  // The agents and the model

  class Ant {
    const id: nat
    const model: TreeModel
    var pos: string
    var ppos: Option<string>
    var state: AntState

    /** A new ant stands at 'O', has no previous position and waits at home. */
    constructor (id: nat, model: TreeModel)
      ensures this.id == id && this.model == model
      ensures pos == "O" && ppos == None && state == WaitingHome
    {
      this.id := id;
      this.model := model;
      pos := "O";
      ppos := None;
      state := WaitingHome;
    }

    ghost function Walk(): Walker
      reads this
    {
      Walker(pos, ppos, state)
    }

    /** This ant is one of the model's agents, and it stands where the model has it. */
    ghost predicate Enrolled()
      reads this, model
    {
      model.Valid() && id < |model.agents| && model.agents[id] == this && pos == model.places[id]
    }

    /** `choice`: the neighbours are paired with their branch data, scored, biased,
        normalised and compared with the draw. */
    method Choice(neighbors: seq<string>, r: real) returns (res: Result<string>)
      requires forall i :: 0 <= i < |neighbors| ==> (pos, neighbors[i]) in model.G.edges
      ensures res == Choose(model.params.bias, neighbors, Scores(model.G, pos, neighbors, model.params.bias.width), pos, ppos, r)
    {
      if |neighbors| == 1 {
        return Ok(neighbors[0]);
      }
      var data: seq<Trail> := [];
      for i := 0 to |neighbors|
        invariant |data| == i
        invariant forall j :: 0 <= j < i ==> data[j] == model.G.edges[(pos, neighbors[j])]
      {
        data := data + [model.G.edges[(pos, neighbors[i])]];
      }
      var width := model.params.bias.width;
      var scores := seq(|data|, i requires 0 <= i < |data| => Pow(data[i].weight, width) + data[i].p);
      assert scores == Scores(model.G, pos, neighbors, width);
      res := Decide(model.params.bias, neighbors, scores, pos, ppos, r);
    }

    /** `move`, as the specification function `Travel` states it; the model stays consistent. */
    method Move(r: real) returns (out: Outcome)
      requires Enrolled()
      modifies this, model`G, model`places
      ensures Enrolled() && model.places == old(model.places)[id := pos]
      ensures model.G == Travel(old(model.G), old(Walk()), model.params, r).0
      ensures Walk() == Travel(old(model.G), old(Walk()), model.params, r).1
      ensures out == Travel(old(model.G), old(Walk()), model.params, r).2
    {
      if state == Returning || state == Searching {
        var node := Decision(r);
        if node.Err? {
          return Fail(node.error);
        }
        Go(node.value);
      }
      out := Pass;
    }

    /** The neighbour `move` picks: `choice(list(G.neighbors(pos)))`. */
    method Decision(r: real) returns (c: Result<string>)
      requires model.G.Linked() && pos in model.G.adj
      ensures c == Target(model.G, Walk(), model.params, r)
    {
      var neighbors := model.G.adj[pos];
      assert forall i :: 0 <= i < |neighbors| ==> (pos, neighbors[i]) in model.G.edges by {
        forall i | 0 <= i < |neighbors| ensures (pos, neighbors[i]) in model.G.edges {
          assert neighbors[i] in model.G.adj[pos];
        }
      }
      c := Choice(neighbors, r);
    }

    /** The moving half of `move`: the counts, the position and, for a returning ant, the
        pheromone on the branch taken. */
    method Go(node: string)
      requires Enrolled() && Moving(state) && node in model.G.adj[pos]
      modifies this, model`G, model`places
      ensures Enrolled() && model.places == old(model.places)[id := node]
      ensures var g := old(model.G).(ants := Shifted(old(model.G.ants), old(pos), node));
        model.G == if state == Returning then Deposit(g, old(pos), node, model.params.padd) else g
      ensures pos == node && ppos == Some(old(pos)) && state == old(state)
    {
      ghost var g0, ps0, u := model.G, model.places, pos;
      var g := model.G.(ants := Shifted(model.G.ants, pos, node));
      if state == Returning {
        g := Deposit(g, pos, node, model.params.padd);
      }
      ppos := Some(pos);
      pos := node;
      model.G := g;
      model.places := model.places[id := node];
      MoveConsistent(g0, model.G, model.base, ps0, model.places, id, u, node, state == Returning, model.params.padd);
    }

    /** `update`. */
    method Update()
      requires Enrolled()
      modifies this
      ensures Enrolled()
      ensures pos == old(pos) && ppos == old(ppos) && state == Forced(model.G.kind[pos], old(state))
    {
      var ntype := model.G.kind[pos];
      if ntype == "Nest" {
        state := WaitingNest;
      } else if ntype == "Food" {
        state := Returning;
      } else if ntype == "Home" {
        state := WaitingHome;
      }
    }

    /** `step`, as the specification function `Tick` states it; the model stays consistent. */
    method Step(d: Draw) returns (out: Outcome)
      requires Enrolled()
      modifies this, model`G, model`places
      ensures Enrolled() && model.places == old(model.places)[id := pos]
      ensures model.G == Tick(old(model.G), old(Walk()), model.params, d).0
      ensures Walk() == Tick(old(model.G), old(Walk()), model.params, d).1
      ensures out == Tick(old(model.G), old(Walk()), model.params, d).2
    {
      ghost var g0 := model.G;
      ghost var w0 := Walk();
      if state == WaitingHome {
        if d.leave < model.params.leaveHome {
          state := Searching;
        }
      } else if state == WaitingNest {
        var p0 := model.params.leaveHome;
        var x := model.G.ants[pos];
        var chance := Chance(p0, model.params.expo(x));
        if d.leave < chance {
          state := Returning;
        }
      }
      // Each branch that moves calls `move`; calling it once here is the same, since
      // `move` does nothing in a waiting state.
      assert Walk() == w0.(state := Leave(w0.state, d.leave, model.params.leaveHome,
        Chance(model.params.leaveHome, model.params.expo(g0.ants[w0.pos]))));
      out := Move(d.pick);
      if out.Fail? {
        return;
      }
      Update();
    }
  }

  class TreeModel {
    var G: Tree
    var agents: seq<Ant>
    /** Where each agent stands, agent by agent. */
    ghost var places: seq<string>
    /** What each node held before the ants were placed, with 'O' taken as empty. */
    ghost var base: map<string, int>
    const params: Params

    /** The agents of this model, each at the index of its id, with the tree and the
        places they are recorded at `Consistent`. */
    ghost predicate Valid()
      reads this
    {
      && Consistent(G, base, places) && |places| == |agents|
      && (forall i :: 0 <= i < |agents| ==> agents[i].model == this && agents[i].id == i)
    }

    /** Every agent stands at its recorded place. */
    ghost predicate Placed()
      reads this, agents
    {
      |places| == |agents| && forall i :: 0 <= i < |agents| ==> agents[i].pos == places[i]
    }

    /** `TreeModel(G, pop)`: `pop` ants are placed at 'O', which then holds `pop`. */
    constructor (G: Tree, pop: nat, params: Params)
      requires G.Linked() && G.Loopless() && "O" in G.adj
      ensures Valid() && Placed()
      ensures this.G == G.(ants := G.ants["O" := pop]) && base == G.ants["O" := 0]
      ensures |agents| == pop
      ensures forall i :: 0 <= i < pop ==> fresh(agents[i]) && agents[i].id == i
      ensures forall i :: 0 <= i < pop ==> agents[i].pos == "O" && agents[i].ppos == None && agents[i].state == WaitingHome
    {
      this.G := G;
      this.params := params;
      agents := [];
      places := [];
      base := G.ants["O" := 0];
      new;
      agents := Spawn(this, pop);
      places := Repeat("O", pop);
      this.G := G.(ants := G.ants["O" := pop]);
      Placing(G, this.G, base, places);
    }

    /** The loop of `__init__`: ant `i` is created for `i` in `range(pop)`, each placed at 'O'. */
    static method Spawn(model: TreeModel, pop: nat) returns (ants: seq<Ant>)
      ensures |ants| == pop
      ensures forall i :: 0 <= i < pop ==> fresh(ants[i]) && ants[i].model == model && ants[i].id == i
      ensures forall i :: 0 <= i < pop ==> ants[i].pos == "O" && ants[i].ppos == None && ants[i].state == WaitingHome
    {
      ants := [];
      for i := 0 to pop
        invariant |ants| == i
        invariant forall j :: 0 <= j < i ==> fresh(ants[j]) && ants[j].model == model && ants[j].id == j
        invariant forall j :: 0 <= j < i ==> ants[j].pos == "O" && ants[j].ppos == None && ants[j].state == WaitingHome
      {
        var ant := new Ant(i, model);
        ants := ants + [ant];
      }
    }

    /** `ws` lists the agents as walkers. */
    ghost predicate Agrees(ws: seq<Walker>)
      reads this, agents
    {
      |ws| == |agents| && forall i :: 0 <= i < |agents| ==> agents[i].Walk() == ws[i]
    }

    /** `step`: every agent in `order` (the shuffle of the activation) takes its step with
        its draws, stopping at the first that raises; then `updatep`, whose result is
        dropped. With `ws` the agents as walkers, the tree, the agents and the outcome are
        `Ticks` of the old state; the model stays valid, the tree is `Kept` and the number
        of ants on it is unchanged. */
    method Step(order: seq<nat>, draws: seq<Draw>, ghost ws: seq<Walker>) returns (out: Outcome)
      requires Valid() && Placed() && Agrees(ws)
      requires |draws| == |order| && forall t :: 0 <= t < |order| ==> order[t] < |agents|
      modifies this`G, this`places, agents
      ensures Valid() && Placed() && agents == old(agents) && OnTree(old(G), ws)
      ensures var (g1, ws1, o) := Ticks(old(G), ws, params, order, draws); G == g1 && Agrees(ws1) && out == o
      ensures Kept(old(G), G, params.padd)
      ensures old(G.Unique()) ==> Total(G) == Total(old(G))
    {
      AgreesOnTree(ws);
      TicksKeep(G, ws, params, order, draws);
      if G.Unique() {
        TicksConserve(G, ws, params, order, draws);
      }
      out := Round(order, draws, ws);
      if out.Pass? {
        var _ := UpdateP();
      }
    }

    /** The activation loop of `step`: the agents in `order` step one by one, and the first
        that raises ends the round. */
    method Round(order: seq<nat>, draws: seq<Draw>, ghost ws0: seq<Walker>) returns (out: Outcome)
      requires Valid() && Placed() && Agrees(ws0) && OnTree(G, ws0)
      requires |draws| == |order| && forall t :: 0 <= t < |order| ==> order[t] < |agents|
      modifies this`G, this`places, agents
      ensures Valid() && Placed() && agents == old(agents)
      ensures var (g1, ws1, o) := Ticks(old(G), ws0, params, order, draws); G == g1 && Agrees(ws1) && out == o
    {
      ghost var g0 := G;
      ghost var ws := ws0;
      out := Pass;
      var t := 0;
      assert order[0..] == order && draws[0..] == draws;
      while t < |order| && out.Pass?
        invariant During(g0, ws0, order, draws, t, ws, out) && agents == old(agents)
      {
        out, ws := Turn(order, draws, t, g0, ws0, ws);
        t := t + 1;
      }
      Finished(g0, ws0, order, draws, t, ws, out);
    }

    /** A round that has run through `order`, or stopped at a raise, is `Ticks` of its start. */
    lemma Finished(g0: Tree, ws0: seq<Walker>, order: seq<nat>, draws: seq<Draw>, t: nat, ws: seq<Walker>, out: Outcome)
      requires During(g0, ws0, order, draws, t, ws, out) && (t == |order| || out.Fail?)
      ensures var (g1, ws1, o) := Ticks(g0, ws0, params, order, draws); G == g1 && Agrees(ws1) && out == o
    {
      if out.Pass? {
        assert order[t..] == [] && draws[t..] == [];
      }
    }

    /** Part way through a round that started from `g0` and `ws0`: the first `t` scheduled
        agents have stepped, the agents are `ws`, and unless one raised, the rest of the
        round is what is left of `Ticks`. */
    ghost predicate During(g0: Tree, ws0: seq<Walker>, order: seq<nat>, draws: seq<Draw>, t: nat, ws: seq<Walker>, out: Outcome)
      reads this, agents
    {
      && t <= |order| && |draws| == |order| && (forall t :: 0 <= t < |order| ==> order[t] < |agents|)
      && Valid() && Placed() && Agrees(ws) && OnTree(G, ws)
      && g0.Linked() && g0.Loopless() && OnTree(g0, ws0) && |ws0| == |ws|
      && Ticks(g0, ws0, params, order, draws) ==
        if out.Pass? then Ticks(G, ws, params, order[t..], draws[t..]) else (G, ws, out)
    }

    /** One pass of the loop of `Round`: agent `order[t]` steps. */
    method Turn(order: seq<nat>, draws: seq<Draw>, t: nat, ghost g0: Tree, ghost ws0: seq<Walker>, ghost ws: seq<Walker>)
      returns (out: Outcome, ghost ws1: seq<Walker>)
      requires t < |order| && During(g0, ws0, order, draws, t, ws, Pass)
      modifies this`G, this`places, agents[order[t]]
      ensures During(g0, ws0, order, draws, t + 1, ws1, out)
    {
      ghost var g1 := G;
      var k := order[t];
      ghost var w;
      out, w := Activate(k, draws[t], ws);
      ws1 := ws[k := w];
      TicksAt(g1, ws, params, order, draws, t, G, w, out);
    }

    /** Every agent stands on the tree. */
    lemma AgreesOnTree(ws: seq<Walker>)
      requires Valid() && Placed() && Agrees(ws)
      ensures OnTree(G, ws)
    {
    }

    /** One agent's step, within the model: the tree, agent `k` and the outcome are `Tick`
        of the old state, no other agent changes (the walkers `ws` become `ws[k := ...]`),
        the tree is `Kept`, and unless the step raised, the ant's state fits its node. */
    method Activate(k: nat, d: Draw, ghost ws: seq<Walker>) returns (out: Outcome, ghost w: Walker)
      requires Valid() && Placed() && k < |agents| && Agrees(ws)
      modifies this`G, this`places, agents[k]
      ensures Valid() && Placed() && Kept(old(G), G, params.padd)
      ensures old(G.Linked()) && ws[k].pos in old(G.adj)
      ensures w == agents[k].Walk() && (G, w, out) == Tick(old(G), ws[k], params, d)
      ensures Agrees(ws[k := w])
      ensures out.Pass? ==> agents[k].pos in G.kind && Fits(G.kind[agents[k].pos], agents[k].state)
    {
      ghost var g1, w1 := G, agents[k].Walk();
      var ant := agents[k];
      out := ant.Step(d);
      w := ant.Walk();
      TickKeeps(g1, w1, params, d);
      TickFits(g1, w1, params, d);
      forall i | 0 <= i < |agents|
        ensures agents[i].Walk() == ws[k := ant.Walk()][i]
      {
        assert agents[i].id == i;
      }
    }

    /** `updatep`: the decayed pheromone of every branch, in a fresh dictionary; the
        tree's own pheromone is left as it was. */
    method UpdateP() returns (p: map<EdgeKey, real>)
      ensures p.Keys == G.edges.Keys
      ensures forall k :: k in p ==> p[k] == Decay(G.edges[k].p, params.pdecay)
    {
      p := map k | k in G.edges :: G.edges[k].p;
      var todo := p.Keys;
      while todo != {}
        invariant todo <= p.Keys && p.Keys == G.edges.Keys
        invariant forall k :: k in p ==> p[k] == if k in todo then G.edges[k].p else Decay(G.edges[k].p, params.pdecay)
        decreases todo
      {
        var key :| key in todo;
        p := p[key := p[key] + params.pdecay];
        if p[key] < 0.0 {
          p := p[key := 0.0];
        }
        todo := todo - {key};
      }
    }
  }
}
