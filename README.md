# Ant-ABM in Dafny

This project models the core of Ant-ABM, an agent-based simulation of ants walking a
binary tree of branches. It is written in Dafny and proves properties of that model.

- **Tree building.** `balanced_tree` names the 2^depth leaves of a tree. 'O' is the root,
  and each leaf name is a path of L and R turns. Each leaf gets a branch width from a list
  that the function reverses. `construct_tree` then merges sibling leaves into their
  junction until only 'O' is left. Each edge carries the width of its child. A junction's
  width is the larger of its children's.
- **Routing.** `AgAnt.choice` picks where an ant goes next among two or three neighbours.
  It scores each branch by its width raised to a power. In the colony engine the branch's
  pheromone is added. Each score is multiplied by a left, right or u-turn bias. The scores
  are normalised, and one uniform draw picks the neighbour.
- **Colony engine** (`MesAntColony.py`).
  - Ants wait at home, search, wait at a nest, and return home.
  - A waiting ant leaves when a draw falls below its threshold. At a nest the threshold
    depends on how many ants are there.
  - Returning ants lay pheromone on the branch they take.
  - After each move, the ant's state is reset from the type of the node it stands on.
  - Each model step activates every ant once, in a shuffled order, and then computes a
    decayed copy of the pheromone.
- **Individual engine** (`MesAntIndividual.py`). Ants walk by the biases alone and stop
  for good at the first nest (leaf) they reach.
- **Calibration rows** (`read_treekey.py`).
  - `read_treekey` turns table rows into a list of edge strings. Repeats are dropped and
    the first occurrence is kept.
  - `read_predictions` builds a dictionary from (from, to) to a (U, L, R) triple. The
    first row for a key wins.

## Layout

| file | module | contents |
|---|---|---|
| results.dfy | Results | the exceptions the code raises, `Option`, `Result`, `Outcome` |
| names.dfy | Names | leaf names as binary numbers, parents, levels and indices |
| pydict.dfy | PyDicts | insertion-ordered Python dictionaries |
| network.dfy | Network | the part of a networkx graph the code uses: nodes in insertion order, neighbours in edge order, one shared record per edge |
| treebuild.dfy | TreeBuild | `balanced_tree` and the merge loop of `construct_tree`. The loop is written once over the node attribute and the edge record, since the two engines differ only in those |
| fulltree.dfy | FullTree | the theorem that a full leaf set builds exactly the full binary tree |
| routing.dfy | Routing | `choice`, shared by both engines, which differ only in the scores they pass |
| occupancy.dfy | Occupancy | the `ants` counts as a tally of where the agents stand, shared by both engines |
| colony.dfy | Colony | the colony agents and model (classes `Ant`, `TreeModel`) and their specification functions |
| individual.dfy | Individual | the same for the individual engine |
| treekey.dfy | Treekey | the two row loops of `read_treekey.py` |

The loops of the source are Dafny methods, and each is proved equal to a specification
function. The agents and the model are classes whose methods update their fields. A ghost
field `places` records where each agent stands. The `ants` counts are proved to be a tally
of `places` in every reachable state.

## Model

| member | source | states |
|---|---|---|
| TreeBuild.Reverse | MesAntColony.py:48 | `weight_map.reverse()` reverses the caller's list in place: the new contents are the old ones back to front |
| TreeBuild.JoinNames | MesAntColony.py:46-50 | the leaf names are `LeafNames(depth)`: 2^depth names, name i being 'O' followed by the depth-digit binary form of i (L = 0, R = 1), which is the `itertools.product('LR', repeat=depth)` order |
| TreeBuild.FillLeaves | MesAntColony.py:52-56 | the fill loop computes `Fill`: the names in order, each mapped to the list entry at its position, with IndexError once the list runs out |
| TreeBuild.BalancedTree | MesAntColony.py:41-59 | a negative depth raises ValueError (from `itertools.product`) and leaves the caller's list alone; otherwise the caller's weight list ends up reversed, and the dictionary returned is `Fill` of the leaf names over the reversed list |
| TreeBuild.BalancedTreeFacts | MesAntIndividual.py:32-49 | the result exists iff the list has at least 2^depth entries; it then holds exactly the 2^depth leaf names in order, and key i maps to entry i of the reversed list |
| TreeBuild.FillFacts | MesAntColony.py:52-56 | for distinct names, the fill succeeds iff the list is long enough; the keys are then the names in order and each value is the entry at the name's position |
| TreeBuild.LeafNamesDistinct | MesAntColony.py:46-50 | no leaf name is listed twice |
| TreeBuild.FindSibling | MesAntColony.py:77-79 | the search `for leaf2 in leafd` stops at the first key at or after j that is a different key of the same length and parent; when none is found, no key qualifies |
| TreeBuild.MergePass | MesAntColony.py:80-92 | one merge adds the junction, the edge to `leaf2`, then the edge to `leaf`; it gives the junction the larger width and deletes both children; the method is proved equal to `Merge` |
| TreeBuild.MergeFacts | MesAntColony.py:80-92 | a merge shrinks the working dictionary by one (by two if the junction was already a key), keeps it well formed, maps the junction to the max of the children's widths, removes both children, and keeps the graph well formed and without self-loops |
| TreeBuild.Max | MesAntColony.py:90 | the junction's width is one of the two widths and at least both |
| TreeBuild.AddLeafNodes | MesAntColony.py:69-71 | the leaf pass computes `AddLeaves`: one node per key with the kind at its position and no ants |
| TreeBuild.AddLeavesFacts | MesAntColony.py:69-71 | the leaf pass raises IndexError exactly when there are fewer kinds (`fooddist`) than keys; otherwise the graph is well formed, has no self-loops and holds every key |
| TreeBuild.MergeLoop | MesAntColony.py:73-92 | the `while not 'O' in leafd` loop computes `Run`, including the state it leaves the dictionary in |
| TreeBuild.RunStep | MesAntColony.py:73-92 | a pass that finds a sibling continues from the merged state with a strictly smaller dictionary |
| TreeBuild.RunIndexError | MesAntColony.py:75 | the loop raises IndexError (`list(leafd.keys())[0]`) exactly when the dictionary is empty |
| TreeBuild.RunWf | MesAntColony.py:73-92 | when the loop ends normally the graph is well formed and has no self-loops, and 'O' is in the dictionary |
| TreeBuild.ConstructTree | MesAntColony.py:61-94 | `construct_tree` is the leaf pass followed by the merge loop; the method is proved equal to `Construct` |
| TreeBuild.ConstructWf | MesAntIndividual.py:51-80 | a built tree is well formed and has no self-loops, and 'O' ends in the dictionary; IndexError happens exactly when there are too few kinds or no leaves |
| FullTree.BuildsFullTree | MesAntColony.py:61-94 | see below |
| FullTree.Complete | MesAntColony.py:73-92 | from the state after the leaf pass, the merge loop ends with the full tree and the dictionary holding only 'O' |
| Routing.Decide | MesAntColony.py:224-287 | `choice` over paired scores, with its bias loop, normalising loop and draw comparison, is proved equal to `Choose` |
| Routing.BiasLoop | MesAntColony.py:235-241 | the in-place bias loop computes `Biased`: each score times its multiplier, stopping at the first neighbour whose multiplier raises |
| Routing.NormaliseLoop | MesAntColony.py:243-245 | the normalising statements divide every score by the total; a zero total raises ZeroDivisionError |
| Routing.ChooseSingle | MesAntColony.py:224-225 | a lone neighbour is returned whatever the scores and the draw |
| Routing.ChooseNeighbour | MesAntColony.py:219-287 | a successful choice is one of the supplied neighbours |
| Routing.ChooseOutcome | MesAntColony.py:219-287 | see below |
| Routing.BiasRules | MesAntColony.py:235-274 | every biased score obeys the bias rules: at a two-way node, L gets `left`, R gets `right` and anything else `u-turn`; at a three-way node, `ppos` gets `u-turn`, L/R get left/right facing forwards and right/left facing backwards, and any other name keeps its score |
| Routing.BackwardIsMirrored | MesAntColony.py:257-274 | facing backwards scores the neighbours exactly as facing forwards with `left` and `right` exchanged |
| Routing.BiasedOutcome | MesAntColony.py:235-241 | the bias loop fails only by IndexError, and exactly when some scored neighbour's multiplier raises (a name with no last letter) |
| Routing.NormalisedShares | MesAntColony.py:276-279 | normalised non-negative scores with a non-zero total are non-negative and sum to 1 |
| Routing.PickInterval | MesAntColony.py:281-287 | the draw comparison picks neighbour i exactly when the draw lies between the sum of the earlier shares and that sum plus share i |
| Routing.SampleCdf | MesAntColony.py:253-287 | with two or three neighbours, a draw in the i-th cumulative interval of the biased shares selects neighbour i |
| Routing.TwoWayRule | MesAntColony.py:243-251 | with two neighbours the first is chosen exactly when the draw is below its share |
| Names.TreeNameIsName | MesAntColony.py:80 | every tree name is the name of its level and index, and its index fits its level |
| Occupancy.Placing | MesAntColony.py:362-368 | placing `pop` agents at 'O' and setting its count to `pop` makes a consistent start (likewise MesAntIndividual.py:296-302) |
| Occupancy.Census | MesAntColony.py:358-368 | in a consistent state the total of ants on the tree is the base total plus the number of agents |
| Occupancy.SameCensus | MesAntIndividual.py:292-309 | two consistent states with the same nodes and population have the same total of ants |
| Occupancy.ShiftTally | MesAntColony.py:298-303 | moving one agent from u to v keeps the counts a tally of the agents' places, and no other node's count changes |
| Occupancy.ShiftSum | MesAntIndividual.py:273-277 | the −1/+1 shift keeps the total over the nodes |
| Colony.ColonyTree | MesAntColony.py:61-94 | a full leaf set builds a well-formed tree without self-loops; leaf i has type `fooddist[i]`, 'O' is "Home" and every other junction "Node"; no node holds ants; the branch to each node carries that node's working width and pheromone 0 |
| Colony.Target | MesAntColony.py:296 | `choice(list(G.neighbors(pos)))` that succeeds names a neighbour of the ant's node |
| Colony.Ant.constructor | MesAntColony.py:212-216 | a new ant stands at 'O', has no previous position and waits at home |
| Colony.Ant.Choice | MesAntColony.py:219-287 | the pairing loop and the scores `weight ** width + p`; the result is `Choose` over those scores |
| Colony.Ant.Decision | MesAntColony.py:295-296 | the neighbour `move` picks is `Target` |
| Colony.TravelStays | MesAntColony.py:289-313 | `move` leaves the tree's shape, node kinds and the ant's state alone; a waiting ant or a failed choice changes nothing; otherwise the ant goes to a neighbour, `ppos` becomes its old node, and the counts are −1 at the node left and +1 at the node entered |
| Colony.TravelTrail | MesAntColony.py:299-304 | branch widths never change; only the branch a returning ant took gains pheromone, by `padd` in both orders of the pair |
| Colony.TravelConserves | MesAntColony.py:298-303 | a move keeps the total number of ants on the tree |
| Colony.Ant.Go | MesAntColony.py:298-304 | the write half of `move`: −1/+1 on the counts, `ppos := pos`, `pos := node`, and the deposit for a returning ant; the tally stays consistent |
| Colony.Ant.Move | MesAntColony.py:289-313 | `move` is `Travel` of the old state, and the model stays consistent |
| Colony.MoveConsistent | MesAntColony.py:298-303 | moving one agent along a branch, with or without a deposit, keeps the counts a tally of the agents' places |
| Colony.ChanceRange | MesAntColony.py:336-340 | the leaving chance of a waiting-nest ant lies between `leave_home` and 1, strictly when `leave_home` < 1 |
| Colony.ChanceFalls | MesAntColony.py:336-340 | a smaller exponential term (a fuller nest) never raises the leaving chance |
| Colony.LeaveRule | MesAntColony.py:330-349 | a waiting-home ant moves iff its draw is below `leave_home`, a waiting-nest ant iff its draw is below its chance; searching and returning ants keep their state and move |
| Colony.ForcedFits | MesAntColony.py:315-324 | `update` always leaves a state that fits the node type (Nest: waiting at the nest, Food: returning, Home: waiting at home) and changes nothing in a state that already fits |
| Colony.Ant.Update | MesAntColony.py:315-324 | `update` sets the state from the node type and leaves position and `ppos` alone |
| Colony.TickFits | MesAntColony.py:326-351 | after a step that did not raise, the ant's state fits the type of its node |
| Colony.TickMoves | MesAntColony.py:326-351 | an ant changes node exactly when its new state is a moving one and the choice succeeds; an ant that keeps waiting leaves the tree unchanged |
| Colony.TickKeeps | MesAntColony.py:326-351 | a step keeps the tree linked and loopless, with the same nodes, branches, kinds and widths; no branch loses pheromone when `padd` ≥ 0 |
| Colony.TickConserves | MesAntColony.py:326-351 | a step keeps the total number of ants on the tree |
| Colony.Ant.Step | MesAntColony.py:326-351 | `step` is `Tick` of the old state (the state change, `move`, then `update` unless `move` raised), and the model stays consistent |
| Colony.TreeModel.constructor | MesAntColony.py:358-368 | `pop` fresh ants with ids 0..pop−1, all at 'O' and waiting at home; 'O' holds `pop`; the counts are a tally of the places |
| Colony.TreeModel.Spawn | MesAntColony.py:362-366 | the creation loop makes ant i for each i in `range(pop)` |
| Colony.TicksAt | MesAntColony.py:374-377 | the scheduler's fold `Ticks` unfolds at activation t: the t-th scheduled agent takes its `Tick`, the round ends there if that raised and goes on from the new tree otherwise; each activation keeps the tree linked, loopless and under every agent |
| Colony.TicksKeep | MesAntColony.py:374-377 | a round keeps the tree's nodes, branches, kinds and widths, keeps every agent on the tree, and leaves every agent the schedule does not name unchanged |
| Colony.TicksConserve | MesAntColony.py:374-377 | on a well-formed tree a round keeps the total number of ants on the tree |
| Colony.TreeModel.Activate | MesAntColony.py:376 | one agent's step is `Tick` of the old tree and of that agent's old state, and no other agent changes; the model stays valid and the tree kept; a step that did not raise leaves the ant in a state fitting its node |
| Colony.TreeModel.Step | MesAntColony.py:374-377 | the new tree, the new agents and the outcome are `Ticks` of the old state: every scheduled agent steps in the given order, stopping at the first that raises; the model stays valid, the tree is kept, and on a tree with distinct node names the total of ants is unchanged |
| Colony.TreeModel.UpdateP | MesAntColony.py:379-387 | the decayed copy holds every branch at `max(0, p + pdecay)`; the tree's own pheromone is unchanged |
| Colony.DecayBounds | MesAntColony.py:384-387 | a decayed value is never negative, is `p + pdecay` while that is non-negative and 0 otherwise, and never exceeds the old value when `pdecay` ≤ 0 |
| Individual.ConstructNestTree | MesAntIndividual.py:51-80 | `construct_tree` with `nest=True` on the leaves and `nest=False` on every junction; it raises IndexError exactly when there are no leaves; a built tree is well formed and has no self-loops |
| Individual.NestTree | MesAntIndividual.py:51-80 | a full leaf set builds a well-formed tree without self-loops in which exactly the leaves are nests (so 'O' is one only when it is the only leaf); no node holds ants; the branch to each node carries that node's working width |
| Individual.Target | MesAntIndividual.py:270 | a successful `choice` names a neighbour of the ant's node |
| Individual.Ant.constructor | MesAntIndividual.py:184-187 | a new ant stands at 'O' with no previous position |
| Individual.Ant.Choice | MesAntIndividual.py:189-259 | the pairing loop and the scores `weight ** width`; the result is `Choose` over those scores |
| Individual.Ant.Decision | MesAntIndividual.py:269-271 | the neighbour `move` picks is `Target` |
| Individual.TravelStays | MesAntIndividual.py:261-278 | on a nest `move` changes nothing and returns `pos`; a failed choice changes nothing; otherwise the ant goes to a neighbour, sets `ppos`, the counts shift by −1/+1 and the result is the new node |
| Individual.TravelNests | MesAntIndividual.py:261-278 | no nest ever loses an ant |
| Individual.TravelConserves | MesAntIndividual.py:273-277 | a move keeps the total number of ants on the tree |
| Individual.TravelKeeps | MesAntIndividual.py:261-278 | a move keeps the tree linked and loopless with only the counts changed, and no nest loses an ant |
| Individual.MoveConsistent | MesAntIndividual.py:273-277 | moving one agent along a branch keeps the counts a tally of the agents' places |
| Individual.Ant.Go | MesAntIndividual.py:273-277 | the write half of `move`: −1/+1 on the counts, `ppos := pos`, `pos := node`; the tally stays consistent |
| Individual.Ant.Move | MesAntIndividual.py:261-278 | `move` is `Travel` of the old state, its result included, and the model stays consistent |
| Individual.Ant.Step | MesAntIndividual.py:280-281 | `step` is `move` with its result dropped |
| Individual.TreeModel.constructor | MesAntIndividual.py:292-302 | `pop` fresh ants with ids 0..pop−1, all at 'O'; 'O' holds `pop`; the counts are a tally of the places |
| Individual.TreeModel.Spawn | MesAntIndividual.py:296-300 | the creation loop makes ant i for each i in `range(pop)` |
| Individual.TicksAt | MesAntIndividual.py:307-309 | the scheduler's fold `Ticks` unfolds at activation t: the t-th scheduled agent takes its `move` (`Travel`, a raise becoming the failing outcome), the round ends there if that raised and goes on from the new tree otherwise; each activation keeps the tree linked, loopless and under every agent |
| Individual.TicksKeep | MesAntIndividual.py:307-309 | a round changes only the counts, keeps every agent on the tree, leaves every agent the schedule does not name unchanged, and never moves an agent that started on a nest |
| Individual.TicksConserve | MesAntIndividual.py:307-309 | on a well-formed tree a round keeps the total number of ants on the tree |
| Individual.TreeModel.Activate | MesAntIndividual.py:309 | one agent's step is `move` (`Travel`) of the old tree and that agent's old state, a raise becoming the failing outcome, and no other agent changes; the model stays valid and the tree kept, and an ant standing on a nest does not move |
| Individual.TreeModel.Step | MesAntIndividual.py:307-309 | the new tree, the new agents and the outcome are `Ticks` of the old state: every scheduled agent steps in the given order, stopping at the first that raises; the model stays valid, only the counts change, no agent that stood on a nest moves, and on a tree with distinct node names the total of ants is unchanged |
| Treekey.ReadTreekey | read_treekey.py:3-15 | the row loop computes `Treekey`: the edge strings of the rows with repeats dropped, or the first row's error |
| Treekey.TreekeyRows | read_treekey.py:11-14 | the key list fails iff some row fails, with the first failing row's error; otherwise it holds every row's string, no string twice, and nothing that is not some row's string |
| Treekey.TreekeyOrder | read_treekey.py:11-14 | first-occurrence order: every row giving a later entry comes after some row giving an earlier entry |
| Treekey.DedupMembers | read_treekey.py:13-14 | `if x not in out: out.append(x)` keeps exactly the entries of its input, each once |
| Treekey.DedupOrder | read_treekey.py:13-14 | earlier entries of the result first appear earlier in the input |
| Treekey.EdgesRows | read_treekey.py:11-12 | the edge list succeeds iff every row formats, entry i being row i's string; otherwise its error is the first failing row's |
| Treekey.ReadPredictions | read_treekey.py:17-33 | the row loop computes `Predictions` |
| Treekey.PredictionsKeys | read_treekey.py:26-27 | a successful dictionary is well formed, every row has the two cells of its key `(str(row[1]), str(row[0]))`, and the keys are the rows' keys without repeats, in first-occurrence order |
| Treekey.PredictionsFirst | read_treekey.py:26-32 | every key's triple is that of the first row with that key, and that row has all six cells; the triple, defined once in `Ulr`, is (U, L, R) with U cell 4, the sharp-turn cell 3 on the side `row[2]` names as sharp, and cell 5 on the other side |
| Treekey.PredictionsOk | read_treekey.py:23-33 | the loop raises iff some row lacks the two cells of its key, or the first row of some key lacks all six |

`FullTree.BuildsFullTree` states the following. Given at least 2^d widths and kinds,
`construct_tree(balanced_tree(d, ws))` succeeds and builds the full binary tree of depth d:

- its nodes are exactly the 2^(d+1) − 1 names 'O' + {L, R}^k for k ≤ d;
- leaf i has the kind at position i, 'O' has the home kind, and every other junction has
  the plain junction kind;
- no node holds ants;
- each junction's neighbours are its R child, then its L child, then its parent;
- the edge to each node carries that node's working width, which for a junction is the
  larger of its children's;
- the dictionary is left holding only 'O'.

`Routing.ChooseOutcome` states:

- a successful choice is one of the first three neighbours;
- no neighbours raise IndexError;
- three or more neighbours before the first move raise TypeError (`len(None)`);
- otherwise the result is the biased, normalised draw over the first two or three
  neighbours, with IndexError when a multiplier raises and ZeroDivisionError on a zero
  total.

## Left out

- File I/O and plumbing: CSV reading (`pd.read_csv`, `usecols`), plotting (`graph_draw`),
  the `sim` and `experiment` drivers, the DataCollector, and mesa's scheduler and
  `NetworkGrid` internals. The rows of the tables are inputs. The activation order of
  `RandomActivation` is an input sequence of agent indices.
- Randomness: every `random.random()` is a parameter (`Draw` in the colony, one real per
  activation in the individual engine).
- `math.exp(-0.2 * (x - 10))` is the input function `expo`, so `Chance` is stated over a
  positive real.
- Floating point: widths, pheromone and probabilities are exact reals, with no IEEE
  rounding. `int()`, `float()`, `str()` and `bool()` of a table cell are parameters
  (`Conv`).
- Treekey.Conv: `bool()` of a cell is total, so the TypeError that `bool(pd.NA)` raises
  is not modelled.
- Colony.TreeModel.Step and Individual.TreeModel.Step: the total of ants is stated only for
  a tree with distinct node names (`Unique`), which is kept out of the model invariant to
  keep the proofs cheap; `Occupancy.Census` relates it to the agents.
- Colony.TreeModel.Step and Individual.TreeModel.Step: the fitting of each ant's state to
  its node is stated per activation (`Activate`), not for all agents at the end of the step.
- Colony.TreeModel.constructor and Individual.TreeModel.constructor require 'O' in the
  graph. With `pop` ≥ 1, mesa's `place_agent` fails without it. With `pop` = 0 the source
  accepts such a graph, because `set_node_attributes` skips a missing node; the model does
  not cover that case. The graph must also be linked and loopless, which every graph
  `construct_tree` builds is.
- Colony.TreeModel.UpdateP: networkx's `get_edge_attributes` lists each edge once; the
  model keys a branch by both orders of its pair, so the copy holds both.
- Colony.Ant.Step calls `Move` once after the state change, where the source calls `move`
  in each moving branch; `move` does nothing in a waiting state, so this is the same.
- Exceptions: a `move` that raises ends the model step (the `Fail` outcome). The exception
  is not propagated further.
- Aliasing: `balanced_tree` reverses the caller's list in place, and `construct_tree`
  consumes the caller's dictionary. `BalancedTree` and `ConstructTree` state both. Python's
  mutable default arguments, which make repeated default calls see the reversed list and
  the consumed dictionary, are not modelled. Neither is the way `TreeModel.__init__` sets
  the count at 'O' in the caller's graph `G`, which the model holds by value.
- The ant identity `unique_id` is the agent's index; mesa's `Agent` base class is not
  modelled.
