/** `AgAnt.choice`, the routing decision shared by both engines. An ant on a
    node scores each neighbour by the width of the branch leading there
    (`weight ** width`, plus the branch's pheromone in the colony engine),
    multiplies the score by a turning bias, normalises the scores and picks a
    neighbour by comparing one uniform draw `r` with the running sums. */
module Routing {
  import opened Results

  /** The turning entries of the parameters dictionary: 'left', 'right', 'width' and 'u-turn'. */
  datatype Bias = Bias(left: real, right: real, width: nat, uturn: real)

  /** The values both engines ship with. */
  const DefaultBias := Bias(1.0, 1.0, 1, 0.1)

  /** `x ** n` for a whole exponent. */
  function Pow(x: real, n: nat): (r: real)
    ensures x >= 0.0 ==> r >= 0.0
    ensures x > 0.0 ==> r > 0.0
  {
    if n == 0 then 1.0 else x * Pow(x, n - 1)
  }

  /** How a neighbour's multiplier is chosen. At a node with two neighbours only the
      neighbour's last letter counts; at a node with three, the neighbour the ant came
      from (`ppos`) is a u-turn, and left and right are swapped when the ant faces
      backwards (`forward` is `len(ppos) < len(pos)`). */
  datatype Rule = TwoWay | ThreeWay(ppos: string, forward: bool)

  /** The multiplier the bias loop applies to neighbour `x`; `x[-1]` of an empty name raises IndexError. */
  function Factor(b: Bias, rule: Rule, x: string): Result<real>
  {
    match rule
    case TwoWay =>
      if |x| == 0 then Err(IndexError)
      else if x[|x| - 1] == 'L' then Ok(b.left)
      else if x[|x| - 1] == 'R' then Ok(b.right)
      else Ok(b.uturn)
    case ThreeWay(ppos, forward) =>
      if x == ppos then Ok(b.uturn)
      else if |x| == 0 then Err(IndexError)
      else if x[|x| - 1] == 'L' then Ok(if forward then b.left else b.right)
      else if x[|x| - 1] == 'R' then Ok(if forward then b.right else b.left)
      else Ok(1.0)
  }

  /** The scores after the bias loop `for i in range(len(probs)): probs[i] *= ...`,
      which stops at the first neighbour whose multiplier raises. */
  function Biased(b: Bias, rule: Rule, names: seq<string>, scores: seq<real>): (r: Result<seq<real>>)
    requires |names| == |scores|
    ensures r.Ok? ==> |r.value| == |names|
  {
    if |names| == 0 then Ok([])
    else
      var n := |names| - 1;
      var pre := Biased(b, rule, names[..n], scores[..n]);
      var f := Factor(b, rule, names[n]);
      if pre.Err? then pre
      else if f.Err? then Err(f.error)
      else Ok(pre.value + [Times(scores[n], f.value)])
  }

  /** A score times its multiplier. */
  function Times(s: real, f: real): real
  {
    s * f
  }

  function Sum(s: seq<real>): real
  {
    if |s| == 0 then 0.0 else Sum(s[..|s| - 1]) + s[|s| - 1]
  }

  /** `s` with every entry divided by `t`. */
  function Scale(s: seq<real>, t: real): (r: seq<real>)
    requires t != 0.0
    ensures |r| == |s| && forall i :: 0 <= i < |s| ==> r[i] == s[i] / t
  {
    seq(|s|, i requires 0 <= i < |s| => s[i] / t)
  }

  /** `total = sum(probs); probs[i] = probs[i] / total`: a zero total raises ZeroDivisionError. */
  function Normalised(ps: seq<real>): (r: Result<seq<real>>)
  {
    if Sum(ps) == 0.0 then Err(ZeroDivisionError) else Ok(Scale(ps, Sum(ps)))
  }

  /** The comparison with the draw: neighbour 0 if `r < p[0]`, neighbour 1 if
      `r < p[0] + p[1]` (or if there are only two), neighbour 2 otherwise. */
  function Pick(p: seq<real>, r: real): (i: nat)
    requires 2 <= |p| <= 3
    ensures i < |p|
  {
    if r < p[0] then 0 else if |p| == 2 || r < p[0] + p[1] then 1 else 2
  }

  /** Scoring, biasing, normalising and drawing among two or three neighbours. */
  function Sample(b: Bias, rule: Rule, names: seq<string>, scores: seq<real>, r: real): Result<string>
    requires |names| == |scores| && 2 <= |names| <= 3
  {
    match Biased(b, rule, names, scores)
    case Err(e) => Err(e)
    case Ok(ps) =>
      match Normalised(ps)
      case Err(e) => Err(e)
      case Ok(p) => Ok(names[Pick(p, r)])
  }

  /** `choice(neighbors)` for an ant at `pos` that came from `ppos` (None before its first
      move), where `scores[i]` is the score of the branch to `neighbors[i]` and `r` is
      the draw. A single neighbour is returned without a draw; with none,
      `neighbors[0]` raises IndexError; with three or more only the first three are
      scored, and `len(ppos)` of a missing `ppos` raises TypeError. */
  function Choose(b: Bias, neighbors: seq<string>, scores: seq<real>, pos: string, ppos: Option<string>, r: real): Result<string>
    requires |neighbors| == |scores|
  {
    if |neighbors| == 1 then Ok(neighbors[0])
    else if |neighbors| == 0 then Err(IndexError)
    else if |neighbors| == 2 then Sample(b, TwoWay, neighbors, scores, r)
    else match ppos
      case None => Err(TypeError)
      case Some(pp) => Sample(b, ThreeWay(pp, |pp| < |pos|), neighbors[..3], scores[..3], r)
  }

  /** The rule `choice` applies at a node with `n` neighbours (two or more). */
  function RuleFor(n: nat, pos: string, pp: string): Rule
  {
    if n == 2 then TwoWay else ThreeWay(pp, |pp| < |pos|)
  }

  // ---------------------------------------------------------------------------
  // The method, loop for loop

  /** `choice` as the source computes it: the bias loop and the normalising loop run
      over a `probs` list of two or three entries, then the draw is compared with the running sums. */
  method Decide(b: Bias, neighbors: seq<string>, scores: seq<real>, pos: string, ppos: Option<string>, r: real)
    returns (res: Result<string>)
    requires |neighbors| == |scores|
    ensures res == Choose(b, neighbors, scores, pos, ppos, r)
  {
    if |neighbors| == 1 {
      return Ok(neighbors[0]);
    }
    if |neighbors| == 0 {
      return Err(IndexError);
    }
    var n := 2;
    var pp := "";
    if |neighbors| > 2 {
      if ppos.None? {
        return Err(TypeError);
      }
      n := 3;
      pp := ppos.value;
    }
    var rule := RuleFor(n, pos, pp);
    var names := neighbors[..n];
    var ss := scores[..n];
    if n == 2 {
      assert names == neighbors && ss == scores;
    }
    var biased := BiasLoop(b, rule, names, ss);
    if biased.Err? {
      return Err(biased.error);
    }
    var shares := NormaliseLoop(biased.value);
    if shares.Err? {
      return Err(shares.error);
    }
    var probs := shares.value;
    if r < probs[0] {
      res := Ok(names[0]);
    } else if n == 2 || r < probs[0] + probs[1] {
      res := Ok(names[1]);
    } else {
      res := Ok(names[2]);
    }
  }

  /** The bias loop: `probs[i] *= <multiplier of neighbour i>` in place, for each i. */
  method BiasLoop(b: Bias, rule: Rule, names: seq<string>, scores: seq<real>) returns (r: Result<seq<real>>)
    requires |names| == |scores|
    ensures r == Biased(b, rule, names, scores)
  {
    var n := |names|;
    var probs := new real[n](i requires 0 <= i < n => scores[i]);
    for i := 0 to n
      invariant probs[i..] == scores[i..]
      invariant Biased(b, rule, names[..i], scores[..i]) == Ok(probs[..i])
    {
      BiasedStep(b, rule, names, scores, i);
      var f := Factor(b, rule, names[i]);
      if f.Err? {
        BiasedErr(b, rule, names, scores, i + 1);
        return Err(f.error);
      }
      ghost var before := probs[..i];
      probs[i] := Times(probs[i], f.value);
      assert probs[..i + 1] == before + [Times(scores[i], f.value)];
    }
    assert names[..n] == names && scores[..n] == scores && probs[..n] == probs[..];
    return Ok(probs[..]);
  }

  /** `total = probs[0] + ... ; probs[i] = probs[i] / total` over two or three entries. */
  method NormaliseLoop(ps: seq<real>) returns (r: Result<seq<real>>)
    requires 2 <= |ps| <= 3
    ensures r == Normalised(ps)
  {
    var n := |ps|;
    var probs := new real[n](i requires 0 <= i < n => ps[i]);
    var total := if n == 2 then probs[0] + probs[1] else probs[0] + probs[1] + probs[2];
    SumSmall(ps);
    if total == 0.0 {
      return Err(ZeroDivisionError);
    }
    for i := 0 to n
      invariant probs[i..] == ps[i..]
      invariant probs[..i] == Scale(ps, total)[..i]
    {
      probs[i] := probs[i] / total;
    }
    assert probs[..] == probs[..n] && Scale(ps, total)[..n] == Scale(ps, total);
    return Ok(probs[..]);
  }

  /** The bias loop after i + 1 neighbours, from its state after i. */
  lemma BiasedStep(b: Bias, rule: Rule, names: seq<string>, scores: seq<real>, i: nat)
    requires |names| == |scores| && i < |names|
    ensures Biased(b, rule, names[..i], scores[..i]).Err? ==>
      Biased(b, rule, names[..i + 1], scores[..i + 1]) == Biased(b, rule, names[..i], scores[..i])
    ensures Biased(b, rule, names[..i], scores[..i]).Ok? && Factor(b, rule, names[i]).Err? ==>
      Biased(b, rule, names[..i + 1], scores[..i + 1]) == Err(Factor(b, rule, names[i]).error)
    ensures Biased(b, rule, names[..i], scores[..i]).Ok? && Factor(b, rule, names[i]).Ok? ==>
      Biased(b, rule, names[..i + 1], scores[..i + 1]) == Ok(Biased(b, rule, names[..i], scores[..i]).value + [Times(scores[i], Factor(b, rule, names[i]).value)])
  {
    BiasedUnfold(b, rule, names[..i + 1], scores[..i + 1]);
    assert names[..i + 1][..i] == names[..i] && scores[..i + 1][..i] == scores[..i];
  }

  /** One step of the bias loop, case by case. */
  lemma BiasedUnfold(b: Bias, rule: Rule, names: seq<string>, scores: seq<real>)
    requires |names| == |scores| && |names| > 0
    ensures Biased(b, rule, names[..|names| - 1], scores[..|names| - 1]).Err? ==>
      Biased(b, rule, names, scores) == Biased(b, rule, names[..|names| - 1], scores[..|names| - 1])
    ensures Biased(b, rule, names[..|names| - 1], scores[..|names| - 1]).Ok? && Factor(b, rule, names[|names| - 1]).Err? ==>
      Biased(b, rule, names, scores) == Err(Factor(b, rule, names[|names| - 1]).error)
    ensures Biased(b, rule, names[..|names| - 1], scores[..|names| - 1]).Ok? && Factor(b, rule, names[|names| - 1]).Ok? ==>
      Biased(b, rule, names, scores) == Ok(Biased(b, rule, names[..|names| - 1], scores[..|names| - 1]).value + [Times(scores[|names| - 1], Factor(b, rule, names[|names| - 1]).value)])
  {
    if Biased(b, rule, names[..|names| - 1], scores[..|names| - 1]).Ok? && Factor(b, rule, names[|names| - 1]).Ok? {
      BiasedUnfoldOk(b, rule, names, scores);
    }
  }

  lemma BiasedUnfoldOk(b: Bias, rule: Rule, names: seq<string>, scores: seq<real>)
    requires |names| == |scores| && |names| > 0
    requires Biased(b, rule, names[..|names| - 1], scores[..|names| - 1]).Ok? && Factor(b, rule, names[|names| - 1]).Ok?
    ensures Biased(b, rule, names, scores) == Ok(Biased(b, rule, names[..|names| - 1], scores[..|names| - 1]).value + [Times(scores[|names| - 1], Factor(b, rule, names[|names| - 1]).value)])
  {
  }

  /** Once the bias loop has raised on a prefix, it raises the same on the whole. */
  lemma {:induction false} BiasedErr(b: Bias, rule: Rule, names: seq<string>, scores: seq<real>, t: nat)
    requires |names| == |scores| && t <= |names| && Biased(b, rule, names[..t], scores[..t]).Err?
    ensures Biased(b, rule, names, scores) == Biased(b, rule, names[..t], scores[..t])
    decreases |names| - t
  {
    if t < |names| {
      BiasedStep(b, rule, names, scores, t);
      BiasedErr(b, rule, names, scores, t + 1);
    } else {
      assert names[..t] == names && scores[..t] == scores;
    }
  }

  lemma SumSmall(p: seq<real>)
    requires 2 <= |p| <= 3
    ensures Sum(p[..0]) == 0.0 && Sum(p[..1]) == p[0] && Sum(p[..2]) == p[0] + p[1]
    ensures |p| == 2 ==> Sum(p) == p[0] + p[1]
    ensures |p| == 3 ==> Sum(p) == p[0] + p[1] + p[2]
  {
    assert p[..1][..0] == p[..0];
    assert p[..2][..1] == p[..1];
    if |p| == 2 {
      assert p[..1] == p[..|p| - 1];
    } else {
      assert p[..2] == p[..|p| - 1];
    }
  }

  // ---------------------------------------------------------------------------
  // What the choice promises

  /** A lone neighbour is returned as it is, whatever the draw and the scores. */
  lemma ChooseSingle(b: Bias, neighbors: seq<string>, scores: seq<real>, pos: string, ppos: Option<string>, r: real)
    requires |neighbors| == |scores| == 1
    ensures Choose(b, neighbors, scores, pos, ppos, r) == Ok(neighbors[0])
  {
  }

  /** A successful choice names a supplied neighbour. */
  lemma ChooseNeighbour(b: Bias, neighbors: seq<string>, scores: seq<real>, pos: string, ppos: Option<string>, r: real)
    requires |neighbors| == |scores|
    ensures var res := Choose(b, neighbors, scores, pos, ppos, r);
      res.Ok? ==> res.value in neighbors
  {
    if |neighbors| >= 3 && ppos.Some? {
      var res := Choose(b, neighbors, scores, pos, ppos, r);
      if res.Ok? {
        var i :| 0 <= i < 3 && res.value == neighbors[..3][i];
        assert res.value == neighbors[i];
      }
    }
  }

  /** A successful choice is always one of the supplied neighbours (one of the first three),
      and the choice fails exactly in the cases the source raises: no neighbours
      (IndexError), three or more before the first move (TypeError), a scored neighbour
      without a last letter that is not `ppos` (IndexError), or a zero total (ZeroDivisionError). */
  lemma ChooseOutcome(b: Bias, neighbors: seq<string>, scores: seq<real>, pos: string, ppos: Option<string>, r: real)
    requires |neighbors| == |scores|
    ensures var res := Choose(b, neighbors, scores, pos, ppos, r);
      (res.Ok? ==> exists i :: 0 <= i < |neighbors| && i < 3 && res.value == neighbors[i])
    ensures |neighbors| == 0 ==> Choose(b, neighbors, scores, pos, ppos, r) == Err(IndexError)
    ensures |neighbors| >= 3 && ppos.None? ==> Choose(b, neighbors, scores, pos, ppos, r) == Err(TypeError)
    ensures |neighbors| >= 2 && (|neighbors| == 2 || ppos.Some?) ==>
      var m := if |neighbors| == 2 then 2 else 3;
      var rule := RuleFor(m, pos, if ppos.Some? then ppos.value else "");
      var bs := Biased(b, rule, neighbors[..m], scores[..m]);
      Choose(b, neighbors, scores, pos, ppos, r) ==
        if bs.Err? then Err(IndexError)
        else if Sum(bs.value) == 0.0 then Err(ZeroDivisionError)
        else Ok(neighbors[Pick(Scale(bs.value, Sum(bs.value)), r)])
  {
    if |neighbors| >= 2 && (|neighbors| == 2 || ppos.Some?) {
      var m := if |neighbors| == 2 then 2 else 3;
      var rule := RuleFor(m, pos, if ppos.Some? then ppos.value else "");
      BiasedOutcome(b, rule, neighbors[..m], scores[..m]);
      assert neighbors[..m] == neighbors[..2] || neighbors[..m] == neighbors[..3];
      if m == 2 {
        assert neighbors[..m] == neighbors;
        assert scores[..m] == scores;
      }
    }
  }

  /** The bias loop fails only by IndexError, and only on a neighbour whose multiplier raises. */
  lemma {:induction false} BiasedOutcome(b: Bias, rule: Rule, names: seq<string>, scores: seq<real>)
    requires |names| == |scores|
    ensures Biased(b, rule, names, scores).Err? ==> Biased(b, rule, names, scores) == Err(IndexError)
    ensures Biased(b, rule, names, scores).Err? <==> exists i :: 0 <= i < |names| && Factor(b, rule, names[i]).Err?
  {
    if |names| > 0 {
      var n := |names| - 1;
      BiasedOutcome(b, rule, names[..n], scores[..n]);
      if exists i :: 0 <= i < n && Factor(b, rule, names[..n][i]).Err? {
        var i :| 0 <= i < n && Factor(b, rule, names[..n][i]).Err?;
        assert names[i] == names[..n][i];
      }
      if exists i :: 0 <= i < |names| && Factor(b, rule, names[i]).Err? {
        var i :| 0 <= i < |names| && Factor(b, rule, names[i]).Err?;
        if i < n {
          assert names[..n][i] == names[i];
        }
      }
    }
  }

  /** The scores the bias loop produces: each neighbour's score times its multiplier. */
  lemma {:induction false} BiasedAt(b: Bias, rule: Rule, names: seq<string>, scores: seq<real>, i: nat)
    requires |names| == |scores| && i < |names| && Biased(b, rule, names, scores).Ok?
    ensures Factor(b, rule, names[i]).Ok?
    ensures Biased(b, rule, names, scores).value[i] == Times(scores[i], Factor(b, rule, names[i]).value)
  {
    var n := |names| - 1;
    if i < n {
      BiasedAt(b, rule, names[..n], scores[..n], i);
    }
  }

  /** The multipliers of the source's bias loops, as a relation between a neighbour `x`,
      its score `s` and its biased score `v`. At a two-way node: `left` for a name ending
      in L, `right` for R, `u-turn` for anything else. At a three-way node the neighbour
      equal to `ppos` always gets `u-turn`; facing forwards an L name gets `left` and an
      R name `right`, facing backwards the other way round; any other name keeps its
      score unmultiplied. */
  predicate BiasRule(b: Bias, rule: Rule, x: string, s: real, v: real)
  {
    && (rule.TwoWay? ==> |x| > 0)
    && (rule.TwoWay? && |x| > 0 && x[|x| - 1] == 'L' ==> v == s * b.left)
    && (rule.TwoWay? && |x| > 0 && x[|x| - 1] == 'R' ==> v == s * b.right)
    && (rule.TwoWay? && |x| > 0 && x[|x| - 1] != 'L' && x[|x| - 1] != 'R' ==> v == s * b.uturn)
    && (rule.ThreeWay? && x == rule.ppos ==> v == s * b.uturn)
    && (rule.ThreeWay? && x != rule.ppos ==> |x| > 0)
    && (rule.ThreeWay? && x != rule.ppos && |x| > 0 && x[|x| - 1] == 'L' ==> v == s * (if rule.forward then b.left else b.right))
    && (rule.ThreeWay? && x != rule.ppos && |x| > 0 && x[|x| - 1] == 'R' ==> v == s * (if rule.forward then b.right else b.left))
    && (rule.ThreeWay? && x != rule.ppos && |x| > 0 && x[|x| - 1] != 'L' && x[|x| - 1] != 'R' ==> v == s)
  }

  /** Every biased score the loop produces obeys the bias rules. */
  lemma BiasRules(b: Bias, rule: Rule, names: seq<string>, scores: seq<real>, i: nat)
    requires |names| == |scores| && i < |names| && Biased(b, rule, names, scores).Ok?
    ensures BiasRule(b, rule, names[i], scores[i], Biased(b, rule, names, scores).value[i])
  {
    BiasedAt(b, rule, names, scores, i);
    FactorRule(b, rule, names[i], scores[i]);
  }

  lemma FactorRule(b: Bias, rule: Rule, x: string, s: real)
    requires Factor(b, rule, x).Ok?
    ensures BiasRule(b, rule, x, s, Times(s, Factor(b, rule, x).value))
  {
  }

  /** The biases with left and right exchanged. */
  function Mirror(b: Bias): Bias
  {
    b.(left := b.right, right := b.left)
  }

  /** Facing backwards at a three-way node scores the neighbours exactly as facing
      forwards would with the left and right biases exchanged. */
  lemma {:induction false} BackwardIsMirrored(b: Bias, pp: string, names: seq<string>, scores: seq<real>)
    requires |names| == |scores|
    ensures Biased(b, ThreeWay(pp, false), names, scores) == Biased(Mirror(b), ThreeWay(pp, true), names, scores)
  {
    if |names| > 0 {
      var n := |names| - 1;
      BackwardIsMirrored(b, pp, names[..n], scores[..n]);
      assert Factor(b, ThreeWay(pp, false), names[n]) == Factor(Mirror(b), ThreeWay(pp, true), names[n]);
      BiasedUnfold(b, ThreeWay(pp, false), names, scores);
      BiasedUnfold(Mirror(b), ThreeWay(pp, true), names, scores);
    }
  }

  /** Dividing by a non-zero total divides the sum by it. */
  lemma {:induction false} SumScale(s: seq<real>, t: real)
    requires t != 0.0
    ensures Sum(Scale(s, t)) == Sum(s) / t
  {
    if |s| > 0 {
      var n := |s| - 1;
      assert Scale(s, t)[..n] == Scale(s[..n], t);
      SumScale(s[..n], t);
      DivAdd(Sum(s[..n]), s[n], t);
    }
  }

  lemma DivAdd(a: real, c: real, t: real)
    requires t != 0.0
    ensures a / t + c / t == (a + c) / t
  {
  }

  lemma {:induction false} SumNonNegative(s: seq<real>)
    requires forall i :: 0 <= i < |s| ==> s[i] >= 0.0
    ensures Sum(s) >= 0.0
  {
    if |s| > 0 {
      SumNonNegative(s[..|s| - 1]);
    }
  }

  /** The normalised scores of non-negative scores with a positive total are shares:
      none is negative and together they make 1. */
  lemma NormalisedShares(ps: seq<real>)
    requires (forall i :: 0 <= i < |ps| ==> ps[i] >= 0.0) && Sum(ps) != 0.0
    ensures Normalised(ps).Ok? && |Normalised(ps).value| == |ps|
    ensures forall i :: 0 <= i < |ps| ==> Normalised(ps).value[i] >= 0.0
    ensures Sum(Normalised(ps).value) == 1.0
  {
    SumNonNegative(ps);
    SumScale(ps, Sum(ps));
    DivSelf(Sum(ps));
  }

  lemma DivSelf(t: real)
    requires t != 0.0
    ensures t / t == 1.0
  {
  }

  /** The draw comparison is sampling by the cumulative shares: given shares that make 1
      and a draw in [0, 1), neighbour i is picked exactly when the draw falls between
      the sum of the shares before it and that sum plus its own share. */
  lemma PickInterval(p: seq<real>, r: real, i: nat)
    requires 2 <= |p| <= 3 && i < |p|
    requires (forall t :: 0 <= t < |p| ==> p[t] >= 0.0) && Sum(p) == 1.0 && 0.0 <= r < 1.0
    ensures Pick(p, r) == i <==> Sum(p[..i]) <= r < Sum(p[..i + 1])
  {
    SumSmall(p);
    assert p[..|p|] == p;
  }

  /** Among two or three neighbours with non-negative biased scores of positive total,
      a draw in [0, 1) selects neighbour i when it falls in the i-th interval of the
      cumulative shares, the share of neighbour i being its biased score over the total. */
  lemma SampleCdf(b: Bias, rule: Rule, names: seq<string>, scores: seq<real>, r: real, i: nat)
    requires |names| == |scores| && 2 <= |names| <= 3 && i < |names| && 0.0 <= r < 1.0
    requires Biased(b, rule, names, scores).Ok?
    requires var ps := Biased(b, rule, names, scores).value;
      (forall t :: 0 <= t < |ps| ==> ps[t] >= 0.0) && Sum(ps) != 0.0
    ensures var ps := Biased(b, rule, names, scores).value;
      var p := Scale(ps, Sum(ps));
      (forall t :: 0 <= t < |ps| ==> p[t] == ps[t] / Sum(ps)) &&
      (Sum(p[..i]) <= r < Sum(p[..i + 1]) ==> Sample(b, rule, names, scores, r) == Ok(names[i]))
  {
    var ps := Biased(b, rule, names, scores).value;
    NormalisedShares(ps);
    var p := Scale(ps, Sum(ps));
    if Sum(p[..i]) <= r < Sum(p[..i + 1]) {
      PickInterval(p, r, i);
    }
  }

  /** With two neighbours the first is chosen exactly when the draw is below its share. */
  lemma TwoWayRule(b: Bias, names: seq<string>, scores: seq<real>, pos: string, ppos: Option<string>, r: real)
    requires |names| == |scores| == 2 && names[0] != names[1]
    requires Biased(b, TwoWay, names, scores).Ok?
    requires Biased(b, TwoWay, names, scores).value[0] + Biased(b, TwoWay, names, scores).value[1] != 0.0
    ensures var ps := Biased(b, TwoWay, names, scores).value;
      Choose(b, names, scores, pos, ppos, r) == Ok(names[0]) <==> r < ps[0] / (ps[0] + ps[1])
  {
    var ps := Biased(b, TwoWay, names, scores).value;
    SumSmall(ps);
  }
}
