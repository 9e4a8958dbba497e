/**
  The value of observing one check before choosing a route. A fixed route maximises the
  branch-weighted rewards; an adaptive one is chosen anew in every outcome branch.
 */
module Conditioning {

  datatype Outcome = Clean | Altered | Omitted

  datatype Branch = Branch(outcome: Outcome, probability: real, risks: nat -> real)

  datatype Result<T> = Ok(value: T) | Err(error: Error)

  datatype Error = DivisionByZero | NoRoute | ConditioningLowered | NoAlteredBranch

  const ScoreScale: int := 1_000_000

  // ---------------------------------------------------------------- outcome probabilities

  const Outcomes: seq<Outcome> := [Clean, Altered, Omitted]

  /** The likelihood of one outcome before impossible ones are dropped. */
  function Likelihood(mean: real, omission: real, published: bool, outcome: Outcome): real
    requires published ==> omission != 1.0
  {
    match outcome
    case Clean => if published then (1.0 - mean) / (1.0 - omission) else 1.0 - mean
    case Altered => if published then (mean - omission) / (1.0 - omission) else mean - omission
    case Omitted => if published then 0.0 else omission
  }

  ghost function Mass(branches: seq<Branch>): real {
    if branches == [] then 0.0 else Mass(branches[..|branches| - 1]) + branches[|branches| - 1].probability
  }

  lemma MassAppend(branches: seq<Branch>, b: Branch)
    ensures Mass(branches + [b]) == Mass(branches) + b.probability
  {
    assert (branches + [b])[..|branches|] == branches;
  }

  function Kept(p: real): real {
    if p > 0.0 then p else 0.0
  }

  lemma Divide(a: real, b: real, d: real)
    requires d != 0.0
    ensures a / d + b / d == (a + b) / d
    ensures a / d >= 0.0 <==> if d > 0.0 then a >= 0.0 else a <= 0.0
    ensures b / d >= 0.0 <==> if d > 0.0 then b >= 0.0 else b <= 0.0
    ensures a + b == d ==> a / d + b / d == 1.0
  {
    assert (a / d) * d == a && (b / d) * d == b;
  }

  /** No likelihood is negative. */
  ghost predicate Consistent(mean: real, omission: real, published: bool) {
    if published then (omission <= mean <= 1.0 || 1.0 <= mean <= omission) else 0.0 <= omission <= mean <= 1.0
  }

  function Rank(o: Outcome): (k: nat)
    ensures k < |Outcomes| && Outcomes[k] == o
  {
    match o case Clean => 0 case Altered => 1 case Omitted => 2
  }

  /** The kept likelihoods of the first `k` outcomes. */
  ghost function KeptSum(mean: real, omission: real, published: bool, k: nat): real
    requires (published ==> omission != 1.0) && k <= |Outcomes|
  {
    if k == 0 then 0.0
    else KeptSum(mean, omission, published, k - 1) + Kept(Likelihood(mean, omission, published, Outcomes[k - 1]))
  }

  lemma KeptMass(mean: real, omission: real, published: bool)
    requires published ==> omission != 1.0
    ensures KeptSum(mean, omission, published, |Outcomes|) == 1.0 <==> Consistent(mean, omission, published)
  {
    if published {
      Divide(1.0 - mean, mean - omission, 1.0 - omission);
    }
    assert Outcomes[0] == Clean && Outcomes[1] == Altered && Outcomes[2] == Omitted;
    var clean := Kept(Likelihood(mean, omission, published, Clean));
    var altered := Kept(Likelihood(mean, omission, published, Altered));
    assert KeptSum(mean, omission, published, 1) == KeptSum(mean, omission, published, 0) + clean;
    assert KeptSum(mean, omission, published, 2) == clean + altered;
  }

  /** `b` is the branch of an outcome that can happen. */
  ghost predicate IsBranch(mean: real, omission: real, published: bool, posterior: Outcome -> nat -> real, b: Branch)
    requires published ==> omission != 1.0
  {
    b == Branch(b.outcome, Likelihood(mean, omission, published, b.outcome), posterior(b.outcome)) && b.probability > 0.0
  }

  /** The branches of the first `k` outcomes that can happen, in order. */
  ghost function BranchesTo(mean: real, omission: real, published: bool, posterior: Outcome -> nat -> real, k: nat): seq<Branch>
    requires (published ==> omission != 1.0) && k <= |Outcomes|
  {
    if k == 0 then []
    else
      var p := Likelihood(mean, omission, published, Outcomes[k - 1]);
      BranchesTo(mean, omission, published, posterior, k - 1)
      + if p > 0.0 then [Branch(Outcomes[k - 1], p, posterior(Outcomes[k - 1]))] else []
  }

  lemma {:induction false} BranchesMass(mean: real, omission: real, published: bool, posterior: Outcome -> nat -> real, k: nat)
    requires (published ==> omission != 1.0) && k <= |Outcomes|
    ensures Mass(BranchesTo(mean, omission, published, posterior, k)) == KeptSum(mean, omission, published, k)
  {
    if k > 0 {
      BranchesMass(mean, omission, published, posterior, k - 1);
      assert BranchesTo(mean, omission, published, posterior, k - 1) + [] == BranchesTo(mean, omission, published, posterior, k - 1);
      var p := Likelihood(mean, omission, published, Outcomes[k - 1]);
      MassAppend(BranchesTo(mean, omission, published, posterior, k - 1), Branch(Outcomes[k - 1], p, posterior(Outcomes[k - 1])));
    }
  }

  /** Branches whose outcomes come in order, all before the `k`-th. */
  ghost predicate InOrderBelow(branches: seq<Branch>, k: nat) {
    && (forall i :: 0 <= i < |branches| ==> Rank(branches[i].outcome) < k)
    && forall i, j :: 0 <= i < j < |branches| ==> Rank(branches[i].outcome) < Rank(branches[j].outcome)
  }

  lemma NextInOrder(branches: seq<Branch>, b: Branch, k: nat)
    requires InOrderBelow(branches, k) && Rank(b.outcome) == k
    ensures InOrderBelow(branches + [b], k + 1) && InOrderBelow(branches + [], k + 1)
  {
    assert branches + [] == branches;
  }

  lemma {:induction false} BranchesInOrder(mean: real, omission: real, published: bool, posterior: Outcome -> nat -> real, k: nat)
    requires (published ==> omission != 1.0) && k <= |Outcomes|
    ensures InOrderBelow(BranchesTo(mean, omission, published, posterior, k), k)
  {
    hide Likelihood, InOrderBelow;
    if k == 0 {
      assert InOrderBelow([], 0) by { NothingInOrder(); }
    } else {
      BranchesInOrder(mean, omission, published, posterior, k - 1);
      var o := Outcomes[k - 1];
      assert Rank(o) == k - 1;
      NextInOrder(BranchesTo(mean, omission, published, posterior, k - 1), Branch(o, Likelihood(mean, omission, published, o), posterior(o)), k - 1);
    }
  }

  lemma NothingInOrder()
    ensures InOrderBelow([], 0)
  {
  }

  /** The probability the branches give an outcome; zero if it has none. */
  ghost function ChanceOf(branches: seq<Branch>, o: Outcome): real {
    if branches == [] then 0.0
    else ChanceOf(branches[..|branches| - 1], o)
         + if branches[|branches| - 1].outcome == o then branches[|branches| - 1].probability else 0.0
  }

  lemma ChanceAppend(branches: seq<Branch>, b: Branch, o: Outcome)
    ensures ChanceOf(branches + [b], o) == ChanceOf(branches, o) + if b.outcome == o then b.probability else 0.0
    ensures branches + [] == branches
  {
    assert (branches + [b])[..|branches|] == branches;
  }

  lemma {:induction false} BranchesChance(mean: real, omission: real, published: bool, posterior: Outcome -> nat -> real, k: nat, o: Outcome)
    requires (published ==> omission != 1.0) && k <= |Outcomes|
    ensures ChanceOf(BranchesTo(mean, omission, published, posterior, k), o)
         == if Rank(o) < k then Kept(Likelihood(mean, omission, published, o)) else 0.0
  {
    hide Likelihood;
    if k > 0 {
      BranchesChance(mean, omission, published, posterior, k - 1, o);
      var last := Outcomes[k - 1];
      assert Rank(last) == k - 1 && (Rank(o) == k - 1 ==> o == last);
      ChanceAppend(BranchesTo(mean, omission, published, posterior, k - 1),
                   Branch(last, Likelihood(mean, omission, published, last), posterior(last)), o);
    }
  }

  /** The branches' chances: an altered or omitted report together have the mean risk, and a published one cannot be omitted. */
  ghost predicate HasChances(branches: seq<Branch>, mean: real, omission: real, published: bool) {
    var clean, altered, omitted := ChanceOf(branches, Clean), ChanceOf(branches, Altered), ChanceOf(branches, Omitted);
    if published then
      omitted == 0.0 && clean * (1.0 - omission) == 1.0 - mean && altered * (1.0 - omission) == mean - omission
    else
      omitted == omission && altered + omitted == mean && clean == 1.0 - mean
  }

  lemma BranchesHaveChances(mean: real, omission: real, published: bool, posterior: Outcome -> nat -> real)
    requires published ==> omission != 1.0
    ensures HasChances(BranchesTo(mean, omission, published, posterior, |Outcomes|), mean, omission, published)
       <==> Consistent(mean, omission, published)
  {
    hide BranchesTo, ChanceOf;
    var n := |Outcomes|;
    BranchesChance(mean, omission, published, posterior, n, Clean);
    BranchesChance(mean, omission, published, posterior, n, Altered);
    BranchesChance(mean, omission, published, posterior, n, Omitted);
    if published {
      PublishedChances(mean, omission);
    }
  }

  lemma PublishedChances(mean: real, omission: real)
    requires omission != 1.0
    ensures Kept(Likelihood(mean, omission, true, Clean)) * (1.0 - omission) == 1.0 - mean
            && Kept(Likelihood(mean, omission, true, Altered)) * (1.0 - omission) == mean - omission
       <==> Consistent(mean, omission, true)
  {
    hide Kept;
    Quotient(1.0 - mean, 1.0 - omission);
    Quotient(mean - omission, 1.0 - omission);
  }

  lemma Quotient(a: real, d: real)
    requires d != 0.0
    ensures Kept(a / d) * d == a <==> if d > 0.0 then a >= 0.0 else a <= 0.0
  {
    assert (a / d) * d == a;
  }

  lemma {:induction false} BranchesAre(mean: real, omission: real, published: bool, posterior: Outcome -> nat -> real, k: nat, b: Branch)
    requires (published ==> omission != 1.0) && k <= |Outcomes|
    ensures b in BranchesTo(mean, omission, published, posterior, k)
       <==> IsBranch(mean, omission, published, posterior, b) && Rank(b.outcome) < k
  {
    hide Likelihood;
    if k > 0 {
      BranchesAre(mean, omission, published, posterior, k - 1, b);
      assert Rank(Outcomes[k - 1]) == k - 1 && (Rank(b.outcome) == k - 1 ==> b.outcome == Outcomes[k - 1]);
    }
  }

  /**
    The outcomes that can happen and their probabilities, with the risks believed after each. The
    probabilities are positive; they add up to one, and give each outcome its chance, exactly when no
    likelihood was negative.
   */
  method OutcomeBranches(mean: real, omission: real, published: bool, posterior: Outcome -> nat -> real)
    returns (result: Result<seq<Branch>>)
    ensures result == Err(DivisionByZero) <==> published && omission == 1.0
    ensures result.Err? ==> result == Err(DivisionByZero)
    ensures result.Ok? ==> forall b :: b in result.value <==> IsBranch(mean, omission, published, posterior, b)
    ensures result.Ok? ==> forall i, j :: 0 <= i < j < |result.value| ==> result.value[i].outcome != result.value[j].outcome
    ensures result.Ok? ==> (Mass(result.value) == 1.0 <==> Consistent(mean, omission, published))
    ensures result.Ok? ==> (HasChances(result.value, mean, omission, published) <==> Consistent(mean, omission, published))
    ensures result.Ok? ==> result.value == BranchesTo(mean, omission, published, posterior, |Outcomes|)
  {
    if published && omission == 1.0 {
      return Err(DivisionByZero);
    }
    var branches: seq<Branch> := [];
    for k := 0 to |Outcomes|
      invariant branches == BranchesTo(mean, omission, published, posterior, k)
    {
      var probability := Likelihood(mean, omission, published, Outcomes[k]);
      if probability > 0.0 {
        branches := branches + [Branch(Outcomes[k], probability, posterior(Outcomes[k]))];
      }
    }
    BranchesMass(mean, omission, published, posterior, |Outcomes|);
    BranchesInOrder(mean, omission, published, posterior, |Outcomes|);
    forall b
      ensures b in branches <==> IsBranch(mean, omission, published, posterior, b)
    {
      BranchesAre(mean, omission, published, posterior, |Outcomes|, b);
    }
    KeptMass(mean, omission, published);
    BranchesHaveChances(mean, omission, published, posterior);
    hide HasChances, ChanceOf;
    return Ok(branches);
  }

  // ---------------------------------------------------------------- the two route choices

  function Floor(x: real): (n: int)
    ensures n as real <= x < n as real + 1.0
  {
    x.Floor
  }

  /** Rounding to the nearest integer, a tie to the even one. */
  function Round(x: real): (n: int)
    ensures -0.5 <= n as real - x <= 0.5
  {
    var below := Floor(x);
    var rest := x - below as real;
    if rest < 0.5 || (rest == 0.5 && below % 2 == 0) then below else below + 1
  }

  lemma RoundIsNearest(x: real, n: int)
    ensures n as real == x ==> Round(x) == n
    ensures -0.5 < n as real - x < 0.5 ==> Round(x) == n
    ensures n as real - x == 0.5 || n as real - x == -0.5 ==> Round(x) % 2 == 0
  {
  }

  /** A candidate is the ships its reports are about; its recall utility is half their summed risk. */
  function RiskSum(reports: seq<nat>, risks: nat -> real): real
  {
    if reports == [] then 0.0 else risks(reports[0]) + RiskSum(reports[1..], risks)
  }

  function Units(reports: seq<nat>, risks: nat -> real): int
  {
    Round(0.5 * RiskSum(reports, risks) * ScoreScale as real)
  }

  /** A candidate's risk is that of its reports added up, whatever their order. */
  lemma {:induction false} RisksAdd(a: seq<nat>, b: seq<nat>, risks: nat -> real)
    ensures RiskSum(a + b, risks) == RiskSum(a, risks) + RiskSum(b, risks)
    ensures |a| == 1 ==> RiskSum(a, risks) == risks(a[0])
  {
    if a == [] {
      assert a + b == b;
    } else {
      assert (a + b)[0] == a[0] && (a + b)[1..] == a[1..] + b;
      RisksAdd(a[1..], b, risks);
    }
  }

  /** A unit of score is a millionth of a utility, which is half the risk. */
  lemma UnitsAreHalfRisk(reports: seq<nat>, risks: nat -> real)
    ensures -0.5 <= Units(reports, risks) as real - 500_000.0 * RiskSum(reports, risks) <= 0.5
  {
  }

  /** Routes visit candidates in increasing order. */
  ghost predicate IsRoute(route: seq<nat>, candidateCount: nat) {
    forall i, j :: 0 <= i <= j < |route| ==> route[i] < candidateCount && (i < j ==> route[i] < route[j])
  }

  ghost predicate AreRoutes(routes: seq<seq<nat>>, candidateCount: nat) {
    forall r :: r in routes ==> IsRoute(r, candidateCount)
  }

  lemma {:induction false} RouteLength(route: seq<nat>, candidateCount: nat)
    requires IsRoute(route, candidateCount)
    ensures |route| <= candidateCount
  {
    if route != [] {
      var last := |route| - 1;
      RouteLength(route[..last], route[last]);
    }
  }

  /** The integer score of a route. */
  function Score(units: seq<int>, route: seq<nat>): int
    requires forall i :: 0 <= i < |route| ==> route[i] < |units|
  {
    if route == [] then 0 else Score(units, route[..|route| - 1]) + units[route[|route| - 1]]
  }

  function RealScore(weights: seq<real>, route: seq<nat>): real
    requires forall i :: 0 <= i < |route| ==> route[i] < |weights|
  {
    if route == [] then 0.0 else RealScore(weights, route[..|route| - 1]) + weights[route[|route| - 1]]
  }

  /** An exact route search: the best score over the routes. */
  function Best(units: seq<int>, routes: seq<seq<nat>>): (best: int)
    requires routes != [] && AreRoutes(routes, |units|)
    ensures exists r :: r in routes && Score(units, r) == best
    ensures forall r :: r in routes ==> Score(units, r) <= best
  {
    var last := routes[|routes| - 1];
    assert IsRoute(last, |units|);
    if |routes| == 1 then Score(units, last)
    else
      var init := routes[..|routes| - 1];
      assert routes == init + [last];
      var rest := Best(units, init);
      if Score(units, last) > rest then Score(units, last) else rest
  }

  /** The rounded rewards of all candidates under the risks of one branch. */
  function BranchUnits(candidates: seq<seq<nat>>, risks: nat -> real): (units: seq<int>)
    ensures |units| == |candidates|
    ensures forall i :: 0 <= i < |candidates| ==> units[i] == Units(candidates[i], risks)
  {
    seq(|candidates|, i requires 0 <= i < |candidates| => Units(candidates[i], risks))
  }

  /** A branch's share of the expected score, from the integer score of its best route. */
  function Expected(probability: real, units: int): real {
    probability * (units as real / ScoreScale as real)
  }

  /** A branch's share of a candidate's reward, in score units. */
  function Share(probability: real, units: int): real {
    probability * units as real
  }

  lemma ExpectedIsShare(probability: real, units: int)
    ensures Expected(probability, units) * ScoreScale as real == Share(probability, units)
  {
  }

  lemma ShareMonotone(probability: real, a: int, b: int)
    requires probability >= 0.0 && a <= b
    ensures Share(probability, a) <= Share(probability, b)
  {
  }

  /** The scores of the best routes, each weighted with the probability of its branch. */
  ghost function Adaptive(candidates: seq<seq<nat>>, routes: seq<seq<nat>>, branches: seq<Branch>): real
    requires routes != [] && AreRoutes(routes, |candidates|)
  {
    if branches == [] then 0.0
    else
      var last := |branches| - 1;
      Adaptive(candidates, routes, branches[..last])
      + Expected(branches[last].probability, Best(BranchUnits(candidates, branches[last].risks), routes))
  }

  /** The branch-weighted reward of one candidate. */
  ghost function Weighted(reports: seq<nat>, branches: seq<Branch>): real
  {
    if branches == [] then 0.0
    else
      var last := |branches| - 1;
      Weighted(reports, branches[..last]) + Share(branches[last].probability, Units(reports, branches[last].risks))
  }

  /** What a route committed to in advance is worth: its score weighted over the branches. */
  ghost function Committed(candidates: seq<seq<nat>>, branches: seq<Branch>, route: seq<nat>): real
    requires IsRoute(route, |candidates|)
  {
    RealScore(WeightedAll(candidates, branches), route)
  }

  ghost function WeightedAll(candidates: seq<seq<nat>>, branches: seq<Branch>): (w: seq<real>)
    ensures |w| == |candidates| && forall i :: 0 <= i < |w| ==> w[i] == Weighted(candidates[i], branches)
  {
    seq(|candidates|, i requires 0 <= i < |candidates| => Weighted(candidates[i], branches))
  }

  lemma {:induction false} RealScoreAdds(w: seq<real>, w': seq<real>, p: real, units: seq<int>, route: seq<nat>)
    requires |w| == |w'| == |units| && IsRoute(route, |units|)
    requires forall i :: 0 <= i < |w| ==> w'[i] == w[i] + Share(p, units[i])
    ensures RealScore(w', route) == RealScore(w, route) + Share(p, Score(units, route))
  {
    hide Share;
    if route == [] {
      ShareAdds(p, 0, 0);
    } else {
      var init := route[..|route| - 1];
      RealScoreAdds(w, w', p, units, init);
      ShareAdds(p, Score(units, init), units[route[|route| - 1]]);
    }
  }

  lemma ShareAdds(probability: real, a: int, b: int)
    ensures Share(probability, a + b) == Share(probability, a) + Share(probability, b)
    ensures Share(probability, 0) == 0.0
  {
    assert (a + b) as real == a as real + b as real;
  }

  /** The score of a route in every branch, weighted with the branch's probability. */
  ghost function ScoreByBranch(candidates: seq<seq<nat>>, branches: seq<Branch>, route: seq<nat>): real
    requires IsRoute(route, |candidates|)
  {
    if branches == [] then 0.0
    else
      var last := branches[|branches| - 1];
      ScoreByBranch(candidates, branches[..|branches| - 1], route)
      + last.probability * Score(BranchUnits(candidates, last.risks), route) as real
  }

  /** Weighting candidates and then adding them up is adding them up in every branch and then weighting. */
  lemma {:induction false} CommittedIsByBranch(candidates: seq<seq<nat>>, branches: seq<Branch>, route: seq<nat>)
    requires IsRoute(route, |candidates|)
    ensures Committed(candidates, branches, route) == ScoreByBranch(candidates, branches, route)
  {
    hide Score, RealScore, Units;
    if branches == [] {
      ZeroScore(WeightedAll(candidates, branches), route);
    } else {
      var init, last := branches[..|branches| - 1], branches[|branches| - 1];
      CommittedIsByBranch(candidates, init, route);
      RealScoreAdds(WeightedAll(candidates, init), WeightedAll(candidates, branches), last.probability,
                    BranchUnits(candidates, last.risks), route);
    }
  }

  /** The score of a route is that of its candidates added up. */
  lemma {:induction false} ScoresAdd(units: seq<int>, a: seq<nat>, b: seq<nat>)
    requires forall i :: 0 <= i < |a| ==> a[i] < |units|
    requires forall i :: 0 <= i < |b| ==> b[i] < |units|
    ensures forall i :: 0 <= i < |a + b| ==> (a + b)[i] < |units|
    ensures Score(units, a + b) == Score(units, a) + Score(units, b)
    ensures |b| == 1 ==> Score(units, b) == units[b[0]]
  {
    if b == [] {
      assert a + b == a;
    } else {
      var last := |b| - 1;
      ScoresAdd(units, a, b[..last]);
      assert (a + b)[..|a + b| - 1] == a + b[..last];
    }
  }

  lemma {:induction false} ZeroScore(w: seq<real>, route: seq<nat>)
    requires IsRoute(route, |w|) && forall i :: 0 <= i < |w| ==> w[i] == 0.0
    ensures RealScore(w, route) == 0.0
  {
    if route != [] {
      ZeroScore(w, route[..|route| - 1]);
    }
  }

  /** A route committed to in advance is worth no more than choosing anew in each branch. */
  lemma {:induction false} CommittedAtMostAdaptive(candidates: seq<seq<nat>>, routes: seq<seq<nat>>,
                                                   branches: seq<Branch>, route: seq<nat>)
    requires routes != [] && AreRoutes(routes, |candidates|)
    requires route in routes && forall b :: b in branches ==> b.probability >= 0.0
    ensures Committed(candidates, branches, route) <= Adaptive(candidates, routes, branches) * ScoreScale as real
    ensures (forall b, r :: b in branches && r in routes ==>
               Score(BranchUnits(candidates, b.risks), r) <= Score(BranchUnits(candidates, b.risks), route))
            ==> Committed(candidates, branches, route) == Adaptive(candidates, routes, branches) * ScoreScale as real
  {
    hide Share, Expected, Best, Score, RealScore, Units;
    if branches == [] {
      ZeroScore(WeightedAll(candidates, branches), route);
    } else {
      var init, last := branches[..|branches| - 1], branches[|branches| - 1];
      assert last in branches && forall b :: b in init ==> b in branches;
      CommittedAtMostAdaptive(candidates, routes, init, route);
      var units := BranchUnits(candidates, last.risks);
      RealScoreAdds(WeightedAll(candidates, init), WeightedAll(candidates, branches), last.probability, units, route);
      var best := Best(units, routes);
      ShareMonotone(last.probability, Score(units, route), best);
      ExpectedIsShare(last.probability, best);
    }
  }

  function RoundAll(w: seq<real>): (units: seq<int>)
    ensures |units| == |w| && forall i :: 0 <= i < |w| ==> units[i] == Round(w[i])
  {
    seq(|w|, i requires 0 <= i < |w| => Round(w[i]))
  }

  /** Rounding every candidate's reward moves a route's score by at most half a unit per candidate. */
  lemma {:induction false} RoundingError(w: seq<real>, route: seq<nat>)
    requires IsRoute(route, |w|)
    ensures RealScore(w, route) - 0.5 * |route| as real <= Score(RoundAll(w), route) as real
         <= RealScore(w, route) + 0.5 * |route| as real
  {
    if route != [] {
      RoundingError(w, route[..|route| - 1]);
    }
  }

  /** The fixed choice is worth the best committed route, up to half a unit per candidate. */
  lemma FixedIsBestCommitted(candidates: seq<seq<nat>>, routes: seq<seq<nat>>, branches: seq<Branch>)
    requires routes != [] && AreRoutes(routes, |candidates|)
    ensures var fixed := Best(RoundAll(WeightedAll(candidates, branches)), routes) as real;
            var slack := 0.5 * |candidates| as real;
            && (forall r :: r in routes ==> Committed(candidates, branches, r) - slack <= fixed)
            && (exists r :: r in routes && fixed <= Committed(candidates, branches, r) + slack)
  {
    var w := WeightedAll(candidates, branches);
    var units := RoundAll(w);
    var fixed := Best(units, routes);
    assert exists r :: r in routes && Score(units, r) == fixed;
    forall r | r in routes
      ensures Committed(candidates, branches, r) - 0.5 * |candidates| as real <= Score(RoundAll(w), r) as real
           <= Committed(candidates, branches, r) + 0.5 * |candidates| as real
    {
      RoundingError(w, r);
      RouteLength(r, |candidates|);
    }
  }

  /** Conditioning never loses more than half a unit of score per candidate, and gains nothing when one route is always best. */
  lemma ConditioningNeverLoses(candidates: seq<seq<nat>>, routes: seq<seq<nat>>, branches: seq<Branch>)
    requires routes != [] && AreRoutes(routes, |candidates|)
    requires forall b :: b in branches ==> b.probability >= 0.0
    ensures var fixed := Best(RoundAll(WeightedAll(candidates, branches)), routes) as real;
            var adaptive := Adaptive(candidates, routes, branches) * ScoreScale as real;
            var slack := 0.5 * |candidates| as real;
            && fixed <= adaptive + slack
            && ((exists best :: best in routes && forall b, r :: b in branches && r in routes ==>
                   Score(BranchUnits(candidates, b.risks), r) <= Score(BranchUnits(candidates, b.risks), best))
                ==> adaptive <= fixed + slack)
  {
    FixedIsBestCommitted(candidates, routes, branches);
    forall r | r in routes
      ensures Committed(candidates, branches, r) <= Adaptive(candidates, routes, branches) * ScoreScale as real
      ensures (forall b, r' :: b in branches && r' in routes ==>
                 Score(BranchUnits(candidates, b.risks), r') <= Score(BranchUnits(candidates, b.risks), r))
              ==> Committed(candidates, branches, r) == Adaptive(candidates, routes, branches) * ScoreScale as real
    {
      CommittedAtMostAdaptive(candidates, routes, branches, r);
    }
  }

  // ---------------------------------------------------------------- the diagnostic

  datatype Inspection = Inspection(adaptive: real, fixed: real, decisionValue: real, tolerance: real)

  lemma WeightedStep(candidates: seq<seq<nat>>, branches: seq<Branch>, k: nat, i: nat)
    requires k < |branches| && i < |candidates|
    ensures Weighted(candidates[i], branches[..k + 1])
         == Weighted(candidates[i], branches[..k]) + Share(branches[k].probability, Units(candidates[i], branches[k].risks))
  {
    hide Expected, Best, Share, Units;
    assert branches[..k + 1][..k] == branches[..k];
  }

  lemma AdaptiveStep(candidates: seq<seq<nat>>, routes: seq<seq<nat>>, branches: seq<Branch>, k: nat)
    requires routes != [] && AreRoutes(routes, |candidates|) && k < |branches|
    ensures Adaptive(candidates, routes, branches[..k + 1])
         == Adaptive(candidates, routes, branches[..k])
          + Expected(branches[k].probability, Best(BranchUnits(candidates, branches[k].risks), routes))
  {
    hide Expected, Best, Share, Units;
    assert branches[..k + 1][..k] == branches[..k];
  }

  lemma NoBranches(candidates: seq<seq<nat>>, routes: seq<seq<nat>>)
    requires routes != [] && AreRoutes(routes, |candidates|)
    ensures Adaptive(candidates, routes, []) == 0.0
    ensures forall c :: Weighted(c, []) == 0.0
  {
  }

  lemma ScaleBack(w: seq<real>, scaled: seq<int>)
    requires |scaled| == |w|
    requires forall i :: 0 <= i < |w| ==> scaled[i] == Round((w[i] / ScoreScale as real) * ScoreScale as real)
    ensures scaled == RoundAll(w)
  {
  }

  /**
    Compares choosing the route after the outcome with choosing it before. The check that the
    first is never worse, up to the rounding tolerance, does not fail.
   */
  method InspectEntity(candidates: seq<seq<nat>>, routes: seq<seq<nat>>, branches: seq<Branch>)
    returns (result: Result<Inspection>)
    requires AreRoutes(routes, |candidates|)
    requires forall b :: b in branches ==> b.probability >= 0.0
    ensures result.Err? <==> routes == []
    ensures result.Err? ==> result.error == NoRoute
    ensures result.Ok? ==>
              && result.value.adaptive == Adaptive(candidates, routes, branches)
              && result.value.fixed * ScoreScale as real == Best(RoundAll(WeightedAll(candidates, branches)), routes) as real
              && result.value.decisionValue == result.value.adaptive - result.value.fixed
              && result.value.tolerance * ScoreScale as real == |candidates| as real
              && result.value.decisionValue >= -0.5 * result.value.tolerance
  {
    hide Expected, Share, Best, Adaptive, Weighted, Units, Round, AreRoutes;
    if routes == [] {
      return Err(NoRoute);
    }
    var adaptive := 0.0;
    assert branches[..0] == [];
    var weighted: seq<real> := seq(|candidates|, i => 0.0);
    NoBranches(candidates, routes);
    for k := 0 to |branches|
      invariant adaptive == Adaptive(candidates, routes, branches[..k])
      invariant |weighted| == |candidates|
      invariant forall i :: 0 <= i < |weighted| ==> weighted[i] == Weighted(candidates[i], branches[..k])
    {
      var Branch(_, probability, risks) := branches[k];
      assert branches[k] in branches;
      AdaptiveStep(candidates, routes, branches, k);
      adaptive := adaptive + Expected(probability, Best(BranchUnits(candidates, risks), routes));
      for index := 0 to |candidates|
        invariant |weighted| == |candidates|
        invariant forall i :: 0 <= i < index ==> weighted[i] == Weighted(candidates[i], branches[..k + 1])
        invariant forall i :: index <= i < |weighted| ==> weighted[i] == Weighted(candidates[i], branches[..k])
      {
        WeightedStep(candidates, branches, k, index);
        weighted := weighted[index := weighted[index] + Share(probability, Units(candidates[index], risks))];
      }
    }
    assert branches[..|branches|] == branches;
    assert weighted == WeightedAll(candidates, branches);
    var units := seq(|weighted|, i requires 0 <= i < |weighted| =>
      Round((weighted[i] / ScoreScale as real) * ScoreScale as real));
    ScaleBack(weighted, units);
    var fixed := Best(units, routes) as real / ScoreScale as real;
    var tolerance := |candidates| as real / ScoreScale as real;
    ConditioningNeverLoses(candidates, routes, branches);
    if adaptive + tolerance < fixed {
      return Err(ConditioningLowered);
    }
    return Ok(Inspection(adaptive, fixed, adaptive - fixed, tolerance));
  }

  /** The chance that the observed report turns out altered, at half weight. */
  function Immediate(branches: seq<Branch>): Result<real> {
    if branches == [] then Err(NoAlteredBranch)
    else if branches[0].outcome == Altered then Ok(0.5 * branches[0].probability)
    else Immediate(branches[1..])
  }

  lemma {:induction false} ImmediateIsAltered(branches: seq<Branch>)
    ensures Immediate(branches).Err? <==> forall b :: b in branches ==> b.outcome != Altered
    ensures Immediate(branches).Err? ==> Immediate(branches).error == NoAlteredBranch
    ensures Immediate(branches).Ok? ==>
              exists b :: b in branches && b.outcome == Altered && Immediate(branches).value == 0.5 * b.probability
  {
    if branches != [] {
      assert branches == [branches[0]] + branches[1..];
      ImmediateIsAltered(branches[1..]);
    }
  }

  datatype Row = Row(immediate: real, adaptiveTotal: real, fixedTotal: real, tolerance: real)

  /**
    Prices one published check. The row exists exactly when the report can be missing or present,
    some route is left and an altered report is possible; it never loses by conditioning.
   */
  method InspectAcquisition(candidates: seq<seq<nat>>, routes: seq<seq<nat>>, mean: real, omission: real,
                            posterior: Outcome -> nat -> real)
    returns (result: Result<Row>)
    requires AreRoutes(routes, |candidates|)
    ensures result.Err? <==> omission == 1.0 || routes == [] || (mean - omission) / (1.0 - omission) <= 0.0
    ensures result.Err? ==> result.error == if omission == 1.0 then DivisionByZero else if routes == [] then NoRoute
                                            else NoAlteredBranch
    ensures result.Ok? ==>
              && result.value.immediate == 0.5 * ((mean - omission) / (1.0 - omission))
              && result.value.tolerance * ScoreScale as real == |candidates| as real
              && result.value.adaptiveTotal + 0.5 * result.value.tolerance >= result.value.fixedTotal
              && var branches := BranchesTo(mean, omission, true, posterior, |Outcomes|);
                 && result.value.adaptiveTotal == result.value.immediate + Adaptive(candidates, routes, branches)
                 && (result.value.fixedTotal - result.value.immediate) * ScoreScale as real
                    == Best(RoundAll(WeightedAll(candidates, branches)), routes) as real
  {
    var outcomes := OutcomeBranches(mean, omission, true, posterior);
    if outcomes.Err? {
      return Err(outcomes.error);
    }
    var inspected := InspectEntity(candidates, routes, outcomes.value);
    if inspected.Err? {
      return Err(inspected.error);
    }
    var immediate := Immediate(outcomes.value);
    ImmediateIsAltered(outcomes.value);
    ghost var altered := Branch(Altered, Likelihood(mean, omission, true, Altered), posterior(Altered));
    assert IsBranch(mean, omission, true, posterior, altered) <==> altered in outcomes.value;
    if immediate.Err? {
      return Err(immediate.error);
    }
    var Inspection(adaptive, fixed, _, tolerance) := inspected.value;
    return Ok(Row(immediate.value, immediate.value + adaptive, immediate.value + fixed, tolerance));
  }
}
