/** What a walk through the candidate graph is worth, read off the walk itself. */
module RouteWorth {
  import opened RouteFlow
  import opened Envelope

  /** The base rewards of the candidates on a walk, each once. */
  function BaseWorth(base: seq<int>, p: seq<nat>): int {
    if p == [] then 0
    else
      BaseWorth(base, p[1..]) + if 1 <= p[0] <= |base| && p[0] !in p[1..] then base[p[0] - 1] else 0
  }

  ghost predicate IsReference(rewards: Rewards, p: seq<nat>, s: nat, r: nat)
    requires r < |rewards.rc| == |rewards.rs|
  {
    rewards.rs[r] == s && rewards.rc[r] in p
  }

  /** The references that check ship `s` and belong to a candidate on the walk. */
  ghost function References(rewards: Rewards, p: seq<nat>, s: nat): set<nat>
    requires |rewards.rc| == |rewards.rs|
  {
    set r: nat | r < |rewards.rc| && IsReference(rewards, p, s, r)
  }

  /** No ship is checked more often than its table has entries for. */
  ghost predicate WithinTables(rewards: Rewards, p: seq<nat>)
    requires WellFormed(rewards)
  {
    forall s: nat :: 1 <= s <= |rewards.gain| ==> |References(rewards, p, s)| < |rewards.gain[s - 1]|
  }

  /** The gains of the first `n` ships, each at the number of its checks on the walk. */
  ghost function InformationWorth(rewards: Rewards, p: seq<nat>, n: nat): int
    requires WellFormed(rewards) && WithinTables(rewards, p) && n <= |rewards.gain|
  {
    if n == 0 then 0 else InformationWorth(rewards, p, n - 1) + rewards.gain[n - 1][|References(rewards, p, n)|]
  }

  ghost function Worth(rewards: Rewards, p: seq<nat>): int
    requires WellFormed(rewards) && WithinTables(rewards, p)
  {
    BaseWorth(rewards.base, p) + InformationWorth(rewards, p, |rewards.gain|)
  }

  // ---------------------------------------------------------------- base rewards

  ghost function Marks(n: nat, p: seq<nat>): (selected: seq<int>)
    ensures Selects(n, p, selected)
  {
    seq(n, i requires 0 <= i < n => if i + 1 in p then 1 else 0)
  }

  lemma {:induction false} BaseUnchanged(base: seq<int>, a: seq<int>, b: seq<int>, n: nat)
    requires n <= |base| == |a| == |b| && forall i :: 0 <= i < n ==> a[i] == b[i]
    ensures BaseReward(base, a, n) == BaseReward(base, b, n)
  {
    if n > 0 {
      BaseUnchanged(base, a, b, n - 1);
    }
  }

  /** Selecting one more candidate adds its base reward. */
  lemma {:induction false} BaseGrows(base: seq<int>, a: seq<int>, b: seq<int>, k: nat, n: nat)
    requires k < n <= |base| == |a| == |b| && b[k] == a[k] + 1
    requires forall i :: 0 <= i < n && i != k ==> a[i] == b[i]
    ensures BaseReward(base, b, n) == BaseReward(base, a, n) + base[k]
  {
    if k == n - 1 {
      BaseUnchanged(base, a, b, n - 1);
      assert base[k] * b[k] == base[k] * a[k] + base[k];
    } else {
      BaseGrows(base, a, b, k, n - 1);
    }
  }

  lemma {:induction false} NoBase(base: seq<int>, selected: seq<int>, n: nat)
    requires n <= |base| == |selected| && forall i :: 0 <= i < n ==> selected[i] == 0
    ensures BaseReward(base, selected, n) == 0
  {
    if n > 0 {
      NoBase(base, selected, n - 1);
    }
  }

  lemma SelectedAre(n: nat, p: seq<nat>, selected: seq<int>)
    requires Selects(n, p, selected)
    ensures |selected| == n && forall i :: 0 <= i < n ==> selected[i] == if i + 1 in p then 1 else 0
  {
    forall i | 0 <= i < n
      ensures selected[i] == if i + 1 in p then 1 else 0
    {
      assert selected[(i + 1) - 1] == if i + 1 in p then 1 else 0;
    }
  }

  lemma {:induction false} BaseIsWorth(base: seq<int>, p: seq<nat>, selected: seq<int>)
    requires Selects(|base|, p, selected)
    ensures BaseReward(base, selected, |base|) == BaseWorth(base, p)
    decreases |p|
  {
    hide Selects, BaseReward;
    SelectedAre(|base|, p, selected);
    if p == [] {
      NoBase(base, selected, |base|);
    } else {
      var rest := Marks(|base|, p[1..]);
      BaseIsWorth(base, p[1..], rest);
      SelectedAre(|base|, p[1..], rest);
      hide BaseWorth;
      WorthStep(base, p);
      assert p == [p[0]] + p[1..];
      if 1 <= p[0] <= |base| && p[0] !in p[1..] {
        BaseGrows(base, rest, selected, p[0] - 1, |base|);
      } else {
        BaseUnchanged(base, rest, selected, |base|);
      }
    }
  }

  lemma WorthStep(base: seq<int>, p: seq<nat>)
    requires p != []
    ensures BaseWorth(base, p) == BaseWorth(base, p[1..]) + if 1 <= p[0] <= |base| && p[0] !in p[1..] then base[p[0] - 1] else 0
  {
  }

  // ---------------------------------------------------------------- checks

  ghost function FirstReferences(rewards: Rewards, p: seq<nat>, s: nat, n: nat): set<nat>
    requires n <= |rewards.rc| == |rewards.rs|
  {
    set r: nat | r < n && IsReference(rewards, p, s, r)
  }

  lemma {:induction false} ChecksCount(rewards: Rewards, p: seq<nat>, selected: seq<int>, s: nat, n: nat)
    requires Fits(rewards, selected) && Selects(|rewards.base|, p, selected) && n <= |rewards.rc|
    ensures Checks(rewards, selected, s, n) == |FirstReferences(rewards, p, s, n)|
  {
    if n == 0 {
      assert FirstReferences(rewards, p, s, 0) == {};
    } else {
      hide FirstReferences, Selects, WellFormed;
      ChecksCount(rewards, p, selected, s, n - 1);
      ReferencesStep(rewards, p, s, n);
      SelectedAt(rewards, p, selected, n - 1);
    }
  }

  lemma ReferencesStep(rewards: Rewards, p: seq<nat>, s: nat, n: nat)
    requires 0 < n <= |rewards.rc| == |rewards.rs|
    ensures |FirstReferences(rewards, p, s, n)| == |FirstReferences(rewards, p, s, n - 1)|
                                                 + if IsReference(rewards, p, s, n - 1) then 1 else 0
  {
    hide IsReference;
    var before, after := FirstReferences(rewards, p, s, n - 1), FirstReferences(rewards, p, s, n);
    if IsReference(rewards, p, s, n - 1) {
      assert after == before + {n - 1} && n - 1 !in before;
    } else {
      assert after == before;
    }
  }

  lemma SelectedAt(rewards: Rewards, p: seq<nat>, selected: seq<int>, r: nat)
    requires Fits(rewards, selected) && Selects(|rewards.base|, p, selected) && r < |rewards.rc|
    ensures 1 <= rewards.rc[r] <= |selected| && selected[rewards.rc[r] - 1] == if rewards.rc[r] in p then 1 else 0
  {
  }

  lemma CheckCountIs(rewards: Rewards, p: seq<nat>, selected: seq<int>, s: nat)
    requires Fits(rewards, selected) && Selects(|rewards.base|, p, selected)
    ensures CheckCount(rewards, selected, s) == |References(rewards, p, s)|
  {
    ChecksCount(rewards, p, selected, s, |rewards.rc|);
    assert FirstReferences(rewards, p, s, |rewards.rc|) == References(rewards, p, s);
  }

  /** The solver's domain of the check counts admits exactly the walks within the tables. */
  lemma DomainIsTables(rewards: Rewards, p: seq<nat>, selected: seq<int>)
    requires Fits(rewards, selected) && Selects(|rewards.base|, p, selected)
    ensures ChecksInDomain(rewards, selected) <==> WithinTables(rewards, p)
  {
    forall s: nat
      ensures CheckCount(rewards, selected, s) == |References(rewards, p, s)|
    {
      CheckCountIs(rewards, p, selected, s);
    }
  }

  lemma {:induction false} LookupIsWorth(rewards: Rewards, p: seq<nat>, selected: seq<int>, n: nat)
    requires Fits(rewards, selected) && Selects(|rewards.base|, p, selected) && n <= |rewards.gain|
    requires ChecksInDomain(rewards, selected) && WithinTables(rewards, p)
    ensures LookupReward(rewards, selected, n) == InformationWorth(rewards, p, n)
  {
    if n > 0 {
      LookupIsWorth(rewards, p, selected, n - 1);
      CheckCountIs(rewards, p, selected, n);
    }
  }

  /** The solver's objective for the candidates of a walk is what the walk is worth. */
  lemma ObjectiveIsWorth(rewards: Rewards, p: seq<nat>, selected: seq<int>)
    requires Fits(rewards, selected) && Selects(|rewards.base|, p, selected)
    ensures ChecksInDomain(rewards, selected) <==> WithinTables(rewards, p)
    ensures ChecksInDomain(rewards, selected) ==> LookupObjective(rewards, selected) == Worth(rewards, p)
  {
    DomainIsTables(rewards, p, selected);
    BaseIsWorth(rewards.base, p, selected);
    if ChecksInDomain(rewards, selected) {
      LookupIsWorth(rewards, p, selected, |rewards.gain|);
    }
  }
}
