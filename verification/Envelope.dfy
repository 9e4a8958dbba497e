/**
  Two encodings of the information reward. The lookup model reads the gain table at the number of
  selected reports of a ship; the envelope model bounds a free variable by one line per table step.
 */
module Envelope {

  /** Gains do not grow faster later in the table; the envelope model asserts this. */
  ghost predicate Concave(gain: seq<int>) {
    forall k :: 2 <= k < |gain| ==> Step(gain, k) <= Step(gain, k - 1)
  }

  ghost predicate NonNegative(gain: seq<int>) {
    forall k :: 0 <= k < |gain| ==> 0 <= gain[k]
  }

  function Step(gain: seq<int>, k: nat): int
    requires 1 <= k < |gain|
  {
    gain[k] - gain[k - 1]
  }

  /** The line through the table entries `k-1` and `k`, at `n`. */
  function Line(gain: seq<int>, k: nat, n: nat): int
    requires 1 <= k < |gain|
  {
    gain[k - 1] + (n - k + 1) * Step(gain, k)
  }

  /** What the envelope constraints allow for one ship with `n` selected reports. */
  ghost predicate Allowed(gain: seq<int>, ceiling: int, n: nat, information: int) {
    && 0 <= information <= ceiling
    && forall k :: 1 <= k < |gain| ==> information <= Line(gain, k, n)
  }

  /** In a concave table the next entries stay below the line of step `k`. */
  lemma {:induction false} BelowLineAfter(gain: seq<int>, k: nat, n: nat)
    requires Concave(gain) && 1 <= k <= n < |gain|
    ensures gain[n] <= Line(gain, k, n) && Step(gain, n) <= Step(gain, k)
    decreases n - k
  {
    if k < n {
      BelowLineAfter(gain, k, n - 1);
      assert Step(gain, n) <= Step(gain, n - 1);
      assert Line(gain, k, n) == Line(gain, k, n - 1) + Step(gain, k);
    }
  }

  lemma {:induction false} BelowLineBefore(gain: seq<int>, k: nat, n: nat)
    requires Concave(gain) && 1 <= k < |gain| && n < k
    ensures gain[n] <= Line(gain, k, n) && Step(gain, k) <= Step(gain, n + 1)
    decreases k - n
  {
    if n + 1 < k {
      BelowLineBefore(gain, k, n + 1);
      assert Step(gain, n + 2) <= Step(gain, n + 1);
      assert Line(gain, k, n + 1) == Line(gain, k, n) + Step(gain, k);
    } else {
      assert Line(gain, k, n) == gain[n];
    }
  }

  /** With at least one check in the table, no information above the entry is allowed. */
  lemma EntryIsUpperBound(gain: seq<int>, ceiling: int, n: nat, information: int)
    requires |gain| >= 2 && n < |gain|
    requires Allowed(gain, ceiling, n, information)
    ensures information <= gain[n]
  {
    if n == 0 {
      assert Line(gain, 1, 0) == gain[0];
    } else {
      assert Line(gain, n, n) == gain[n];
    }
  }

  lemma EntryIsAllowed(gain: seq<int>, ceiling: int, n: nat)
    requires Concave(gain) && NonNegative(gain) && n < |gain| && gain[n] <= ceiling
    ensures Allowed(gain, ceiling, n, gain[n])
  {
    forall k | 1 <= k < |gain|
      ensures gain[n] <= Line(gain, k, n)
    {
      if k <= n {
        BelowLineAfter(gain, k, n);
      } else {
        BelowLineBefore(gain, k, n);
      }
    }
  }

  /** The largest information the envelope allows for `n` reports is the table's entry. */
  ghost predicate Exact(gain: seq<int>, ceiling: int, n: nat)
    requires n < |gain|
  {
    Allowed(gain, ceiling, n, gain[n]) && forall i :: Allowed(gain, ceiling, n, i) ==> i <= gain[n]
  }

  /** The envelope is exact at every check count exactly for nonnegative, discretely concave tables. */
  lemma EnvelopeIsExact(gain: seq<int>, ceiling: int)
    requires |gain| >= 2 && forall n :: 0 <= n < |gain| ==> gain[n] <= ceiling
    ensures (forall n: nat :: n < |gain| ==> Exact(gain, ceiling, n)) <==> Concave(gain) && NonNegative(gain)
  {
    if Concave(gain) && NonNegative(gain) {
      forall n: nat | n < |gain|
        ensures Exact(gain, ceiling, n)
      {
        EntryIsAllowed(gain, ceiling, n);
        forall i | Allowed(gain, ceiling, n, i)
          ensures i <= gain[n]
        {
          EntryIsUpperBound(gain, ceiling, n, i);
        }
      }
    }
    if forall n: nat :: n < |gain| ==> Exact(gain, ceiling, n) {
      forall k | 0 <= k < |gain|
        ensures 0 <= gain[k]
      {
        assert Exact(gain, ceiling, k);
      }
      forall k | 2 <= k < |gain|
        ensures Step(gain, k) <= Step(gain, k - 1)
      {
        assert Exact(gain, ceiling, k);
        assert gain[k] <= Line(gain, k - 1, k);
      }
    }
  }

  /** A table without a single check has no line, and the envelope then allows the ceiling. */
  lemma NoChecksUnbounded(gain: seq<int>, ceiling: int)
    requires |gain| == 1 && 0 <= gain[0] <= ceiling
    ensures Exact(gain, ceiling, 0) <==> gain[0] == ceiling
  {
    assert Allowed(gain, ceiling, 0, ceiling);
  }

  // ---------------------------------------------------------------- whole programs

  /** The parts of the data file the objective reads; `rc` and `rs` list the report references. */
  datatype Rewards = Rewards(base: seq<int>, rc: seq<nat>, rs: seq<nat>, gain: seq<seq<int>>, checkLimit: nat)

  ghost predicate WellFormed(rewards: Rewards) {
    && |rewards.rc| == |rewards.rs|
    && (forall r :: 0 <= r < |rewards.rc| ==> 1 <= rewards.rc[r] <= |rewards.base| && 1 <= rewards.rs[r] <= |rewards.gain|)
    && (forall s :: 0 <= s < |rewards.gain| ==> |rewards.gain[s]| == rewards.checkLimit + 1)
  }

  /** `sum(c in CS)(base[c]*selected[c])` over the first `n` candidates. */
  function BaseReward(base: seq<int>, selected: seq<int>, n: nat): int
    requires n <= |base| == |selected|
  {
    if n == 0 then 0 else BaseReward(base, selected, n - 1) + base[n - 1] * selected[n - 1]
  }

  /** `sum(r in 1..R where rs[r] = s)(selected[rc[r]])` over the first `n` references. */
  function Checks(rewards: Rewards, selected: seq<int>, s: nat, n: nat): int
    requires n <= |rewards.rc| == |rewards.rs|
    requires forall r :: 0 <= r < |rewards.rc| ==> 1 <= rewards.rc[r] <= |selected|
  {
    if n == 0 then 0
    else Checks(rewards, selected, s, n - 1) + if rewards.rs[n - 1] == s then selected[rewards.rc[n - 1] - 1] else 0
  }

  ghost predicate Fits(rewards: Rewards, selected: seq<int>) {
    WellFormed(rewards) && |selected| == |rewards.base|
  }

  function CheckCount(rewards: Rewards, selected: seq<int>, s: nat): int
    requires Fits(rewards, selected)
  {
    Checks(rewards, selected, s, |rewards.rc|)
  }

  /** `array[1..S] of var 0..K: checks` */
  ghost predicate ChecksInDomain(rewards: Rewards, selected: seq<int>)
    requires Fits(rewards, selected)
  {
    forall s: nat :: 1 <= s <= |rewards.gain| ==> 0 <= CheckCount(rewards, selected, s) <= rewards.checkLimit
  }

  /** `sum(s in 1..S)(gain[s,checks[s]])` over the first `n` ships. */
  ghost function LookupReward(rewards: Rewards, selected: seq<int>, n: nat): int
    requires Fits(rewards, selected) && ChecksInDomain(rewards, selected) && n <= |rewards.gain|
  {
    if n == 0 then 0
    else LookupReward(rewards, selected, n - 1) + rewards.gain[n - 1][CheckCount(rewards, selected, n)]
  }

  function Total(information: seq<int>, n: nat): int
    requires n <= |information|
  {
    if n == 0 then 0 else Total(information, n - 1) + information[n - 1]
  }

  ghost function LookupObjective(rewards: Rewards, selected: seq<int>): int
    requires Fits(rewards, selected) && ChecksInDomain(rewards, selected)
  {
    BaseReward(rewards.base, selected, |selected|) + LookupReward(rewards, selected, |rewards.gain|)
  }

  function EnvelopeObjective(rewards: Rewards, selected: seq<int>, information: seq<int>): int
    requires |selected| == |rewards.base|
  {
    BaseReward(rewards.base, selected, |selected|) + Total(information, |information|)
  }

  function RowMax(row: seq<int>): int
  {
    if row == [] then 0 else var m := RowMax(row[..|row| - 1]); if row[|row| - 1] > m then row[|row| - 1] else m
  }

  /** `max(gain)` over the whole table, for tables that hold some entry of zero or more. */
  function TableMax(gain: seq<seq<int>>): int
  {
    if gain == [] then 0
    else var m, last := TableMax(gain[..|gain| - 1]), RowMax(gain[|gain| - 1]); if last > m then last else m
  }

  lemma {:induction false} RowMaxBounds(row: seq<int>, k: nat)
    requires k < |row|
    ensures row[k] <= RowMax(row)
  {
    if k < |row| - 1 {
      RowMaxBounds(row[..|row| - 1], k);
    }
  }

  lemma {:induction false} TableMaxBounds(gain: seq<seq<int>>, s: nat, k: nat)
    requires s < |gain| && k < |gain[s]|
    ensures gain[s][k] <= TableMax(gain)
  {
    if s < |gain| - 1 {
      TableMaxBounds(gain[..|gain| - 1], s, k);
    } else {
      RowMaxBounds(gain[s], k);
    }
  }

  lemma {:induction false} RowMaxIsEntry(row: seq<int>)
    ensures RowMax(row) == 0 || RowMax(row) in row
  {
    if row != [] {
      RowMaxIsEntry(row[..|row| - 1]);
    }
  }

  /** The ceiling of the information variables is an entry of the table, or zero. */
  lemma {:induction false} TableMaxIsEntry(gain: seq<seq<int>>)
    ensures TableMax(gain) == 0 || exists s :: 0 <= s < |gain| && TableMax(gain) in gain[s]
  {
    if gain != [] {
      TableMaxIsEntry(gain[..|gain| - 1]);
      RowMaxIsEntry(gain[|gain| - 1]);
    }
  }

  /** The envelope's constraints on the information variables. */
  ghost predicate EnvelopeAllows(rewards: Rewards, selected: seq<int>, information: seq<int>)
    requires Fits(rewards, selected)
  {
    && ChecksInDomain(rewards, selected) && |information| == |rewards.gain|
    && forall s: nat :: 1 <= s <= |rewards.gain| ==>
         Allowed(rewards.gain[s - 1], TableMax(rewards.gain), CheckCount(rewards, selected, s), information[s - 1])
  }

  ghost predicate ConcaveTables(rewards: Rewards) {
    forall s :: 0 <= s < |rewards.gain| ==> Concave(rewards.gain[s]) && NonNegative(rewards.gain[s])
  }

  lemma {:induction false} EnvelopeBelowLookup(rewards: Rewards, selected: seq<int>, information: seq<int>, n: nat)
    requires Fits(rewards, selected) && rewards.checkLimit >= 1
    requires EnvelopeAllows(rewards, selected, information) && n <= |rewards.gain|
    ensures Total(information, n) <= LookupReward(rewards, selected, n)
  {
    if n > 0 {
      EnvelopeBelowLookup(rewards, selected, information, n - 1);
      EntryIsUpperBound(rewards.gain[n - 1], TableMax(rewards.gain), CheckCount(rewards, selected, n), information[n - 1]);
    }
  }

  lemma {:induction false} LookupAsInformation(rewards: Rewards, selected: seq<int>, n: nat) returns (information: seq<int>)
    requires Fits(rewards, selected) && ChecksInDomain(rewards, selected) && n <= |rewards.gain|
    ensures |information| == n && Total(information, n) == LookupReward(rewards, selected, n)
    ensures forall s: nat :: 1 <= s <= n ==> information[s - 1] == rewards.gain[s - 1][CheckCount(rewards, selected, s)]
  {
    if n == 0 {
      information := [];
    } else {
      var init := LookupAsInformation(rewards, selected, n - 1);
      information := init + [rewards.gain[n - 1][CheckCount(rewards, selected, n)]];
      TotalPrefix(init, information, n - 1);
    }
  }

  lemma {:induction false} TotalPrefix(init: seq<int>, all: seq<int>, n: nat)
    requires n <= |init| <= |all| && forall k :: 0 <= k < |init| ==> init[k] == all[k]
    ensures Total(init, n) == Total(all, n)
  {
    if n > 0 {
      TotalPrefix(init, all, n - 1);
    }
  }

  /** For one selection, the envelope's best objective is the lookup objective. */
  lemma SelectionKeepsValue(rewards: Rewards, selected: seq<int>) returns (information: seq<int>)
    requires Fits(rewards, selected) && ChecksInDomain(rewards, selected)
    requires rewards.checkLimit >= 1 && ConcaveTables(rewards)
    ensures EnvelopeAllows(rewards, selected, information)
    ensures EnvelopeObjective(rewards, selected, information) == LookupObjective(rewards, selected)
    ensures forall other :: EnvelopeAllows(rewards, selected, other) ==>
              EnvelopeObjective(rewards, selected, other) <= LookupObjective(rewards, selected)
  {
    information := LookupAsInformation(rewards, selected, |rewards.gain|);
    forall s: nat | 1 <= s <= |rewards.gain|
      ensures Allowed(rewards.gain[s - 1], TableMax(rewards.gain), CheckCount(rewards, selected, s), information[s - 1])
    {
      var n := CheckCount(rewards, selected, s);
      TableMaxBounds(rewards.gain, s - 1, n);
      EntryIsAllowed(rewards.gain[s - 1], TableMax(rewards.gain), n);
    }
    forall other | EnvelopeAllows(rewards, selected, other)
      ensures EnvelopeObjective(rewards, selected, other) <= LookupObjective(rewards, selected)
    {
      EnvelopeBelowLookup(rewards, selected, other, |rewards.gain|);
    }
  }

  // ---------------------------------------------------------------- optima over any set of selections

  /** The selections one solver program may take and the best value each can be given. */
  ghost predicate LookupFeasible(rewards: Rewards, routes: iset<seq<int>>, selected: seq<int>) {
    Fits(rewards, selected) && selected in routes && ChecksInDomain(rewards, selected)
  }

  ghost predicate LookupOptimum(rewards: Rewards, routes: iset<seq<int>>, selected: seq<int>) {
    && LookupFeasible(rewards, routes, selected)
    && forall other :: LookupFeasible(rewards, routes, other) ==>
         LookupObjective(rewards, other) <= LookupObjective(rewards, selected)
  }

  ghost predicate EnvelopeFeasible(rewards: Rewards, routes: iset<seq<int>>, selected: seq<int>, information: seq<int>) {
    Fits(rewards, selected) && selected in routes && EnvelopeAllows(rewards, selected, information)
  }

  ghost predicate EnvelopeOptimum(rewards: Rewards, routes: iset<seq<int>>, selected: seq<int>, information: seq<int>) {
    && EnvelopeFeasible(rewards, routes, selected, information)
    && forall s, i :: EnvelopeFeasible(rewards, routes, s, i) ==>
         EnvelopeObjective(rewards, s, i) <= EnvelopeObjective(rewards, selected, information)
  }

  /** Both encodings have the same best selections, with the same objective value. */
  lemma EncodingsAgree(rewards: Rewards, routes: iset<seq<int>>, selected: seq<int>)
    requires rewards.checkLimit >= 1 && ConcaveTables(rewards)
    ensures LookupOptimum(rewards, routes, selected) <==> exists i :: EnvelopeOptimum(rewards, routes, selected, i)
    ensures forall i :: EnvelopeOptimum(rewards, routes, selected, i) ==>
              EnvelopeObjective(rewards, selected, i) == LookupObjective(rewards, selected)
  {
    if LookupOptimum(rewards, routes, selected) {
      var information := SelectionKeepsValue(rewards, selected);
      forall s, i | EnvelopeFeasible(rewards, routes, s, i)
        ensures EnvelopeObjective(rewards, s, i) <= EnvelopeObjective(rewards, selected, information)
      {
        var best := SelectionKeepsValue(rewards, s);
        assert LookupFeasible(rewards, routes, s);
      }
      assert EnvelopeOptimum(rewards, routes, selected, information);
    }
    forall i | EnvelopeOptimum(rewards, routes, selected, i)
      ensures LookupOptimum(rewards, routes, selected)
      ensures EnvelopeObjective(rewards, selected, i) == LookupObjective(rewards, selected)
    {
      var information := SelectionKeepsValue(rewards, selected);
      assert EnvelopeFeasible(rewards, routes, selected, information);
      forall other | LookupFeasible(rewards, routes, other)
        ensures LookupObjective(rewards, other) <= LookupObjective(rewards, selected)
      {
        var best := SelectionKeepsValue(rewards, other);
        assert EnvelopeFeasible(rewards, routes, other, best);
      }
    }
  }
}
