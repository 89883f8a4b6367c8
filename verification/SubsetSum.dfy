/**
 Finding receipts that add up to a target: a dynamic program over reachable
 amounts. Money is in integer cents. A map from the language of the source lists
 its keys in the order of their first insertion; `keys` is that list.
 */
module SubsetSum {
  import opened Basics

  datatype Candidate = Candidate(id: nat, amount: int)

  /** A choice of candidates, in candidate order: a strictly ascending list of positions. */
  ghost predicate Ascending(picks: seq<nat>) {
    forall i, j | 0 <= i < j < |picks| :: picks[i] < picks[j]
  }

  ghost predicate Below(picks: seq<nat>, n: nat) {
    forall i | 0 <= i < |picks| :: picks[i] < n
  }

  ghost predicate Selects(picks: seq<nat>, n: nat) {
    Ascending(picks) && Below(picks, n)
  }

  function Total(candidates: seq<Candidate>, picks: seq<nat>): int
    requires Below(picks, |candidates|)
  {
    if picks == [] then 0
    else Total(candidates, picks[..|picks| - 1]) + candidates[picks[|picks| - 1]].amount
  }

  function Ids(candidates: seq<Candidate>, picks: seq<nat>): seq<nat>
    requires Below(picks, |candidates|)
  {
    if picks == [] then []
    else Ids(candidates, picks[..|picks| - 1]) + [candidates[picks[|picks| - 1]].id]
  }

  /** No first part of the choice goes beyond the target; the empty one is free. */
  ghost predicate StaysWithin(candidates: seq<Candidate>, picks: seq<nat>, target: int)
    requires Below(picks, |candidates|)
  {
    forall k | 0 < k <= |picks| :: Total(candidates, picks[..k]) <= target
  }

  /** `ids` names a choice among the first `n` candidates that adds up to `amount`. */
  ghost predicate Names(candidates: seq<Candidate>, n: nat, amount: int, ids: seq<nat>)
    requires n <= |candidates|
  {
    exists picks :: Selects(picks, n) && Total(candidates, picks) == amount && Ids(candidates, picks) == ids
  }

  /** What the program can reach: sums of choices that stay within the target. */
  ghost predicate Reachable(candidates: seq<Candidate>, n: nat, amount: int, target: int)
    requires n <= |candidates|
  {
    exists picks :: Selects(picks, n) && StaysWithin(candidates, picks, target) && Total(candidates, picks) == amount
  }

  lemma SelectsMore(picks: seq<nat>, n: nat, m: nat)
    requires Selects(picks, n) && n <= m
    ensures Selects(picks, m)
  {
  }

  lemma PushTotal(candidates: seq<Candidate>, picks: seq<nat>, n: nat)
    requires n < |candidates| && Selects(picks, n)
    ensures Selects(picks + [n], n + 1)
    ensures Total(candidates, picks + [n]) == Total(candidates, picks) + candidates[n].amount
    ensures Ids(candidates, picks + [n]) == Ids(candidates, picks) + [candidates[n].id]
  {
    assert (picks + [n])[..|picks|] == picks;
  }

  lemma PushNames(candidates: seq<Candidate>, n: nat, amount: int, ids: seq<nat>)
    requires n < |candidates| && Names(candidates, n, amount, ids)
    ensures Names(candidates, n + 1, amount, ids)
    ensures Names(candidates, n + 1, amount + candidates[n].amount, ids + [candidates[n].id])
  {
    var picks :| Selects(picks, n) && Total(candidates, picks) == amount && Ids(candidates, picks) == ids;
    SelectsMore(picks, n, n + 1);
    PushTotal(candidates, picks, n);
  }

  lemma PushWithin(candidates: seq<Candidate>, picks: seq<nat>, n: nat, target: int)
    requires n < |candidates| && Selects(picks, n)
    ensures Selects(picks + [n], n + 1)
    ensures StaysWithin(candidates, picks + [n], target) <==>
            StaysWithin(candidates, picks, target) && Total(candidates, picks) + candidates[n].amount <= target
  {
    PushTotal(candidates, picks, n);
    var more := picks + [n];
    assert more[..|more|] == more;
    forall k | 0 < k <= |picks|
      ensures Total(candidates, more[..k]) == Total(candidates, picks[..k])
    {
      assert more[..k] == picks[..k];
    }
  }

  lemma LastTaken(candidates: seq<Candidate>, rest: seq<nat>, picks: seq<nat>, n: nat, target: int)
    requires n < |candidates| && Selects(picks, n + 1) && StaysWithin(candidates, picks, target) && picks == rest + [n]
    ensures Total(candidates, picks) <= target &&
            Reachable(candidates, n, Total(candidates, picks) - candidates[n].amount, target)
  {
    forall i | 0 <= i < |rest|
      ensures rest[i] == picks[i] < n
    {
      assert picks[i] < picks[|rest|];
    }
    assert Selects(rest, n);
    PushTotal(candidates, rest, n);
    PushWithin(candidates, rest, n, target);
  }

  lemma LastSkipped(picks: seq<nat>, n: nat)
    requires Selects(picks, n + 1) && (picks == [] || picks[|picks| - 1] != n)
    ensures Selects(picks, n)
  {
    forall i | 0 <= i < |picks|
      ensures picks[i] < n
    {
      assert i < |picks| - 1 ==> picks[i] < picks[|picks| - 1];
    }
  }

  lemma ReachableOn(candidates: seq<Candidate>, n: nat, amount: int, target: int)
    requires n < |candidates|
    ensures Reachable(candidates, n, amount, target) ==> Reachable(candidates, n + 1, amount, target)
    ensures amount <= target && Reachable(candidates, n, amount - candidates[n].amount, target) ==>
              Reachable(candidates, n + 1, amount, target)
  {
    if picks :| Selects(picks, n) && StaysWithin(candidates, picks, target) && Total(candidates, picks) == amount {
      SelectsMore(picks, n, n + 1);
    }
    if picks :| amount <= target && Selects(picks, n) && StaysWithin(candidates, picks, target) &&
                Total(candidates, picks) == amount - candidates[n].amount {
      PushTotal(candidates, picks, n);
      PushWithin(candidates, picks, n, target);
    }
  }

  /** An amount is reachable with one candidate more when it was before, or with
      the candidate taken out. */
  lemma ReachableStep(candidates: seq<Candidate>, n: nat, amount: int, target: int)
    requires n < |candidates|
    ensures Reachable(candidates, n + 1, amount, target) <==>
            || Reachable(candidates, n, amount, target)
            || (amount <= target && Reachable(candidates, n, amount - candidates[n].amount, target))
  {
    ReachableOn(candidates, n, amount, target);
    if picks :| Selects(picks, n + 1) && StaysWithin(candidates, picks, target) && Total(candidates, picks) == amount {
      if picks != [] && picks[|picks| - 1] == n {
        LastTaken(candidates, picks[..|picks| - 1], picks, n, target);
      } else {
        LastSkipped(picks, n);
      }
    }
  }

  ghost predicate AllNamed(dp: map<int, seq<nat>>, candidates: seq<Candidate>, n: nat)
    requires n <= |candidates|
  {
    forall amount | amount in dp :: Names(candidates, n, amount, dp[amount])
  }

  /** The table after the first `n` candidates: every entry names a choice, and
      the entries are exactly the reachable amounts. */
  ghost predicate Reflects(dp: map<int, seq<nat>>, keys: seq<int>, candidates: seq<Candidate>, n: nat, target: int)
    requires n <= |candidates|
  {
    && (forall amount :: amount in dp <==> amount in keys)
    && AllNamed(dp, candidates, n)
    && (forall amount :: amount in dp <==> Reachable(candidates, n, amount, target))
  }

  /** The entries of the snapshot are still the ones made without candidate `n`. */
  ghost predicate SnapshotKept(dp: map<int, seq<nat>>, snapshot: seq<int>, candidates: seq<Candidate>, n: nat)
    requires n <= |candidates|
  {
    forall amount | amount in snapshot :: amount in dp && Names(candidates, n, amount, dp[amount])
  }

  /** Within one round: the amounts before `i` of the snapshot have been extended,
      and every entry is from the snapshot or extends one of it. */
  ghost predicate Extended(dp: map<int, seq<nat>>, snapshot: seq<int>, i: nat, extra: int, target: int)
    requires i <= |snapshot|
  {
    && (forall amount | amount in dp :: amount in snapshot || (amount <= target && amount - extra in snapshot))
    && forall k | 0 <= k < i && snapshot[k] + extra <= target :: snapshot[k] + extra in dp
  }

  ghost predicate Extending(dp: map<int, seq<nat>>, keys: seq<int>, snapshot: seq<int>, i: nat,
                            candidates: seq<Candidate>, n: nat, target: int)
    requires n < |candidates| && i <= |snapshot|
  {
    && (forall amount :: amount in dp <==> amount in keys)
    && AllNamed(dp, candidates, n + 1)
    && SnapshotKept(dp, snapshot, candidates, n)
    && Extended(dp, snapshot, i, candidates[n].amount, target)
  }

  lemma StartRound(dp: map<int, seq<nat>>, keys: seq<int>, candidates: seq<Candidate>, n: nat, target: int)
    requires n < |candidates| && Reflects(dp, keys, candidates, n, target)
    ensures Extending(dp, keys, keys, 0, candidates, n, target)
  {
    forall amount | amount in dp
      ensures Names(candidates, n + 1, amount, dp[amount])
    {
      PushNames(candidates, n, amount, dp[amount]);
    }
  }

  lemma EndRound(dp: map<int, seq<nat>>, keys: seq<int>, snapshot: seq<int>, candidates: seq<Candidate>, n: nat,
                 target: int)
    requires n < |candidates| && Extending(dp, keys, snapshot, |snapshot|, candidates, n, target)
    requires forall amount :: amount in snapshot <==> Reachable(candidates, n, amount, target)
    ensures Reflects(dp, keys, candidates, n + 1, target)
  {
    forall amount
      ensures amount in dp <==> Reachable(candidates, n + 1, amount, target)
    {
      ReachableStep(candidates, n, amount, target);
      var before := amount - candidates[n].amount;
      if before in snapshot {
        var k :| 0 <= k < |snapshot| && snapshot[k] == before;
        assert snapshot[k] + candidates[n].amount == amount;
      }
    }
  }

  lemma Extend(dp: map<int, seq<nat>>, keys: seq<int>, snapshot: seq<int>, i: nat, candidates: seq<Candidate>, n: nat,
               target: int)
    requires n < |candidates| && i < |snapshot| && Extending(dp, keys, snapshot, i, candidates, n, target)
    ensures snapshot[i] in dp
    ensures var amount := snapshot[i] + candidates[n].amount;
            if amount <= target && amount !in dp then
              Extending(dp[amount := dp[snapshot[i]] + [candidates[n].id]], keys + [amount],
                        snapshot, i + 1, candidates, n, target)
            else Extending(dp, keys, snapshot, i + 1, candidates, n, target)
  {
    var amount := snapshot[i] + candidates[n].amount;
    assert snapshot[i] in snapshot;
    if amount <= target && amount !in dp {
      PushNames(candidates, n, snapshot[i], dp[snapshot[i]]);
      ExtendNew(dp, keys, snapshot, i, candidates, n, target, amount, dp[snapshot[i]] + [candidates[n].id]);
    }
  }

  lemma ExtendNew(dp: map<int, seq<nat>>, keys: seq<int>, snapshot: seq<int>, i: nat, candidates: seq<Candidate>,
                  n: nat, target: int,
                  amount: int, ids: seq<nat>)
    requires n < |candidates| && i < |snapshot| && Extending(dp, keys, snapshot, i, candidates, n, target)
    requires amount == snapshot[i] + candidates[n].amount <= target && amount !in dp &&
             Names(candidates, n + 1, amount, ids)
    ensures Extending(dp[amount := ids], keys + [amount], snapshot, i + 1, candidates, n, target)
  {
    AddNamed(dp, snapshot, candidates, n, amount, ids);
    AddExtended(dp, snapshot, i, candidates[n].amount, target, ids);
  }

  lemma AddNamed(dp: map<int, seq<nat>>, snapshot: seq<int>, candidates: seq<Candidate>, n: nat, amount: int,
                 ids: seq<nat>)
    requires n < |candidates| && AllNamed(dp, candidates, n + 1) && SnapshotKept(dp, snapshot, candidates, n)
    requires amount !in dp && Names(candidates, n + 1, amount, ids)
    ensures AllNamed(dp[amount := ids], candidates, n + 1) && SnapshotKept(dp[amount := ids], snapshot, candidates, n)
  {
  }

  lemma AddExtended(dp: map<int, seq<nat>>, snapshot: seq<int>, i: nat, extra: int, target: int, ids: seq<nat>)
    requires i < |snapshot| && Extended(dp, snapshot, i, extra, target) && snapshot[i] + extra <= target
    ensures Extended(dp[snapshot[i] + extra := ids], snapshot, i + 1, extra, target)
  {
    assert snapshot[i] + extra - extra in snapshot;
  }

  lemma StartTable(candidates: seq<Candidate>, target: int)
    ensures Reflects(map[0 := []], [0], candidates, 0, target)
  {
    assert Selects([], 0) && Total(candidates, []) == 0 && Ids(candidates, []) == [];
    assert StaysWithin(candidates, [], target);
    forall amount | Reachable(candidates, 0, amount, target)
      ensures amount == 0
    {
      var picks :| Selects(picks, 0) && Total(candidates, picks) == amount;
      if picks != [] {
        assert false;
      }
    }
  }

  /** One round: every amount of the snapshot may be extended by the candidate. */
  method AddCandidate(dp0: map<int, seq<nat>>, keys0: seq<int>, candidates: seq<Candidate>, n: nat, target: int)
    returns (dp: map<int, seq<nat>>, keys: seq<int>)
    requires n < |candidates| && Reflects(dp0, keys0, candidates, n, target)
    ensures Reflects(dp, keys, candidates, n + 1, target)
  {
    dp, keys := dp0, keys0;
    var candidate := candidates[n];
    var currentAmounts := keys;
    StartRound(dp, keys, candidates, n, target);
    for i := 0 to |currentAmounts|
      invariant Extending(dp, keys, currentAmounts, i, candidates, n, target)
    {
      var newAmount := currentAmounts[i] + candidate.amount;
      Extend(dp, keys, currentAmounts, i, candidates, n, target);
      if newAmount <= target && newAmount !in dp {
        dp, keys := dp[newAmount := dp[currentAmounts[i]] + [candidate.id]], keys + [newAmount];
      }
    }
    EndRound(dp, keys, currentAmounts, candidates, n, target);
  }

  /** The answer names distinct candidates in order that add up to the target;
      there is one exactly when some choice reaches the target and stays within it. */
  method FindSubsetSum(target: int, candidates: seq<Candidate>) returns (result: Option<seq<nat>>)
    ensures result.Some? ==> Names(candidates, |candidates|, target, result.value)
    ensures result.Some? <==> Reachable(candidates, |candidates|, target, target)
  {
    var dp: map<int, seq<nat>>, keys := map[0 := []], [0];
    StartTable(candidates, target);
    for n := 0 to |candidates|
      invariant Reflects(dp, keys, candidates, n, target)
    {
      dp, keys := AddCandidate(dp, keys, candidates, n, target);
    }
    result := if target in dp then Some(dp[target]) else None;
  }

  // ---------- when the search is complete ----------

  lemma {:induction false} PrefixesGrow(candidates: seq<Candidate>, picks: seq<nat>, k: nat)
    requires Below(picks, |candidates|) && k <= |picks|
    requires forall i | 0 <= i < |candidates| :: 0 <= candidates[i].amount
    ensures Total(candidates, picks[..k]) <= Total(candidates, picks)
  {
    if k == |picks| {
      assert picks[..k] == picks;
    } else {
      var front := picks[..|picks| - 1];
      assert front[..k] == picks[..k];
      PrefixesGrow(candidates, front, k);
    }
  }

  /** For amounts that are not negative the search misses no choice: it fails only
      when no choice of candidates adds up to the target. */
  lemma CompleteForNonNegative(candidates: seq<Candidate>, target: int)
    requires forall i | 0 <= i < |candidates| :: 0 <= candidates[i].amount
    ensures Reachable(candidates, |candidates|, target, target) <==>
            exists picks :: Selects(picks, |candidates|) && Total(candidates, picks) == target
  {
    if picks :| Selects(picks, |candidates|) && Total(candidates, picks) == target {
      forall k | 0 < k <= |picks|
        ensures Total(candidates, picks[..k]) <= target
      {
        PrefixesGrow(candidates, picks, k);
      }
      assert StaysWithin(candidates, picks, target);
    }
  }

  /** With a negative amount it can miss one: 2 - 1 makes 1, but 2 is cut off. */
  lemma NegativeAmountMissed()
    ensures var candidates := [Candidate(0, 2), Candidate(1, -1)];
            && (exists picks :: Selects(picks, 2) && Total(candidates, picks) == 1)
            && !Reachable(candidates, 2, 1, 1)
  {
    var candidates := [Candidate(0, 2), Candidate(1, -1)];
    assert [0, 1][..1] == [0] && [0][..0] == [];
    assert Total(candidates, []) == 0;
    assert Total(candidates, [0]) == 2;
    assert Total(candidates, [0, 1]) == 1;
    assert Selects([0, 1], 2);
    OnlyZero(candidates, 1);
    ReachableStep(candidates, 0, 1, 1);
    ReachableStep(candidates, 0, 2, 1);
    ReachableStep(candidates, 1, 1, 1);
  }

  /** Without candidates only zero is reachable. */
  lemma OnlyZero(candidates: seq<Candidate>, target: int)
    ensures forall amount :: Reachable(candidates, 0, amount, target) <==> amount == 0
  {
    StartTable(candidates, target);
    forall amount
      ensures Reachable(candidates, 0, amount, target) <==> amount == 0
    {
      var table: map<int, seq<nat>> := map[0 := []];
      assert amount in table <==> Reachable(candidates, 0, amount, target);
    }
  }
}
