/** Account statistics and the two-level weighted reward split: budget to exchanges, exchange to accounts. */
module AccountStats {
  import opened Wrappers
  import opened Sums
  import opened Rewards

  /** The value of an account statistic; a nil reward is `None`. Addresses are numbers, ordered as their bytes are. */
  datatype Stat = Stat(account: nat, reward: Option<int>, share: int, number: nat)

  function Shares(stats: seq<Stat>): (r: seq<int>)
    ensures |r| == |stats|
  {
    seq(|stats|, i requires 0 <= i < |stats| => stats[i].share)
  }

  function PaidTo(stat: Stat): int
  {
    if stat.reward.Some? then stat.reward.value else 0
  }

  /** The rewards assigned so far, an unassigned one counting as 0. */
  function Paid(stats: seq<Stat>): (r: seq<int>)
    ensures |r| == |stats|
  {
    seq(|stats|, i requires 0 <= i < |stats| => PaidTo(stats[i]))
  }

  /** What the accounts of each slice hold in all. */
  function PaidPerGroup(groups: seq<seq<Stat>>): (r: seq<int>)
    ensures |r| == |groups|
  {
    seq(|groups|, g requires 0 <= g < |groups| => Sum(Paid(groups[g])))
  }

  /** Either the first reward is unset, or every reward is set (anything else dereferences nil in the source). */
  predicate Uniform(stats: seq<Stat>)
  {
    |stats| > 0 && stats[0].reward.Some? ==> forall i :: 0 <= i < |stats| ==> stats[i].reward.Some?
  }

  predicate Unrewarded(stats: seq<Stat>)
  {
    forall i :: 0 <= i < |stats| ==> stats[i].reward.None?
  }

  predicate NonNegativeShares(stats: seq<Stat>)
  {
    forall i :: 0 <= i < |stats| ==> stats[i].share >= 0
  }

  /** What a reward is divided by: earlier rewards when they exist, shares otherwise. */
  function Basis(stats: seq<Stat>): (r: seq<int>)
    ensures |r| == |stats|
  {
    if |stats| > 0 && stats[0].reward.Some? then Paid(stats) else Shares(stats)
  }

  /** The statistics after `CalcRewards`. */
  function Rewarded(stats: seq<Stat>, total: int): (r: seq<Stat>)
    ensures |r| == |stats|
  {
    if |stats| == 0 || total <= 0 || |Divided(total, Basis(stats))| != |stats| then stats
    else
      seq(|stats|, i requires 0 <= i < |stats| => stats[i].(reward := Some(Divided(total, Basis(stats))[i])))
  }

  /** `AccountStat`, updated in place by `CalcRewards`. */
  class AccountStat {
    const account: nat
    var reward: Option<int>
    var share: int
    var number: nat

    constructor (account: nat, reward: Option<int>, share: int, number: nat)
      ensures View() == Stat(account, reward, share, number)
    {
      this.account, this.reward, this.share, this.number := account, reward, share, number;
    }

    function View(): Stat
      reads this
    {
      Stat(account, reward, share, number)
    }
  }

  function Views(s: seq<AccountStat>): (r: seq<Stat>)
    reads s
    ensures |r| == |s|
  {
    seq(|s|, i requires 0 <= i < |s| reads s => s[i].View())
  }

  predicate Distinct(s: seq<AccountStat>)
  {
    forall i, j :: 0 <= i < j < |s| ==> s[i] != s[j]
  }

  /** Statistics filed under their own account; no two entries are the same object then. */
  predicate Filed(m: map<nat, AccountStat>)
  {
    forall k :: k in m ==> m[k].account == k
  }

  function StatViews(m: map<nat, AccountStat>): (r: map<nat, Stat>)
    reads m.Values
  {
    map k | k in m :: m[k].View()
  }

  method CalcTotalShare(s: seq<AccountStat>) returns (sum: int)
    ensures sum == Sum(Shares(Views(s)))
  {
    sum := 0;
    ghost var shares := Shares(Views(s));
    for i := 0 to |s|
      invariant sum == Sum(shares[..i])
    {
      assert shares[..i + 1] == shares[..i] + [s[i].share];
      SumAppend(shares[..i], s[i].share);
      sum := sum + s[i].share;
    }
    assert shares[..|s|] == shares;
  }

  method CalcRewards(s: seq<AccountStat>, totalReward: int)
    requires Distinct(s) && Uniform(Views(s))
    modifies s
    ensures Views(s) == Rewarded(old(Views(s)), totalReward)
  {
    if |s| == 0 || totalReward <= 0 {
      return;
    }
    var hasRewardValue := s[0].reward != None;
    var totalShareSlice: seq<int> := [];
    for i := 0 to |s|
      invariant totalShareSlice == Basis(Views(s))[..i]
    {
      assert Views(s)[i].reward == s[i].reward;
      totalShareSlice := totalShareSlice + [if hasRewardValue then s[i].reward.value else s[i].share];
    }
    assert totalShareSlice == Basis(Views(s));
    var rewards, _ := DivideRewards(totalReward, totalShareSlice);
    if |rewards| != |s| {
      return;
    }
    for i := 0 to |s|
      invariant forall k :: 0 <= k < i ==> s[k].reward == Some(rewards[k])
      invariant forall k :: 0 <= k < |s| ==> s[k].share == old(s[k].share) && s[k].number == old(s[k].number)
    {
      s[i].reward := Some(rewards[i]);
    }
  }

  /** The objects of all slices. */
  function Objects(stats: seq<seq<AccountStat>>): set<AccountStat>
  {
    set i, j | 0 <= i < |stats| && 0 <= j < |stats[i]| :: stats[i][j]
  }

  /** No statistic is listed twice, in one slice or in two. */
  predicate Separate(stats: seq<seq<AccountStat>>)
  {
    && (forall i :: 0 <= i < |stats| ==> Distinct(stats[i]))
    && forall i, j :: 0 <= i < j < |stats| ==> Apart(stats[i], stats[j])
  }

  predicate Apart(s: seq<AccountStat>, t: seq<AccountStat>)
  {
    forall o :: o in s ==> o !in t
  }

  function GroupViews(stats: seq<seq<AccountStat>>): (r: seq<seq<Stat>>)
    reads Objects(stats)
    ensures |r| == |stats|
    ensures forall i :: 0 <= i < |stats| ==> r[i] == Views(stats[i])
  {
    seq(|stats|, i requires 0 <= i < |stats| reads Objects(stats) => Views(stats[i]))
  }

  /** Every slice rewarded from its own part of the budget; nothing happens when the counts differ. */
  function RewardedGroups(groups: seq<seq<Stat>>, parts: seq<int>): (r: seq<seq<Stat>>)
    ensures |r| == |groups|
  {
    if |parts| != |groups| then groups
    else seq(|groups|, i requires 0 <= i < |groups| => Rewarded(groups[i], parts[i]))
  }

  lemma OthersApart(stats: seq<seq<AccountStat>>, i: nat, k: nat)
    requires Separate(stats) && i < |stats| && k < |stats| && i != k
    ensures Apart(stats[k], stats[i])
  {
    assert if k < i then Apart(stats[k], stats[i]) else Apart(stats[i], stats[k]);
  }

  /** One slice of a batch; the others keep their values. */
  method CalcOneOf(stats: seq<seq<AccountStat>>, i: nat, reward: int)
    requires Separate(stats) && i < |stats| && Uniform(Views(stats[i]))
    modifies stats[i]
    ensures Views(stats[i]) == Rewarded(old(Views(stats[i])), reward)
    ensures forall k :: 0 <= k < |stats| && k != i ==> Views(stats[k]) == old(Views(stats[k]))
  {
    CalcRewards(stats[i], reward);
    forall k | 0 <= k < |stats| && k != i
      ensures Views(stats[k]) == old(Views(stats[k]))
    {
      OthersApart(stats, i, k);
      assert forall j :: 0 <= j < |stats[k]| ==> stats[k][j] in stats[k];
    }
  }

  method CalcRewardsInBatch(stats: seq<seq<AccountStat>>, rewards: seq<int>)
    requires Separate(stats)
    requires forall i :: 0 <= i < |stats| ==> Uniform(Views(stats[i]))
    modifies Objects(stats)
    ensures GroupViews(stats) == RewardedGroups(old(GroupViews(stats)), rewards)
  {
    if |stats| != |rewards| {
      return;
    }
    for i := 0 to |stats|
      invariant forall k :: 0 <= k < i ==> Views(stats[k]) == Rewarded(old(Views(stats[k])), rewards[k])
      invariant forall k :: i <= k < |stats| ==> Views(stats[k]) == old(Views(stats[k]))
    {
      assert forall o :: o in stats[i] ==> o in Objects(stats);
      CalcOneOf(stats, i, rewards[i]);
    }
  }

  function WeightAt(weights: Option<seq<nat>>, i: nat): nat
    requires weights.Some? ==> i < |weights.value|
  {
    if weights.Some? then weights.value[i] else 1
  }

  /** The weighted share of every slice. */
  function GroupShares(groups: seq<seq<Stat>>, weights: Option<seq<nat>>): (r: seq<int>)
    requires weights.Some? ==> |weights.value| == |groups|
    ensures |r| == |groups|
  {
    seq(|groups|, i requires 0 <= i < |groups| => WeightAt(weights, i) * Sum(Shares(groups[i])))
  }

  /** The statistics after `CalcWeightedRewards`. */
  function WeightedRewards(groups: seq<seq<Stat>>, total: int, weights: Option<seq<nat>>): (r: seq<seq<Stat>>)
    ensures |r| == |groups|
  {
    if weights.Some? && |weights.value| != |groups| then groups
    else if |groups| == 1 then [Rewarded(groups[0], total)]
    else RewardedGroups(groups, Divided(total, GroupShares(groups, weights)))
  }

  method SumWeightShares(s: seq<AccountStat>, weight: nat) returns (totalWeightShare: int)
    ensures totalWeightShare == weight * Sum(Shares(Views(s)))
  {
    totalWeightShare := 0;
    ghost var shares := Shares(Views(s));
    for i := 0 to |s|
      invariant totalWeightShare == weight * Sum(shares[..i])
    {
      assert shares[..i + 1] == shares[..i] + [s[i].share];
      SumAppend(shares[..i], s[i].share);
      assert weight * (Sum(shares[..i]) + s[i].share) == weight * Sum(shares[..i]) + s[i].share * weight;
      totalWeightShare := totalWeightShare + s[i].share * weight;
    }
    assert shares[..|s|] == shares;
  }

  method SumAllWeightShares(stats: seq<seq<AccountStat>>, weights: Option<seq<nat>>)
    returns (totalShareSlice: seq<int>)
    requires weights.Some? ==> |weights.value| == |stats|
    ensures totalShareSlice == GroupShares(GroupViews(stats), weights)
  {
    totalShareSlice := [];
    ghost var groups := GroupViews(stats);
    for i := 0 to |stats|
      invariant totalShareSlice == GroupShares(groups, weights)[..i]
    {
      var share := SumWeightShares(stats[i], WeightAt(weights, i));
      assert groups[i] == Views(stats[i]);
      totalShareSlice := totalShareSlice + [share];
    }
  }

  method CalcSingle(stats: seq<seq<AccountStat>>, totalReward: int)
    requires |stats| == 1 && Separate(stats) && Uniform(Views(stats[0]))
    modifies Objects(stats)
    ensures GroupViews(stats) == [Rewarded(old(GroupViews(stats))[0], totalReward)]
  {
    assert forall o :: o in stats[0] ==> o in Objects(stats);
    CalcRewards(stats[0], totalReward);
  }

  method CalcWeightedRewards(stats: seq<seq<AccountStat>>, totalReward: int, weights: Option<seq<nat>>)
    requires Separate(stats)
    requires forall i :: 0 <= i < |stats| ==> Uniform(Views(stats[i]))
    modifies Objects(stats)
    ensures GroupViews(stats) == WeightedRewards(old(GroupViews(stats)), totalReward, weights)
  {
    if weights.Some? && |weights.value| != |stats| {
      return;
    }
    if |stats| <= 1 {
      if |stats| == 1 {
        CalcSingle(stats, totalReward);
      }
      return;
    }
    var totalShareSlice := SumAllWeightShares(stats, weights);
    var rewards, _ := DivideRewards(totalReward, totalShareSlice);
    CalcRewardsInBatch(stats, rewards);
  }

  // ----- one slice -----

  /** Rewarding a slice pays out exactly the budget, unless there is nothing to pay or nobody to pay it to. */
  lemma RewardedConserves(stats: seq<Stat>, total: int)
    ensures Sum(Paid(Rewarded(stats, total))) ==
            if total > 0 && Sum(Basis(stats)) > 0 then total else Sum(Paid(stats))
  {
    if |stats| > 0 && total > 0 && Sum(Basis(stats)) > 0 {
      assert Paid(Rewarded(stats, total)) == Divided(total, Basis(stats));
      DividedConserves(total, Basis(stats));
    }
  }

  /** A second run with the same budget changes nothing, for every slice and every budget. */
  lemma RewardedIdempotent(stats: seq<Stat>, total: int)
    requires Uniform(stats)
    ensures Rewarded(Rewarded(stats, total), total) == Rewarded(stats, total)
  {
    if |stats| > 0 && total > 0 && Sum(Basis(stats)) > 0 {
      var once := Rewarded(stats, total);
      assert Basis(once) == Divided(total, Basis(stats));
      DividedIdempotent(total, Basis(stats));
      assert Rewarded(once, total) == once;
    }
  }

  /** Only rewards change, and only when they are all set anew. */
  lemma RewardedKeepsRest(stats: seq<Stat>, total: int, i: nat)
    requires i < |stats|
    ensures
      var after := Rewarded(stats, total)[i];
      && after.account == stats[i].account && after.share == stats[i].share && after.number == stats[i].number
      && (after.reward == stats[i].reward || after.reward.Some?)
  {
  }

  /** What a reward is in proportion to: to the shares in a first dispatch, to the rewards held before in any later one.
      Each new reward is within one unit of that. */
  lemma RewardedFair(stats: seq<Stat>, total: int, i: nat)
    requires i < |stats| && total > 0 && Uniform(stats)
    ensures stats[0].reward.None? && Sum(Shares(stats)) > 0 ==>
              var sum, reward := Sum(Shares(stats)), Rewarded(stats, total)[i].reward;
              reward.Some? && -sum < sum * reward.value - total * stats[i].share <= sum
    ensures stats[0].reward.Some? && Sum(Paid(stats)) > 0 ==>
              var sum, reward := Sum(Paid(stats)), Rewarded(stats, total)[i].reward;
              reward.Some? && -sum < sum * reward.value - total * stats[i].reward.value <= sum
  {
    if stats[0].reward.None? && Sum(Shares(stats)) > 0 {
      DividedFair(total, Shares(stats), i);
    } else if stats[0].reward.Some? && Sum(Paid(stats)) > 0 {
      DividedFair(total, Paid(stats), i);
    }
  }

  predicate NonIncreasing(s: seq<int>)
  {
    forall i, j :: 0 <= i < j < |s| ==> s[i] >= s[j]
  }

  /** The order of the slice survives a first run and any later redispatch of another budget. */
  lemma OrderSurvivesRedispatch(stats: seq<Stat>, first: int, second: int)
    requires Unrewarded(stats) && NonIncreasing(Shares(stats))
    ensures NonIncreasing(Paid(Rewarded(stats, first)))
    ensures NonIncreasing(Paid(Rewarded(Rewarded(stats, first), second)))
  {
    RewardedOrdered(stats, first);
    RewardedOrdered(Rewarded(stats, first), second);
  }

  lemma RewardedOrdered(stats: seq<Stat>, total: int)
    requires Uniform(stats)
    requires NonIncreasing(Basis(stats)) && NonIncreasing(Paid(stats))
    ensures Uniform(Rewarded(stats, total)) && NonIncreasing(Basis(Rewarded(stats, total)))
    ensures NonIncreasing(Paid(Rewarded(stats, total)))
  {
    if |stats| > 0 && total > 0 && Sum(Basis(stats)) > 0 {
      var once := Rewarded(stats, total);
      forall i, j | 0 <= i < j < |stats|
        ensures Paid(once)[i] >= Paid(once)[j]
      {
        DividedOrdered(total, Basis(stats), i, j);
      }
    }
  }
}
