/** The by-exchange volume path: the adjusted budget divided over the exchanges, then redispatched to the accounts. */
module ByVolume {
  import opened Wrappers
  import opened Sums
  import opened Rewards
  import opened AccountStats
  import opened SortedSlice
  import opened VolumeSteps

  /** What the division needs besides the statistics: configured weights, coin balance of each exchange at the sample
      block, length of the settled range, length of the liquidity cycle. */
  datatype Setting = Setting(weights: Option<seq<nat>>, balances: seq<nat>, length: nat, cycleLen: nat)

  function Min(a: int, b: int): int
  {
    if a <= b then a else b
  }

  /** The coin balance that caps exchange `i`, scaled to the settled length. */
  function Cap(i: nat, s: Setting): int
    requires i < |s.balances| && s.cycleLen > 0
  {
    if s.length == s.cycleLen then s.balances[i] else s.balances[i] * s.length / s.cycleLen
  }

  /** A configured weight counts when it is larger than 1. */
  function WeightOf(i: nat, s: Setting): nat
  {
    if s.weights.Some? && i < |s.weights.value| && s.weights.value[i] > 1 then s.weights.value[i] else 1
  }

  /** An exchange counts with its traded volume, capped by its coin balance (scaled to the settled length), times its
      weight; without volume it counts with nothing. */
  function ExchangeShare(sumShare: int, i: nat, s: Setting): int
    requires i < |s.balances| && s.cycleLen > 0
  {
    if sumShare == 0 then 0 else Min(sumShare, Cap(i, s)) * WeightOf(i, s)
  }

  function ExchangeShares(groups: seq<seq<Stat>>, s: Setting): (r: seq<int>)
    requires |s.balances| == |groups| && s.cycleLen > 0
    ensures |r| == |groups|
  {
    seq(|groups|, i requires 0 <= i < |groups| => ExchangeShare(Sum(Shares(groups[i])), i, s))
  }

  /** The parts of the exchanges; empty when they cannot be formed. */
  function VolumeParts(groups: seq<seq<Stat>>, total: int, s: Setting): seq<int>
    requires |s.balances| == |groups| && s.cycleLen > 0
  {
    if |groups| == 1 then [total]
    else if s.weights.Some? && |s.weights.value| != |groups| then []
    else Divided(total, ExchangeShares(groups, s))
  }

  /** The budget less one step reward for each step without volume on any exchange. */
  function Adjusted(totalValue: int, stepReward: int, noVolumes: nat): int
  {
    if noVolumes > 0 && stepReward > 0 then totalValue - stepReward * noVolumes else totalValue
  }

  /** What is dispatched: nothing when there is no budget left or when the parts cannot be formed. */
  function VolumeDispatch(groups: seq<seq<Stat>>, total: int, s: Setting): Option<seq<seq<Stat>>>
    requires |s.balances| == |groups| && s.cycleLen > 0
  {
    if total <= 0 then None
    else
      var parts := VolumeParts(groups, total, s);
      if |parts| != |groups| then None else Some(RewardedGroups(groups, parts))
  }

  /** What the accounts are sent in all. */
  function Payout(dispatched: Option<seq<seq<Stat>>>): int
  {
    if dispatched.None? then 0 else Sum(PaidPerGroup(dispatched.value))
  }

  /** One step reward less for each idle step, when there are step rewards. */
  lemma AdjustedIs(totalValue: int, stepReward: int, noVolumes: nat)
    ensures stepReward > 0 ==> Adjusted(totalValue, stepReward, noVolumes) == totalValue - stepReward * noVolumes
    ensures stepReward <= 0 ==> Adjusted(totalValue, stepReward, noVolumes) == totalValue
  {
  }

  method CapExchangeShare(sumShare: int, i: nat, s: Setting) returns (totalShare: int)
    requires i < |s.balances| && s.cycleLen > 0
    ensures totalShare == ExchangeShare(sumShare, i, s)
  {
    if sumShare == 0 {
      return 0;
    }
    var exCoinBalance := s.balances[i];
    if s.length != s.cycleLen {
      exCoinBalance := exCoinBalance * s.length;
      exCoinBalance := exCoinBalance / s.cycleLen;
    }
    totalShare := sumShare;
    if totalShare > exCoinBalance {
      totalShare := exCoinBalance;
    }
    if s.weights.Some? && i < |s.weights.value| && s.weights.value[i] > 1 {
      totalShare := totalShare * s.weights.value[i];
    } else {
      assert totalShare * 1 == totalShare;
    }
  }

  method CollectExchangeShares(stats: seq<seq<AccountStat>>, s: Setting) returns (exchangeShares: seq<int>)
    requires |s.balances| == |stats| && s.cycleLen > 0
    ensures exchangeShares == ExchangeShares(GroupViews(stats), s)
  {
    exchangeShares := [];
    ghost var groups := GroupViews(stats);
    for i := 0 to |stats|
      invariant exchangeShares == ExchangeShares(groups, s)[..i]
    {
      var sumShare := CalcTotalShare(stats[i]);
      assert groups[i] == Views(stats[i]);
      var share := CapExchangeShare(sumShare, i, s);
      exchangeShares := exchangeShares + [share];
    }
  }

  method DivideVolumeRewardsByExchange(stats: seq<seq<AccountStat>>, totalReward: int, s: Setting)
    returns (rewards: seq<int>)
    requires |s.balances| == |stats| && s.cycleLen > 0
    ensures rewards == VolumeParts(GroupViews(stats), totalReward, s)
  {
    if |stats| == 1 {
      return [totalReward];
    }
    if s.weights.Some? && |s.weights.value| != |stats| {
      return [];
    }
    ghost var groups := GroupViews(stats);
    var exchangeShares := CollectExchangeShares(stats, s);
    assert exchangeShares == ExchangeShares(groups, s);
    var parts, _ := DivideRewards(totalReward, exchangeShares);
    rewards := parts;
    assert GroupViews(stats) == groups;
  }

  method DispatchTotal(stats: seq<seq<AccountStat>>, totalReward: int, s: Setting) returns (dispatched: bool)
    requires |s.balances| == |stats| && s.cycleLen > 0
    requires Separate(stats)
    requires forall i :: 0 <= i < |stats| ==> Uniform(Views(stats[i]))
    modifies Objects(stats)
    ensures dispatched <==> VolumeDispatch(old(GroupViews(stats)), totalReward, s).Some?
    ensures GroupViews(stats) ==
            if dispatched then VolumeDispatch(old(GroupViews(stats)), totalReward, s).value else old(GroupViews(stats))
  {
    if totalReward <= 0 {
      return false;
    }
    var rewards := DivideVolumeRewardsByExchange(stats, totalReward, s);
    if |rewards| != |stats| {
      return false;
    }
    CalcRewardsInBatch(stats, rewards);
    return true;
  }

  method AdjustTotal(totalValue: int, stepReward: int, noVolumes: nat) returns (totalReward: int)
    ensures totalReward == Adjusted(totalValue, stepReward, noVolumes)
  {
    totalReward := totalValue;
    if noVolumes > 0 && stepReward > 0 {
      var subReward := stepReward * noVolumes;
      totalReward := totalReward - subReward;
    }
  }

  /** `ByVolume` from the collected statistics on, in by-exchange mode: the redispatched statistics go out if and only
      if `dispatched` is set, and otherwise keep what they had. */
  method DispatchVolume(stats: seq<seq<AccountStat>>, totalValue: int, stepReward: int, noVolumes: nat, s: Setting)
    returns (dispatched: bool)
    requires |s.balances| == |stats| && s.cycleLen > 0
    requires Separate(stats)
    requires forall i :: 0 <= i < |stats| ==> Uniform(Views(stats[i]))
    modifies Objects(stats)
    ensures
      var after := VolumeDispatch(old(GroupViews(stats)), Adjusted(totalValue, stepReward, noVolumes), s);
      && (dispatched <==> after.Some?)
      && GroupViews(stats) == if dispatched then after.value else old(GroupViews(stats))
  {
    var totalReward := AdjustTotal(totalValue, stepReward, noVolumes);
    dispatched := DispatchTotal(stats, totalReward, s);
  }

  // ----- conservation -----

  /** A slice as the step merge leaves it: every listed trader has a positive share and a positive reward. */
  predicate SliceRewarded(stats: seq<Stat>)
  {
    forall i :: 0 <= i < |stats| ==> stats[i].reward.Some? && PaidTo(stats[i]) > 0 && stats[i].share > 0
  }

  predicate StepRewarded(groups: seq<seq<Stat>>)
  {
    forall g :: 0 <= g < |groups| ==> SliceRewarded(groups[g])
  }

  /** Parts assigned to exchanges without traders. */
  function Unclaimed(groups: seq<seq<Stat>>, parts: seq<int>): (r: seq<int>)
    requires |parts| == |groups|
    ensures |r| == |groups|
  {
    seq(|groups|, g requires 0 <= g < |groups| => if |groups[g]| == 0 then parts[g] else 0)
  }

  /** Step rewards that stay in place because their exchange is assigned nothing. */
  function Stale(groups: seq<seq<Stat>>, parts: seq<int>): (r: seq<int>)
    requires |parts| == |groups|
    ensures |r| == |groups|
  {
    seq(|groups|, g requires 0 <= g < |groups| => if parts[g] == 0 then Sum(Paid(groups[g])) else 0)
  }

  lemma GroupSums(group: seq<Stat>)
    requires SliceRewarded(group)
    ensures Sum(Shares(group)) >= 0 && Sum(Paid(group)) >= 0
    ensures |group| > 0 ==> Sum(Shares(group)) > 0 && Sum(Paid(group)) > 0
    ensures |group| == 0 ==> Sum(Shares(group)) == 0 && Sum(Paid(group)) == 0
  {
    if |group| > 0 {
      ElementAtMostSum(Shares(group), 0);
      ElementAtMostSum(Paid(group), 0);
    }
  }

  /** The cap is the balance, scaled by the settled length over the cycle length and rounded down when they differ. */
  lemma CapIs(i: nat, s: Setting)
    requires i < |s.balances| && s.cycleLen > 0
    ensures s.length == s.cycleLen ==> Cap(i, s) == s.balances[i]
    ensures s.length != s.cycleLen ==>
              0 <= s.balances[i] * s.length - s.cycleLen * Cap(i, s) < s.cycleLen
  {
    if s.length != s.cycleLen {
      FloorBounds(s.balances[i] * s.length, s.cycleLen);
    }
  }

  /** An exchange's share never exceeds its weighted volume or its weighted cap and reaches one of them; an exchange
      with volume counts for nothing exactly when its cap is zero, which is how its traders can be left with nothing
      new. The weight is the one configured for the exchange, if there is one and it is larger than 1. */
  lemma ExchangeShareIsCapped(sumShare: int, i: nat, s: Setting)
    requires i < |s.balances| && s.cycleLen > 0 && sumShare > 0
    ensures
      var weight :=
        if s.weights.Some? && i < |s.weights.value| && s.weights.value[i] > 1 then s.weights.value[i] else 1;
      var share := ExchangeShare(sumShare, i, s);
      && 0 <= share <= sumShare * weight && share <= Cap(i, s) * weight
      && (share == sumShare * weight || share == Cap(i, s) * weight)
      && (share == 0 <==> Cap(i, s) == 0)
  {
    ScaledSign(s.balances[i], s.length, s.cycleLen);
    CappedProduct(sumShare, Cap(i, s), WeightOf(i, s));
  }

  lemma CappedProduct(sumShare: int, cap: int, weight: int)
    requires sumShare > 0 && cap >= 0 && weight >= 1
    ensures Min(sumShare, cap) * weight <= sumShare * weight && Min(sumShare, cap) * weight <= cap * weight
    ensures Min(sumShare, cap) * weight >= 0 && (Min(sumShare, cap) * weight == 0 <==> cap == 0)
  {
    assert (sumShare - Min(sumShare, cap)) * weight >= 0 && (cap - Min(sumShare, cap)) * weight >= 0;
    if cap > 0 {
      assert Min(sumShare, cap) * weight >= 1 * weight;
    }
  }

  lemma ScaledSign(balance: nat, length: nat, cycleLen: nat)
    requires cycleLen > 0
    ensures balance * length / cycleLen >= 0
  {
    DivMonotone(0, balance * length, cycleLen);
  }

  lemma ExchangeShareSigns(sumShare: int, i: nat, s: Setting)
    requires i < |s.balances| && s.cycleLen > 0 && sumShare >= 0
    ensures ExchangeShare(sumShare, i, s) >= 0
    ensures ExchangeShare(sumShare, i, s) > 0 <==> sumShare > 0 && Cap(i, s) > 0
  {
    if sumShare > 0 {
      ScaledSign(s.balances[i], s.length, s.cycleLen);
      ExchangeShareIsCapped(sumShare, i, s);
    }
  }

  /** What an exchange counts with. */
  lemma ShareOfGroup(groups: seq<seq<Stat>>, s: Setting, g: nat)
    requires |s.balances| == |groups| && s.cycleLen > 0
    requires StepRewarded(groups) && g < |groups|
    ensures ExchangeShares(groups, s)[g] >= 0
    ensures ExchangeShares(groups, s)[g] > 0 <==> |groups[g]| > 0 && Cap(g, s) > 0
  {
    GroupSums(groups[g]);
    ExchangeShareSigns(Sum(Shares(groups[g])), g, s);
  }

  /** A single exchange needs no division; several need matching weights, and one with traders whose cap is positive. */
  predicate PartsForm(groups: seq<seq<Stat>>, s: Setting)
    requires |s.balances| == |groups| && s.cycleLen > 0
  {
    || |groups| == 1
    || (&& (s.weights.Some? ==> |s.weights.value| == |groups|)
        && exists g :: 0 <= g < |groups| && |groups[g]| > 0 && Cap(g, s) > 0)
  }

  lemma SharesSum(groups: seq<seq<Stat>>, s: Setting)
    requires |s.balances| == |groups| && s.cycleLen > 0 && StepRewarded(groups)
    ensures Sum(ExchangeShares(groups, s)) > 0 <==> exists g :: 0 <= g < |groups| && |groups[g]| > 0 && Cap(g, s) > 0
  {
    var shares := ExchangeShares(groups, s);
    forall g | 0 <= g < |groups|
      ensures shares[g] >= 0 && (shares[g] > 0 <==> |groups[g]| > 0 && Cap(g, s) > 0)
    {
      ShareOfGroup(groups, s, g);
    }
    if g :| 0 <= g < |groups| && |groups[g]| > 0 && Cap(g, s) > 0 {
      ElementAtMostSum(shares, g);
    } else {
      SumZeros(shares);
    }
  }

  /** Parts can be formed exactly then, whatever the budget. */
  lemma PartsFormIff(groups: seq<seq<Stat>>, total: int, s: Setting)
    requires |s.balances| == |groups| && s.cycleLen > 0
    requires StepRewarded(groups) && |groups| > 0
    ensures |VolumeParts(groups, total, s)| == |groups| <==> PartsForm(groups, s)
  {
    SharesSum(groups, s);
  }

  /** An exchange is assigned something when its weighted, capped share is worth a whole unit of the budget, or stands
      among those that receive the rounding remainder; a single exchange is assigned everything. */
  predicate Assigned(groups: seq<seq<Stat>>, total: int, s: Setting, g: nat)
    requires |s.balances| == |groups| && s.cycleLen > 0 && g < |groups|
  {
    var shares := ExchangeShares(groups, s);
    |groups| == 1 || (Sum(shares) > 0 && (total * shares[g] >= Sum(shares) || g < Leftover(total, shares)))
  }

  /** No part is negative, a part is positive exactly when its exchange is assigned something, and over two or more
      exchanges one without traders is assigned at most one unit. */
  lemma VolumePartSigns(groups: seq<seq<Stat>>, total: int, s: Setting, g: nat)
    requires |s.balances| == |groups| && s.cycleLen > 0
    requires StepRewarded(groups) && total > 0 && g < |groups|
    requires PartsForm(groups, s)
    ensures |VolumeParts(groups, total, s)| == |groups| && VolumeParts(groups, total, s)[g] >= 0
    ensures VolumeParts(groups, total, s)[g] > 0 <==> Assigned(groups, total, s, g)
    ensures |groups| >= 2 && |groups[g]| == 0 ==> VolumeParts(groups, total, s)[g] <= 1
  {
    PartsFormIff(groups, total, s);
    if |groups| >= 2 {
      ShareOfGroup(groups, s, g);
      DividedSigns(total, ExchangeShares(groups, s), g);
      DividedPositiveIff(total, ExchangeShares(groups, s), g);
    }
  }

  lemma PaidAfter(group: seq<Stat>, part: int)
    requires SliceRewarded(group) && part >= 0
    ensures Sum(Paid(Rewarded(group, part))) ==
            part - (if |group| == 0 then part else 0) + (if part == 0 then Sum(Paid(group)) else 0)
  {
    GroupSums(group);
    RewardedConserves(group, part);
  }

  lemma {:induction false} SumThree(a: seq<int>, b: seq<int>, c: seq<int>, d: seq<int>)
    requires |a| == |b| == |c| == |d|
    requires forall i :: 0 <= i < |a| ==> a[i] == b[i] - c[i] + d[i]
    ensures Sum(a) == Sum(b) - Sum(c) + Sum(d)
  {
    if |a| > 0 {
      var n := |a| - 1;
      SumThree(a[..n], b[..n], c[..n], d[..n]);
    }
  }

  lemma PartsSum(groups: seq<seq<Stat>>, total: int, s: Setting)
    requires |s.balances| == |groups| && s.cycleLen > 0
    requires |groups| > 0 && |VolumeParts(groups, total, s)| == |groups|
    ensures Sum(VolumeParts(groups, total, s)) == total
  {
    if |groups| == 1 {
      SumAppend([], total);
      assert [] + [total] == [total];
    } else {
      DividedConserves(total, ExchangeShares(groups, s));
    }
  }

  /** Units assigned to exchanges without traders, in all. */
  function UnclaimedUnits(groups: seq<seq<Stat>>, total: int, s: Setting): int
    requires |s.balances| == |groups| && s.cycleLen > 0
  {
    var parts := VolumeParts(groups, total, s);
    if total <= 0 || |parts| != |groups| then 0 else Sum(Unclaimed(groups, parts))
  }

  /** Step rewards left standing, in all. */
  function StaleUnits(groups: seq<seq<Stat>>, total: int, s: Setting): int
    requires |s.balances| == |groups| && s.cycleLen > 0
  {
    var parts := VolumeParts(groups, total, s);
    if total <= 0 || |parts| != |groups| then 0 else Sum(Stale(groups, parts))
  }

  /** The exact balance of a redispatch: what the accounts are sent is the adjusted budget, less what went to exchanges
      without traders, plus the step rewards left standing on exchanges that were assigned nothing; and nothing at all
      when the parts cannot be formed. */
  lemma VolumeBalance(groups: seq<seq<Stat>>, total: int, s: Setting)
    requires |s.balances| == |groups| && s.cycleLen > 0
    requires StepRewarded(groups) && total > 0 && |groups| > 0
    ensures Payout(VolumeDispatch(groups, total, s)) ==
            if PartsForm(groups, s) then total - UnclaimedUnits(groups, total, s) + StaleUnits(groups, total, s) else 0
  {
    PartsFormIff(groups, total, s);
    if PartsForm(groups, s) {
      var parts := VolumeParts(groups, total, s);
      var after := RewardedGroups(groups, parts);
      forall g | 0 <= g < |groups|
        ensures PaidPerGroup(after)[g] == parts[g] - Unclaimed(groups, parts)[g] + Stale(groups, parts)[g]
      {
        VolumePartSigns(groups, total, s, g);
        PaidAfter(groups[g], parts[g]);
      }
      SumThree(PaidPerGroup(after), parts, Unclaimed(groups, parts), Stale(groups, parts));
      PartsSum(groups, total, s);
    }
  }

  /** Every exchange with traders is assigned something. */
  predicate AllAssigned(groups: seq<seq<Stat>>, total: int, s: Setting)
    requires |s.balances| == |groups| && s.cycleLen > 0
  {
    forall g :: 0 <= g < |groups| && |groups[g]| > 0 ==> Assigned(groups, total, s, g)
  }

  lemma StaleIff(groups: seq<seq<Stat>>, total: int, s: Setting)
    requires |s.balances| == |groups| && s.cycleLen > 0
    requires StepRewarded(groups) && total > 0 && PartsForm(groups, s)
    ensures StaleUnits(groups, total, s) >= 0
    ensures StaleUnits(groups, total, s) == 0 <==> AllAssigned(groups, total, s)
  {
    PartsFormIff(groups, total, s);
    var parts := VolumeParts(groups, total, s);
    var stale := Stale(groups, parts);
    forall g | 0 <= g < |groups|
      ensures stale[g] >= 0
      ensures stale[g] > 0 <==> |groups[g]| > 0 && !Assigned(groups, total, s, g)
    {
      VolumePartSigns(groups, total, s, g);
      GroupSums(groups[g]);
    }
    SumNonNegative(stale);
    if AllAssigned(groups, total, s) {
      SumZeros(stale);
    } else {
      var g :| 0 <= g < |groups| && |groups[g]| > 0 && !Assigned(groups, total, s, g);
      ElementAtMostSum(stale, g);
    }
  }

  /** Conservation of the by-exchange path, for every budget: the accounts are sent exactly the budget, less the units
      of exchanges without traders, if and only if there is nothing to send, or the parts can be formed and every
      exchange with traders is assigned something. */
  lemma VolumeConservesIff(groups: seq<seq<Stat>>, total: nat, s: Setting)
    requires |s.balances| == |groups| && s.cycleLen > 0
    requires StepRewarded(groups) && |groups| > 0
    ensures Payout(VolumeDispatch(groups, total, s)) == total - UnclaimedUnits(groups, total, s) <==>
            total == 0 || (PartsForm(groups, s) && AllAssigned(groups, total, s))
  {
    if total > 0 {
      VolumeBalance(groups, total, s);
      PartsFormIff(groups, total, s);
      if PartsForm(groups, s) {
        StaleIff(groups, total, s);
      }
    }
  }

  ghost function AllWindows(opt: VolumeOption, exchanges: seq<VolumeSource>): (r: seq<seq<seq<Stat>>>)
    requires opt.StepsChecked() && opt.stepCount > 0
    ensures |r| == |exchanges|
    ensures forall e :: 0 <= e < |exchanges| ==> |r[e]| == opt.Steps()
  {
    seq(|exchanges|, e requires 0 <= e < |exchanges| => opt.Windows(exchanges[e]))
  }

  /** The number of steps in which some exchange has a trader. */
  ghost function BusyCount(opt: VolumeOption, exchanges: seq<VolumeSource>): nat
    requires opt.StepsChecked() && opt.stepCount > 0
  {
    |BusySteps(AllWindows(opt, exchanges), opt.Steps())|
  }

  lemma BudgetIsBusySteps(opt: VolumeOption, exchanges: seq<VolumeSource>)
    requires opt.StepsChecked() && opt.stepCount > 0 && opt.stepReward > 0 && |exchanges| > 0
    requires opt.totalValue == opt.stepReward * opt.Steps()
    ensures Adjusted(opt.totalValue, opt.stepReward, |UpdatedAll(opt.EmptyListsOf(exchanges)).starts|) ==
            opt.stepReward * BusyCount(opt, exchanges)
  {
    StartsDiffer(opt.startHeight, opt.stepCount, opt.Steps());
    assert opt.EmptyListsOf(exchanges) == EmptyLists(AllWindows(opt, exchanges), opt.StepStarts());
    AdjustedBudget(AllWindows(opt, exchanges), opt.StepStarts(), opt.stepReward);
  }

  lemma MulDivBack(stepReward: int, steps: int)
    requires steps > 0
    ensures stepReward * steps / steps == stepReward
  {
    MulDiv(steps, stepReward);
    assert steps * stepReward == stepReward * steps;
  }

  /** The runner's whole volume path, from stored windows to payout. With one step reward of budget per step, the
      budget left is one step reward for each step with volume on some exchange, and all of it is sent to traders,
      except units assigned to exchanges without any, exactly when no step has volume, or the parts can be formed and
      every exchange with traders is assigned something. */
  lemma VolumePathPaysBusySteps(opt: VolumeOption, exchanges: seq<VolumeSource>, slices: seq<seq<Stat>>, s: Setting)
    requires opt.StepsChecked() && opt.stepCount > 0 && opt.stepReward > 0
    requires opt.totalValue == opt.stepReward * opt.Steps()
    requires |exchanges| == |slices| == |s.balances| > 0 && s.cycleLen > 0
    requires forall e :: 0 <= e < |exchanges| ==> ValidSource(exchanges[e])
    requires opt.AreExchangeSlices(slices, exchanges)
    ensures
      var noVolumes := |UpdatedAll(opt.EmptyListsOf(exchanges)).starts|;
      var busy := BusyCount(opt, exchanges);
      var total := opt.stepReward * busy;
      && Adjusted(opt.totalValue, opt.stepReward, noVolumes) == total
      && (Payout(VolumeDispatch(slices, total, s)) == total - UnclaimedUnits(slices, total, s) <==>
          busy == 0 || (PartsForm(slices, s) && AllAssigned(slices, total, s)))
  {
    opt.StepsCoverRange();
    MulDivBack(opt.stepReward, opt.Steps());
    BudgetIsBusySteps(opt, exchanges);
    SlicesStepRewarded(opt, exchanges, slices);
    PositiveProduct(opt.stepReward, BusyCount(opt, exchanges));
    VolumeConservesIff(slices, opt.stepReward * BusyCount(opt, exchanges), s);
  }

  lemma PositiveProduct(a: int, n: nat)
    requires a > 0
    ensures a * n >= 0 && (a * n == 0 <==> n == 0)
  {
    if n > 0 {
      MulAtLeast(a, n);
    }
  }

  lemma SlicesStepRewarded(opt: VolumeOption, exchanges: seq<VolumeSource>, slices: seq<seq<Stat>>)
    requires opt.StepsChecked() && opt.stepCount > 0 && opt.Steps() > 0
    requires opt.totalValue / opt.Steps() > 0 && |exchanges| == |slices|
    requires forall e :: 0 <= e < |exchanges| ==> ValidSource(exchanges[e])
    requires opt.AreExchangeSlices(slices, exchanges)
    ensures StepRewarded(slices)
  {
    forall e | 0 <= e < |slices|
      ensures SliceRewarded(slices[e])
    {
      opt.EachExchangeSlice(slices, exchanges, e);
      opt.ExchangeSliceConserves(slices[e], exchanges[e], opt.totalValue / opt.Steps());
    }
  }

  lemma SortedByReward(stats: seq<Stat>)
    requires Sorted(stats) && DistinctAccounts(stats) && SliceRewarded(stats)
    ensures NonIncreasing(Paid(stats))
  {
    forall i, j | 0 <= i < j < |stats|
      ensures Paid(stats)[i] >= Paid(stats)[j]
    {
      SortedPairs(stats, i, j);
    }
  }

  /** Accounts are listed by merged step reward, larger ones first, and stay so when they are redispatched: nobody
      overtakes an account that ranked before. */
  lemma RankSurvivesDispatch(opt: VolumeOption, exchanges: seq<VolumeSource>, slices: seq<seq<Stat>>, total: int,
                             s: Setting, g: nat)
    requires opt.StepsChecked() && opt.stepCount > 0 && opt.totalValue >= opt.Steps()
    requires |exchanges| == |slices| == |s.balances| && s.cycleLen > 0 && g < |slices|
    requires forall e :: 0 <= e < |exchanges| ==> ValidSource(exchanges[e])
    requires opt.AreExchangeSlices(slices, exchanges)
    ensures NonIncreasing(Paid(slices[g]))
    ensures VolumeDispatch(slices, total, s).Some? ==> NonIncreasing(Paid(VolumeDispatch(slices, total, s).value[g]))
  {
    opt.StepsCoverRange();
    AtLeastOne(opt.totalValue, opt.Steps());
    SlicesStepRewarded(opt, exchanges, slices);
    opt.EachExchangeSlice(slices, exchanges, g);
    opt.ExchangeSliceConserves(slices[g], exchanges[g], opt.totalValue / opt.Steps());
    assert SliceRewarded(slices[g]);
    SortedByReward(slices[g]);
    if VolumeDispatch(slices, total, s).Some? {
      RewardedOrdered(slices[g], VolumeParts(slices, total, s)[g]);
    }
  }

  lemma AtLeastOne(total: int, count: int)
    requires total >= count > 0
    ensures total / count > 0
  {
  }

  lemma SumOne(a: int)
    ensures Sum([a]) == a
  {
    SumAppend([], a);
    assert [] + [a] == [a];
  }

  lemma SumTwo(a: int, b: int)
    ensures Sum([a, b]) == a + b
  {
    SumOne(a);
    SumAppend([a], b);
    assert [a] + [b] == [a, b];
  }

  /** Two traders with equal step rewards and volumes, on exchanges of which the first one's pool is empty. */
  const EMPTY_POOL: seq<seq<Stat>> := [[Stat(1, Some(10), 5, 1)], [Stat(2, Some(10), 5, 1)]]
  const EMPTY_POOL_SETTING: Setting := Setting(None, [0, 100], 1, 1)

  lemma EmptyPoolParts()
    ensures StepRewarded(EMPTY_POOL) && VolumeParts(EMPTY_POOL, 10, EMPTY_POOL_SETTING) == [0, 10]
  {
    assert Shares(EMPTY_POOL[0]) == [5] && Shares(EMPTY_POOL[1]) == [5];
    SumOne(5);
    assert ExchangeShares(EMPTY_POOL, EMPTY_POOL_SETTING) == [0, 5];
    SumTwo(0, 5);
    assert Floors(10, [0, 5]) == [0, 10];
    SumTwo(0, 10);
  }

  /** The two sides do come apart: an exchange whose pool is empty at the sample block keeps its traders' step
      rewards, and twice the budget of 10 is sent. */
  lemma EmptyPoolPaysTwice()
    ensures StepRewarded(EMPTY_POOL) && VolumeParts(EMPTY_POOL, 10, EMPTY_POOL_SETTING) == [0, 10]
    ensures Payout(VolumeDispatch(EMPTY_POOL, 10, EMPTY_POOL_SETTING)) == 20
  {
    EmptyPoolParts();
    var parts := [0, 10];
    assert PartsForm(EMPTY_POOL, EMPTY_POOL_SETTING) by {
      assert |EMPTY_POOL[1]| > 0 && Cap(1, EMPTY_POOL_SETTING) > 0;
    }
    VolumeBalance(EMPTY_POOL, 10, EMPTY_POOL_SETTING);
    assert Unclaimed(EMPTY_POOL, parts) == [0, 0];
    assert Paid(EMPTY_POOL[0]) == [10];
    SumOne(10);
    assert Stale(EMPTY_POOL, parts) == [10, 0];
    SumTwo(10, 0);
    SumTwo(0, 0);
  }

  /** With both pools empty at the sample block no parts can be formed, and of a budget of 20 nothing is sent, although
      both exchanges have traders. */
  lemma EmptyPoolsPayNothing()
    ensures StepRewarded(EMPTY_POOL) && !PartsForm(EMPTY_POOL, Setting(None, [0, 0], 1, 1))
    ensures VolumeDispatch(EMPTY_POOL, 20, Setting(None, [0, 0], 1, 1)) == None
    ensures Payout(VolumeDispatch(EMPTY_POOL, 20, Setting(None, [0, 0], 1, 1))) == 0
  {
    var s := Setting(None, [0, 0], 1, 1);
    assert forall g :: 0 <= g < |EMPTY_POOL| ==> Cap(g, s) == 0;
    PartsFormIff(EMPTY_POOL, 20, s);
  }
}
