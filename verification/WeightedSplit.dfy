/** What the two rounding passes of `CalcWeightedRewards` guarantee together. */
module WeightedSplit {
  import opened Wrappers
  import opened Sums
  import opened Rewards
  import opened AccountStats

  /** A first dispatch: no rewards yet, no negative shares, one weight per slice, some weighted share to divide by. */
  ghost predicate FirstDispatch(groups: seq<seq<Stat>>, weights: Option<seq<nat>>)
  {
    && (weights.Some? ==> |weights.value| == |groups|)
    && (forall g :: 0 <= g < |groups| ==> Unrewarded(groups[g]) && NonNegativeShares(groups[g]))
    && Sum(GroupShares(groups, weights)) > 0
  }

  lemma GroupShareSigns(groups: seq<seq<Stat>>, weights: Option<seq<nat>>, g: nat)
    requires FirstDispatch(groups, weights) && g < |groups|
    ensures 0 <= Sum(Shares(groups[g]))
    ensures GroupShares(groups, weights)[g] >= 0
    ensures Sum(Shares(groups[g])) == 0 ==> GroupShares(groups, weights)[g] == 0
  {
    SumNonNegative(Shares(groups[g]));
    assert WeightAt(weights, g) * Sum(Shares(groups[g])) >= 0;
  }

  /** The part of slice `g`, as the division over the slices assigns it; a single slice gets the whole budget. */
  ghost function Part(groups: seq<seq<Stat>>, total: int, weights: Option<seq<nat>>, g: nat): int
    requires FirstDispatch(groups, weights) && g < |groups|
  {
    Divided(total, GroupShares(groups, weights))[g]
  }

  /** The special case for one slice agrees with the division over the slices. */
  lemma WeightedRewardsAt(groups: seq<seq<Stat>>, total: int, weights: Option<seq<nat>>, g: nat)
    requires FirstDispatch(groups, weights) && g < |groups|
    ensures WeightedRewards(groups, total, weights)[g] == Rewarded(groups[g], Part(groups, total, weights, g))
  {
    if |groups| == 1 {
      var parts := Divided(total, GroupShares(groups, weights));
      DividedConserves(total, GroupShares(groups, weights));
      assert parts == [parts[0]];
      SumAppend([], parts[0]);
      assert [] + [parts[0]] == parts;
    }
  }

  // ----- conservation -----

  /** Slices without any share among the first `left`, marked by 1. */
  ghost function EmptyBefore(groups: seq<seq<Stat>>, left: int): (r: seq<int>)
    ensures |r| == |groups|
  {
    seq(|groups|, g requires 0 <= g < |groups| => if g < left && Sum(Shares(groups[g])) == 0 then 1 else 0)
  }

  lemma PaidInSlice(slice: seq<Stat>, part: int)
    requires Unrewarded(slice) && NonNegativeShares(slice) && part >= 0
    ensures Sum(Paid(Rewarded(slice, part))) == if Sum(Shares(slice)) > 0 then part else 0
  {
    RewardedConserves(slice, part);
    SumZeros(Paid(slice));
  }

  lemma PartSigns(groups: seq<seq<Stat>>, total: int, weights: Option<seq<nat>>, g: nat)
    requires FirstDispatch(groups, weights) && total >= 0 && g < |groups|
    ensures Part(groups, total, weights, g) >= 0
    ensures Sum(Shares(groups[g])) == 0 ==>
              Part(groups, total, weights, g) == EmptyBefore(groups, Leftover(total, GroupShares(groups, weights)))[g]
  {
    GroupShareSigns(groups, weights, g);
    DividedSigns(total, GroupShares(groups, weights), g);
  }

  lemma PaidInGroup(groups: seq<seq<Stat>>, total: int, weights: Option<seq<nat>>, g: nat)
    requires FirstDispatch(groups, weights) && total >= 0 && g < |groups|
    ensures Part(groups, total, weights, g) >= 0
    ensures Sum(Paid(WeightedRewards(groups, total, weights)[g])) +
            EmptyBefore(groups, Leftover(total, GroupShares(groups, weights)))[g] == Part(groups, total, weights, g)
  {
    var part, left := Part(groups, total, weights, g), Leftover(total, GroupShares(groups, weights));
    PartSigns(groups, total, weights, g);
    GroupShareSigns(groups, weights, g);
    WeightedRewardsAt(groups, total, weights, g);
    PaidOrEmpty(groups, g, part, left);
  }

  lemma PaidOrEmpty(groups: seq<seq<Stat>>, g: nat, part: int, left: int)
    requires g < |groups| && Unrewarded(groups[g]) && NonNegativeShares(groups[g]) && part >= 0
    requires Sum(Shares(groups[g])) >= 0
    requires Sum(Shares(groups[g])) == 0 ==> part == EmptyBefore(groups, left)[g]
    ensures Sum(Paid(Rewarded(groups[g], part))) + EmptyBefore(groups, left)[g] == part
  {
    PaidInSlice(groups[g], part);
  }

  /** Conservation of the two-level split: the accounts together receive the budget, less one unit for each slice
      without shares that stands among the first `Leftover` slices. Nothing else is lost and nothing is created. */
  lemma WeightedSplitConserves(groups: seq<seq<Stat>>, total: int, weights: Option<seq<nat>>)
    requires FirstDispatch(groups, weights) && total >= 0
    ensures Sum(PaidPerGroup(WeightedRewards(groups, total, weights))) ==
            total - Sum(EmptyBefore(groups, Leftover(total, GroupShares(groups, weights))))
  {
    var paid := PaidPerGroup(WeightedRewards(groups, total, weights));
    var lost := EmptyBefore(groups, Leftover(total, GroupShares(groups, weights)));
    var parts := Divided(total, GroupShares(groups, weights));
    forall g | 0 <= g < |groups|
      ensures parts[g] == paid[g] + lost[g]
    {
      PaidInGroup(groups, total, weights, g);
    }
    SumAdd(paid, lost, parts);
    DividedConserves(total, GroupShares(groups, weights));
  }

  /** The whole budget is paid out exactly when every slice among the first `Leftover` ones has shares. */
  lemma WeightedSplitPaysAllIff(groups: seq<seq<Stat>>, total: int, weights: Option<seq<nat>>)
    requires FirstDispatch(groups, weights) && total >= 0
    ensures Sum(PaidPerGroup(WeightedRewards(groups, total, weights))) == total <==>
            forall g :: 0 <= g < |groups| && g < Leftover(total, GroupShares(groups, weights)) ==>
                          Sum(Shares(groups[g])) > 0
  {
    var left := Leftover(total, GroupShares(groups, weights));
    var lost := EmptyBefore(groups, left);
    WeightedSplitConserves(groups, total, weights);
    forall g | 0 <= g < |groups|
      ensures Sum(Shares(groups[g])) >= 0 && lost[g] <= Sum(lost)
    {
      GroupShareSigns(groups, weights, g);
      ElementAtMostSum(lost, g);
    }
    if forall g :: 0 <= g < |groups| && g < left ==> Sum(Shares(groups[g])) > 0 {
      SumZeros(lost);
    } else {
      var g :| 0 <= g < |groups| && g < left && Sum(Shares(groups[g])) <= 0;
      assert lost[g] == 1;
    }
  }

  // ----- fairness -----

  lemma MulBounds(a: int, b: int, m: int)
    requires a >= 0 && -m <= b <= m
    ensures -(a * m) <= a * b <= a * m
  {
    assert a * (m - b) >= 0 && a * (m + b) >= 0;
    assert a * (m - b) == a * m - a * b && a * (m + b) == a * m + a * b;
  }

  lemma MulNegate(a: int, m: int)
    ensures a * -m == -(a * m)
  {
  }

  lemma CancelBounds(a: int, b: int, m: int)
    requires a > 0 && -(a * m) <= a * b <= a * m
    ensures -m <= b <= m
  {
    if b > m {
      MulOrder(a, m, b);
    } else if b < -m {
      MulNegate(a, m);
      MulOrder(a, b, -m);
    }
  }

  lemma Rearrange(budget: int, share: int, sum: int, part: int, all: int, reward: int)
    ensures sum * (all * reward - budget * share) ==
            all * (sum * reward - part * share) + share * (all * part - budget * sum)
  {
    calc {
      all * (sum * reward - part * share) + share * (all * part - budget * sum);
      all * (sum * reward) - all * (part * share) + share * (all * part) - share * (budget * sum);
      { assert all * (part * share) == share * (all * part); }
      all * (sum * reward) - share * (budget * sum);
      { assert all * (sum * reward) == sum * (all * reward) && share * (budget * sum) == sum * (budget * share); }
      sum * (all * reward) - sum * (budget * share);
      sum * (all * reward - budget * share);
    }
  }

  lemma BoundedErrors(share: int, sum: int, all: int, outer: int, inner: int)
    requires sum > 0 && all > 0 && 0 <= share <= sum
    requires -all <= outer <= all && -sum <= inner <= sum
    ensures -(sum * (2 * all)) <= all * inner + share * outer <= sum * (2 * all)
  {
    MulBounds(all, inner, sum);
    MulBounds(share, outer, all);
    MulBounds(all, share, sum);
    Commute(share, all);
    TwiceProduct(sum, all);
    TwoBounds(all * inner, share * outer, all * sum);
  }

  lemma TwoBounds(a: int, b: int, bound: int)
    requires -bound <= a <= bound && -bound <= b <= bound
    ensures -(2 * bound) <= a + b <= 2 * bound
  {
  }

  lemma Commute(a: int, b: int)
    ensures a * b == b * a
  {
  }

  lemma TwiceProduct(a: int, b: int)
    ensures a * (2 * b) == 2 * (b * a)
  {
  }

  /** Two roundings, each off by at most one unit, are together off by at most two. */
  lemma TwoRoundings(budget: int, share: int, sum: int, part: int, all: int, reward: int)
    requires sum > 0 && all > 0 && 0 <= share <= sum
    requires -all <= all * part - budget * sum <= all
    requires -sum <= sum * reward - part * share <= sum
    ensures -2 * all <= all * reward - budget * share <= 2 * all
  {
    BoundedErrors(share, sum, all, all * part - budget * sum, sum * reward - part * share);
    Rearrange(budget, share, sum, part, all, reward);
    CancelBounds(sum, all * reward - budget * share, 2 * all);
  }

  lemma MulAssociative(a: int, b: int, c: int)
    ensures a * (b * c) == a * b * c
  {
  }

  lemma SliceFair(groups: seq<seq<Stat>>, total: int, weights: Option<seq<nat>>, g: nat)
    requires FirstDispatch(groups, weights) && g < |groups|
    ensures
      var all := Sum(GroupShares(groups, weights));
      -all < all * Part(groups, total, weights, g) - total * WeightAt(weights, g) * Sum(Shares(groups[g])) <= all
  {
    DividedFair(total, GroupShares(groups, weights), g);
    MulAssociative(total, WeightAt(weights, g), Sum(Shares(groups[g])));
  }

  lemma AccountFair(slice: seq<Stat>, part: int, budget: int, all: int, i: nat)
    requires Unrewarded(slice) && NonNegativeShares(slice) && i < |slice|
    requires part >= 0 && budget >= 0 && all > 0
    requires -all < all * part - budget * Sum(Shares(slice)) <= all
    ensures -2 * all <= all * PaidTo(Rewarded(slice, part)[i]) - budget * slice[i].share <= 2 * all
  {
    var sum := Sum(Shares(slice));
    ElementAtMostSum(Shares(slice), i);
    if sum > 0 && part > 0 {
      DividedFair(part, Shares(slice), i);
      TwoRoundings(budget, slice[i].share, sum, part, all, Divided(part, Shares(slice))[i]);
    } else {
      MulMonotone(budget, 0, slice[i].share);
      MulMonotone(budget, slice[i].share, sum);
    }
  }

  /** Each slice counts with its own weight times its shares, or with its shares when no weights are given. */
  lemma GroupSharesAre(groups: seq<seq<Stat>>, weights: Option<seq<nat>>, g: nat)
    requires weights.Some? ==> |weights.value| == |groups|
    requires g < |groups|
    ensures weights.Some? ==> GroupShares(groups, weights)[g] == weights.value[g] * Sum(Shares(groups[g]))
    ensures weights.None? ==> GroupShares(groups, weights)[g] == Sum(Shares(groups[g]))
  {
  }

  lemma FairAtWeight(groups: seq<seq<Stat>>, total: int, weights: Option<seq<nat>>, g: nat, i: nat)
    requires FirstDispatch(groups, weights) && total >= 0
    requires g < |groups| && i < |groups[g]|
    ensures
      var all := Sum(GroupShares(groups, weights));
      var ideal := total * WeightAt(weights, g) * groups[g][i].share;
      -2 * all <= all * PaidTo(WeightedRewards(groups, total, weights)[g][i]) - ideal <= 2 * all
  {
    WeightedRewardsAt(groups, total, weights, g);
    SliceFair(groups, total, weights, g);
    PaidInGroup(groups, total, weights, g);
    MulMonotone(total, 0, WeightAt(weights, g));
    AccountFair(groups[g], Part(groups, total, weights, g), total * WeightAt(weights, g),
                Sum(GroupShares(groups, weights)), i);
  }

  /** Fairness of the two-level split: each account's final reward, an unassigned one counting as 0, is within two
      units of its ideal share of the budget, weighted with the weight configured for its slice, if there are any. */
  lemma WeightedSplitFair(groups: seq<seq<Stat>>, total: int, weights: Option<seq<nat>>, g: nat, i: nat)
    requires FirstDispatch(groups, weights) && total >= 0
    requires g < |groups| && i < |groups[g]|
    ensures
      var all := Sum(GroupShares(groups, weights));
      var ideal := if weights.Some? then total * weights.value[g] * groups[g][i].share else total * groups[g][i].share;
      -2 * all <= all * PaidTo(WeightedRewards(groups, total, weights)[g][i]) - ideal <= 2 * all
  {
    FairAtWeight(groups, total, weights, g, i);
    WeightIs(weights, g, total);
  }

  lemma WeightIs(weights: Option<seq<nat>>, g: nat, total: int)
    requires weights.Some? ==> g < |weights.value|
    ensures total * WeightAt(weights, g) == if weights.Some? then total * weights.value[g] else total
  {
  }
}
