/** Proportional division of a budget with hand-out of the rounding remainder.

    Big integers are `int`; the source's `Div` and `Mod` on big integers are Euclidean, as `/` and `%` are here.
    A nil result slice is the empty sequence. */
module Rewards {
  import opened Seqs
  import opened Sums

  /** Each share's entitlement, rounded down. */
  function Floors(total: int, shares: seq<int>): (r: seq<int>)
    requires Sum(shares) > 0
    ensures |r| == |shares|
  {
    seq(|shares|, i requires 0 <= i < |shares| => total * shares[i] / Sum(shares))
  }

  /** What rounding down leaves over. */
  function Leftover(total: int, shares: seq<int>): int
    requires Sum(shares) > 0
  {
    total - Sum(Floors(total, shares))
  }

  /** Reference division: every share rounded down, and one extra unit for each of the first `Leftover` entries. */
  function Divided(total: int, shares: seq<int>): (r: seq<int>)
    ensures |r| == if Sum(shares) > 0 then |shares| else 0
  {
    if Sum(shares) <= 0 then []
    else
      var left := Leftover(total, shares);
      seq(|shares|, i requires 0 <= i < |shares| => Floors(total, shares)[i] + if i < left then 1 else 0)
  }

  lemma FloorBounds(num: int, sum: int)
    requires sum > 0
    ensures 0 <= num - sum * (num / sum) <= sum - 1
  {
  }

  lemma RemainderStep(total: int, sum: int, a: int, share: int, b: int, floor: int, k: nat)
    requires 0 <= total * a - sum * b <= k * (sum - 1)
    requires 0 <= total * share - sum * floor <= sum - 1
    ensures 0 <= total * (a + share) - sum * (b + floor) <= (k + 1) * (sum - 1)
  {
    assert total * (a + share) == total * a + total * share;
    assert sum * (b + floor) == sum * b + sum * floor;
    assert (k + 1) * (sum - 1) == k * (sum - 1) + (sum - 1);
  }

  lemma {:induction false} PrefixRemainder(total: int, shares: seq<int>, k: nat)
    requires Sum(shares) > 0 && k <= |shares|
    ensures 0 <= total * Sum(shares[..k]) - Sum(shares) * Sum(Floors(total, shares)[..k]) <= k * (Sum(shares) - 1)
  {
    if k > 0 {
      PrefixRemainder(total, shares, k - 1);
      var floors := Floors(total, shares);
      assert shares[..k][..k - 1] == shares[..k - 1];
      assert floors[..k][..k - 1] == floors[..k - 1];
      FloorBounds(total * shares[k - 1], Sum(shares));
      RemainderStep(total, Sum(shares), Sum(shares[..k - 1]), shares[k - 1],
                    Sum(floors[..k - 1]), floors[k - 1], k - 1);
    }
  }

  lemma MulAtLeast(sum: int, d: int)
    requires sum > 0 && d >= 1
    ensures sum * d >= sum
  {
    assert sum * d == sum * (d - 1) + sum;
  }

  lemma MulOrder(sum: int, x: int, y: int)
    requires sum > 0 && x < y
    ensures sum * x <= sum * y - sum
  {
    MulAtLeast(sum, y - x);
    assert sum * (y - x) == sum * y - sum * x;
  }

  lemma BetweenMultiples(sum: int, left: int, count: nat)
    requires sum > 0 && count > 0
    requires 0 <= sum * left <= count * (sum - 1)
    ensures 0 <= left < count
  {
    assert count * (sum - 1) == sum * count - count;
    if left < 0 {
      MulOrder(sum, left, 0);
    } else if left >= count {
      MulOrder(sum, count, left + 1);
    }
  }

  /** The remainder never reaches the number of entries, whatever the signs of the budget and of the single shares:
      the averaging branch of the hand-out never adds anything. */
  lemma LeftoverBelowCount(total: int, shares: seq<int>)
    requires Sum(shares) > 0
    ensures 0 <= Leftover(total, shares) < |shares|
  {
    var floors := Floors(total, shares);
    PrefixRemainder(total, shares, |shares|);
    TakeAll(shares);
    TakeAll(floors);
    RemainderBelowCount(total, Sum(shares), Sum(floors), |shares|);
  }

  lemma RemainderBelowCount(total: int, sum: int, floors: int, count: nat)
    requires sum > 0 && count > 0
    requires 0 <= total * sum - sum * floors <= count * (sum - 1)
    ensures 0 <= total - floors < count
  {
    assert total * sum - sum * floors == sum * (total - floors);
    BetweenMultiples(sum, total - floors, count);
  }

  /** 1 at the first `n` of `count` places. */
  function Ones(n: nat, count: nat): (r: seq<int>)
    requires n <= count
    ensures |r| == count
  {
    seq(count, i => if i < n then 1 else 0)
  }

  lemma {:induction false} SumOnes(n: nat, count: nat)
    requires n <= count
    ensures Sum(Ones(n, count)) == n
  {
    if count > 0 {
      var m := if n < count then n else count - 1;
      SumOnes(m, count - 1);
      assert Ones(n, count)[..count - 1] == Ones(m, count - 1);
    }
  }

  /** Conservation: whenever there is something to divide by, the parts add up to the budget exactly. */
  lemma DividedConserves(total: int, shares: seq<int>)
    requires Sum(shares) > 0
    ensures Sum(Divided(total, shares)) == total
  {
    LeftoverBelowCount(total, shares);
    var left := Leftover(total, shares);
    SumOnes(left, |shares|);
    SumAdd(Floors(total, shares), Ones(left, |shares|), Divided(total, shares));
  }

  method AddUp(values: seq<int>) returns (sum: int)
    ensures sum == Sum(values)
  {
    sum := 0;
    for i := 0 to |values|
      invariant sum == Sum(values[..i])
    {
      assert values[..i + 1][..i] == values[..i];
      sum := sum + values[i];
    }
    assert values[..|values|] == values;
  }

  lemma SmallDiv(left: int, count: int)
    requires 0 <= left < count
    ensures left / count == 0 && left % count == left
  {
  }

  /** The hand-out loop: `avg` to everyone and one more unit to the first `mod` entries. */
  method HandOut(floors: seq<int>, left: int) returns (rewards: seq<int>)
    requires 0 <= left && |floors| > 0
    ensures |rewards| == |floors|
    ensures forall k :: 0 <= k < |floors| ==>
              rewards[k] == floors[k] + left / |floors| + if k < left % |floors| then 1 else 0
  {
    var count := |floors|;
    var avg := left / count;
    var mod := left % count;
    assert avg >= 0;
    rewards := floors;
    for i := 0 to count
      invariant |rewards| == count
      invariant forall k :: 0 <= k < i ==> rewards[k] == floors[k] + avg + if k < mod then 1 else 0
      invariant forall k :: i <= k < count ==> rewards[k] == floors[k]
    {
      if avg > 0 {
        rewards := rewards[i := rewards[i] + avg];
      }
      if i < mod {
        rewards := rewards[i := rewards[i] + 1];
      }
    }
  }

  /** `DivideRewards`: the loops of the source, with its averaging branch and its final check of the sum. */
  method DivideRewards(totalReward: int, totalShareSlice: seq<int>) returns (rewards: seq<int>, verified: bool)
    ensures rewards == Divided(totalReward, totalShareSlice)
    ensures Sum(totalShareSlice) > 0 ==> Sum(rewards) == totalReward
    ensures verified
  {
    var sumTotalShare := AddUp(totalShareSlice);
    rewards, verified := [], true;
    if sumTotalShare <= 0 {
      return;
    }
    ghost var floors := Floors(totalReward, totalShareSlice);
    var sumReward := 0;
    for i := 0 to |totalShareSlice|
      invariant rewards == floors[..i]
      invariant sumReward == Sum(floors[..i])
    {
      var reward := totalReward * totalShareSlice[i] / sumTotalShare;
      assert floors[..i + 1] == floors[..i] + [reward];
      SumAppend(floors[..i], reward);
      sumReward := sumReward + reward;
      rewards := rewards + [reward];
    }
    assert rewards == floors;
    LeftoverBelowCount(totalReward, totalShareSlice);
    if sumReward < totalReward {
      SmallDiv(totalReward - sumReward, |rewards|);
      rewards := HandOut(rewards, totalReward - sumReward);
    }
    DividedConserves(totalReward, totalShareSlice);
    assert rewards == Divided(totalReward, totalShareSlice);
    sumReward := AddUp(rewards);
    verified := sumReward == totalReward;
  }

  /** Fairness: no part is a whole unit below its ideal share, nor more than one unit above it. */
  lemma DividedFair(total: int, shares: seq<int>, i: nat)
    requires Sum(shares) > 0 && i < |shares|
    ensures -Sum(shares) < Sum(shares) * Divided(total, shares)[i] - total * shares[i] <= Sum(shares)
  {
    FloorBounds(total * shares[i], Sum(shares));
    MulSucc(Sum(shares), Floors(total, shares)[i]);
  }

  lemma MulSucc(sum: int, x: int)
    ensures sum * (x + 1) == sum * x + sum
  {
  }

  /** The division is determined by conservation: any rounding of the shares that adds up to the budget and favours
      the front of the list is this one. */
  lemma {:induction false} DividedUnique(total: int, shares: seq<int>, parts: seq<int>)
    requires Sum(shares) > 0 && |parts| == |shares|
    requires forall i :: 0 <= i < |parts| ==> 0 <= parts[i] - Floors(total, shares)[i] <= 1
    requires forall i, j :: 0 <= i < j < |parts| ==>
                parts[j] - Floors(total, shares)[j] <= parts[i] - Floors(total, shares)[i]
    requires Sum(parts) == total
    ensures parts == Divided(total, shares)
  {
    var floors := Floors(total, shares);
    var extra := seq(|parts|, i requires 0 <= i < |parts| => parts[i] - floors[i]);
    SumAdd(floors, extra, parts);
    PrefixOfOnes(extra);
  }

  lemma {:induction false} PrefixOfOnes(bits: seq<int>)
    requires forall i :: 0 <= i < |bits| ==> 0 <= bits[i] <= 1
    requires forall i, j :: 0 <= i < j < |bits| ==> bits[j] <= bits[i]
    ensures 0 <= Sum(bits) <= |bits|
    ensures forall i :: 0 <= i < |bits| ==> bits[i] == if i < Sum(bits) then 1 else 0
  {
    if |bits| > 0 {
      PrefixOfOnes(bits[..|bits| - 1]);
    }
  }

  /** A second division by the first one's parts changes nothing. */
  lemma DividedIdempotent(total: int, shares: seq<int>)
    requires total > 0 && Sum(shares) > 0
    ensures Divided(total, Divided(total, shares)) == Divided(total, shares)
  {
    var parts := Divided(total, shares);
    DividedConserves(total, shares);
    forall i | 0 <= i < |parts|
      ensures Floors(total, parts)[i] == parts[i]
    {
      MulDiv(total, parts[i]);
    }
    assert Floors(total, parts) == parts;
  }

  lemma MulDiv(a: int, b: int)
    requires a > 0
    ensures a * b / a == b
  {
    var q := a * b / a;
    FloorBounds(a * b, a);
    if q < b {
      MulOrder(a, q, b);
    } else if b < q {
      MulOrder(a, b, q);
    }
  }

  lemma DivMonotone(a: int, b: int, d: int)
    requires d > 0 && a <= b
    ensures a / d <= b / d
  {
    FloorBounds(a, d);
    FloorBounds(b, d);
    if b / d < a / d {
      MulOrder(d, b / d, a / d);
    }
  }

  lemma MulMonotone(total: int, a: int, b: int)
    requires total >= 0 && a <= b
    ensures total * a <= total * b
  {
  }

  /** Order preservation: an earlier entry with at least the share of a later one gets at least its part. */
  lemma DividedOrdered(total: int, shares: seq<int>, i: nat, j: nat)
    requires total >= 0 && Sum(shares) > 0
    requires i < j < |shares| && shares[i] >= shares[j]
    ensures Divided(total, shares)[i] >= Divided(total, shares)[j]
  {
    MulMonotone(total, shares[j], shares[i]);
    DivMonotone(total * shares[j], total * shares[i], Sum(shares));
  }

  /** Non-negative shares of a non-negative budget get non-negative parts, and an empty share at most one unit:
      exactly one when it stands among the first `Leftover` entries. */
  lemma DividedSigns(total: int, shares: seq<int>, i: nat)
    requires total >= 0 && Sum(shares) > 0 && i < |shares|
    requires shares[i] >= 0
    ensures Divided(total, shares)[i] >= 0
    ensures shares[i] == 0 ==> Divided(total, shares)[i] == if i < Leftover(total, shares) then 1 else 0
  {
    FloorSigns(total, shares[i], Sum(shares));
  }

  /** Who gets something: a part is positive exactly when the share is worth a whole unit of the budget, or stands
      among the first `Leftover` entries. */
  lemma DividedPositiveIff(total: int, shares: seq<int>, i: nat)
    requires total >= 0 && Sum(shares) > 0 && i < |shares|
    requires shares[i] >= 0
    ensures Divided(total, shares)[i] > 0 <==> total * shares[i] >= Sum(shares) || i < Leftover(total, shares)
  {
    FloorSigns(total, shares[i], Sum(shares));
    FloorPositive(total * shares[i], Sum(shares));
  }

  lemma FloorPositive(num: int, sum: int)
    requires sum > 0
    ensures num / sum > 0 <==> num >= sum
  {
  }

  lemma FloorSigns(total: int, share: int, sum: int)
    requires total >= 0 && share >= 0 && sum > 0
    ensures total * share / sum >= 0
    ensures share == 0 ==> total * share / sum == 0
  {
    if share == 0 {
      assert total * 0 == 0;
    } else {
      assert total * share >= 0;
      DivMonotone(0, total * share, sum);
    }
  }
}
