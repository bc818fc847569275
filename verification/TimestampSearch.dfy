/** Finding a block by its timestamp (distributer/util.go). The chain is a function from height to block time. */
module TimestampSearch {
  import opened Wrappers
  import opened Rewards

  type Times = nat -> nat

  ghost predicate Increasing(time: Times, head: nat)
  {
    forall a, b :: 0 <= a < b <= head ==> time(a) < time(b)
  }

  /** The first block at or after the timestamp. */
  ghost predicate IsFirstAtOrAfter(time: Times, timestamp: nat, n: nat)
  {
    time(n) >= timestamp && AllBefore(time, timestamp, n)
  }

  /** Every block below `n` is before the timestamp. */
  ghost predicate AllBefore(time: Times, timestamp: nat, n: nat)
  {
    forall m: nat :: m < n ==> time(m) < timestamp
  }

  lemma BeforeAfter(time: Times, head: nat, timestamp: nat, n: nat)
    requires Increasing(time, head) && n <= head
    ensures time(n) < timestamp ==> AllBefore(time, timestamp, n + 1)
    ensures time(n) <= timestamp ==> AllBefore(time, timestamp, n)
  {
  }

  function Pow2(n: nat): nat
  {
    if n == 0 then 1 else 2 * Pow2(n - 1)
  }

  /** `n` halved `k` times, rounding down. */
  function Halved(n: nat, k: nat): nat
  {
    if k == 0 then n else Halved(n, k - 1) / 2
  }

  lemma {:induction false} HalvedFirst(n: nat, k: nat)
    requires k > 0
    ensures Halved(n, k) == Halved(n / 2, k - 1)
  {
    if k > 1 {
      HalvedFirst(n, k - 1);
    }
  }

  lemma {:induction false} HalvedPositive(n: nat, k: nat)
    requires Halved(n, k) >= 1
    ensures Pow2(k) <= n
  {
    if k > 0 {
      HalvedFirst(n, k);
      HalvedPositive(n / 2, k - 1);
    }
  }

  lemma Middle(low: nat, high: nat, n: nat, k: nat)
    requires low < high && high - low <= Halved(n, k)
    ensures low <= (low + high) / 2 < high
    ensures (low + high) / 2 - low <= Halved(n, k + 1) && high - (low + high) / 2 - 1 <= Halved(n, k + 1)
  {
  }

  /** `binarySearch`. Each probe at least halves the interval. */
  method BinarySearch(time: Times, timestamp: nat, high0: nat, low0: nat) returns (n: nat, probes: nat)
    requires low0 <= high0 && Increasing(time, high0)
    requires time(high0) >= timestamp && AllBefore(time, timestamp, low0)
    ensures IsFirstAtOrAfter(time, timestamp, n) && low0 <= n <= high0
    ensures probes > 0 ==> Pow2(probes - 1) <= high0 - low0
    ensures probes == 0 <==> low0 == high0
  {
    var high, low := high0, low0;
    probes := 0;
    while low < high
      invariant low0 <= low <= high <= high0
      invariant time(high) >= timestamp && AllBefore(time, timestamp, low)
      invariant probes > 0 ==> Pow2(probes - 1) <= high0 - low0
      invariant high - low <= Halved(high0 - low0, probes)
      invariant probes == 0 ==> low == low0 && high == high0
      invariant probes > 0 ==> low0 < high0
      decreases high - low
    {
      var mid := (low + high) / 2;
      Middle(low, high, high0 - low0, probes);
      HalvedPositive(high0 - low0, probes);
      BeforeAfter(time, high0, timestamp, mid);
      probes := probes + 1;
      var headerTime := time(mid);
      if headerTime == timestamp {
        return mid, probes;
      }
      if headerTime > timestamp {
        high := mid;
      } else {
        low := mid + 1;
      }
    }
    return low, probes;
  }

  /** The index of the first head that has reached the timestamp, or the number of heads. */
  function FirstReached(time: Times, heads: seq<nat>, timestamp: nat): (i: nat)
    ensures i <= |heads| && (i < |heads| ==> time(heads[i]) >= timestamp)
    ensures forall k :: 0 <= k < i ==> time(heads[k]) < timestamp
  {
    if |heads| == 0 || time(heads[0]) >= timestamp then 0 else 1 + FirstReached(time, heads[1..], timestamp)
  }

  method WaitForHead(time: Times, heads: seq<nat>, timestamp: nat) returns (i: nat)
    ensures i == FirstReached(time, heads, timestamp)
  {
    i := 0;
    while i < |heads| && time(heads[i]) < timestamp
      invariant 0 <= i <= |heads|
      invariant FirstReached(time, heads, timestamp) == i + FirstReached(time, heads[i..], timestamp)
    {
      assert heads[i..][1..] == heads[i + 1..];
      i := i + 1;
    }
  }

  /** Blocks that take at least `avgBlockTime` each. */
  ghost predicate NotFaster(time: Times, head: nat, avgBlockTime: nat)
  {
    forall b: nat :: b < head ==> time(b) + avgBlockTime <= time(b + 1)
  }

  lemma {:induction false} TimesApart(time: Times, head: nat, avgBlockTime: nat, a: nat, b: nat)
    requires NotFaster(time, head, avgBlockTime) && a <= b <= head
    ensures time(b) - time(a) >= avgBlockTime * (b - a)
  {
    if a < b {
      TimesApart(time, head, avgBlockTime, a, b - 1);
      MulSucc(avgBlockTime, b - 1 - a);
    }
  }

  /** How far the search jumps back from a block that is `excess` late. */
  function Jump(excess: nat, avgBlockTime: nat): (n: int)
    requires avgBlockTime > 0
    ensures n >= 1
  {
    DivMonotone(0, excess, avgBlockTime);
    excess / avgBlockTime + 1
  }

  /** With blocks that are not faster than the average, one jump from `b` ends below every block at or after the
      timestamp, or at the genesis block. */
  lemma OneJumpIsEnough(time: Times, head: nat, timestamp: nat, avgBlockTime: nat, b: nat, m: nat)
    requires avgBlockTime > 0 && NotFaster(time, head, avgBlockTime) && m <= b <= head
    requires time(m) >= timestamp && time(b) >= timestamp
    ensures b - Jump(time(b) - timestamp, avgBlockTime) < m
  {
    TimesApart(time, head, avgBlockTime, m, b);
    var excess := time(b) - timestamp;
    FloorBounds(excess, avgBlockTime);
    if b - m > excess / avgBlockTime {
      MulOrder(avgBlockTime, excess / avgBlockTime, b - m);
    }
  }

  /** A jump goes back by the blocks that fit into the time left over at the average block time, and one more. */
  ghost predicate JumpedBack(time: Times, timestamp: nat, avgBlockTime: nat, high: nat, low: nat)
  {
    time(high) > timestamp && low < high &&
    avgBlockTime * (high - low - 1) <= time(high) - timestamp < avgBlockTime * (high - low)
  }

  lemma JumpIs(excess: nat, avgBlockTime: nat)
    requires avgBlockTime > 0
    ensures avgBlockTime * (Jump(excess, avgBlockTime) - 1) <= excess < avgBlockTime * Jump(excess, avgBlockTime)
  {
    FloorBounds(excess, avgBlockTime);
    MulSucc(avgBlockTime, excess / avgBlockTime);
  }

  /** The jumps back from an accepted head. Every request but the last two finds a block after the answer, so there are
      at most as many as blocks from the answer to the head, and two more; with blocks that are not faster than the
      average there are at most two. */
  method JumpBack(time: Times, head: nat, timestamp: nat, avgBlockTime: nat)
    returns (found: Option<nat>, high: nat, low: nat, jumps: nat)
    requires avgBlockTime > 0 && Increasing(time, head) && time(head) >= timestamp
    ensures found.Some? ==> IsFirstAtOrAfter(time, timestamp, found.value)
    ensures found.None? ==> low < high <= head && time(low) < timestamp < time(high)
    ensures found.Some? ==> found.value <= head && jumps <= head - found.value + 2
    ensures found.None? ==> jumps <= head - high + 2
    ensures low > 0 && jumps > 1 ==> JumpedBack(time, timestamp, avgBlockTime, high, low)
    ensures NotFaster(time, head, avgBlockTime) ==> jumps <= 2
  {
    found, high, low, jumps := None, head, head, 0;
    while true
      invariant 0 <= low <= high <= head && time(high) >= timestamp
      invariant low < high ==> time(high) > timestamp
      invariant jumps == 0 <==> low == high
      invariant jumps <= head - high + 1
      invariant low > 0 && jumps > 0 ==> JumpedBack(time, timestamp, avgBlockTime, high, low)
      invariant NotFaster(time, head, avgBlockTime) && jumps > 0 ==>
                  jumps == 1 && (low == 0 || time(low) < timestamp)
      decreases low
    {
      var headerTime := time(low);
      jumps := jumps + 1;
      if headerTime == timestamp {
        BeforeAfter(time, head, timestamp, low);
        found := Some(low);
        return;
      }
      if headerTime < timestamp {
        return;
      }
      high := low;
      if high == 0 {
        found := Some(0);
        return;
      }
      var countOfBlocks := (headerTime - timestamp) / avgBlockTime + 1;
      assert countOfBlocks == Jump(headerTime - timestamp, avgBlockTime);
      JumpIs(headerTime - timestamp, avgBlockTime);
      low := if low <= countOfBlocks then 0 else low - countOfBlocks;
      if low > 0 && NotFaster(time, head, avgBlockTime) && time(low) >= timestamp {
        OneJumpIsEnough(time, head, timestamp, avgBlockTime, high, low);
      }
    }
  }

  /** The bounds on the requests of a search from an accepted head. */
  ghost predicate FewRequests(time: Times, head: nat, avgBlockTime: nat, answer: nat, jumps: nat, probes: nat)
  {
    && answer <= head && jumps <= head - answer + 2
    && (NotFaster(time, head, avgBlockTime) ==> jumps <= 2)
    && (probes > 0 ==> Pow2(probes - 1) <= head)
  }

  /** The search from an accepted head: jumps back, then the binary search. */
  method SearchFrom(time: Times, head: nat, timestamp: nat, avgBlockTime: nat)
    returns (n: nat, jumps: nat, probes: nat)
    requires avgBlockTime > 0 && Increasing(time, head) && time(head) >= timestamp
    ensures IsFirstAtOrAfter(time, timestamp, n) && FewRequests(time, head, avgBlockTime, n, jumps, probes)
  {
    var found, high, low;
    found, high, low, jumps := JumpBack(time, head, timestamp, avgBlockTime);
    if found.Some? {
      n, probes := found.value, 0;
    } else {
      BeforeAfter(time, head, timestamp, low);
      n, probes := BinarySearch(time, timestamp, high, low);
    }
  }

  /** `FindBlockByTimestamp`. `heads` are the successive chain heads seen while waiting for one that has reached the
      timestamp; without such a head yet there is no answer. For any average block time the jumps back end, and the
      answer is the first block at or after the timestamp, the genesis block included. Both the jumps and the probes of
      the binary search are bounded by the accepted head. */
  method FindBlockByTimestamp(time: Times, heads: seq<nat>, timestamp: nat, avgBlockTime: nat)
    returns (found: Option<nat>, jumps: nat, probes: nat)
    requires avgBlockTime > 0
    requires forall i :: 0 <= i < |heads| ==> Increasing(time, heads[i])
    ensures found.None? <==> FirstReached(time, heads, timestamp) == |heads|
    ensures found.Some? ==>
              && IsFirstAtOrAfter(time, timestamp, found.value)
              && FewRequests(time, heads[FirstReached(time, heads, timestamp)], avgBlockTime, found.value, jumps,
                             probes)
  {
    found, jumps, probes := None, 0, 0;
    var i := WaitForHead(time, heads, timestamp);
    if i < |heads| {
      var n;
      n, jumps, probes := SearchFrom(time, heads[i], timestamp, avgBlockTime);
      found := Some(n);
    }
  }
}
