/** Step rewards of one exchange and the steps without volume on any exchange (`Option` in distributer/option.go). */
module VolumeSteps {
  import opened Steps
  import opened Wrappers
  import opened Seqs
  import opened Sums
  import opened Rewards
  import opened AccountStats
  import opened SortedSlice
  import VolumeLedger

  // ----- steps without volume -----

  /** `hasNoMissingVolumes` and `noVolumeStartHeights`. */
  datatype Missing = Missing(none: bool, starts: seq<nat>)

  /** One copy of `h` for every occurrence in `s`. */
  function Copies(h: nat, s: seq<nat>): seq<nat>
  {
    seq(multiset(s)[h], _ => h)
  }

  /** What the two nested loops collect. */
  function Common(old_: seq<nat>, new_: seq<nat>): seq<nat>
  {
    if |old_| == 0 then [] else Common(old_[..|old_| - 1], new_) + Copies(old_[|old_| - 1], new_)
  }

  function Updated(m: Missing, noVolumeStarts: seq<nat>): Missing
  {
    if m.none then m
    else if |noVolumeStarts| == 0 then Missing(true, [])
    else if |m.starts| == 0 then Missing(false, noVolumeStarts)
    else
      var intersection := Common(m.starts, noVolumeStarts);
      Missing(|intersection| == 0, intersection)
  }

  function UpdatedAll(lists: seq<seq<nat>>): Missing
  {
    if |lists| == 0 then Missing(false, []) else Updated(UpdatedAll(lists[..|lists| - 1]), lists[|lists| - 1])
  }

  predicate NoDuplicates(s: seq<nat>)
  {
    forall i, j :: 0 <= i < j < |s| ==> s[i] != s[j]
  }

  lemma OccursOnce(s: seq<nat>, h: nat)
    requires NoDuplicates(s)
    ensures multiset(s)[h] == if h in s then 1 else 0
    decreases |s|
  {
    if |s| > 0 {
      var init := s[..|s| - 1];
      assert s == init + [s[|s| - 1]];
      OccursOnce(init, h);
    }
  }

  lemma {:induction false} CommonIsIntersection(old_: seq<nat>, new_: seq<nat>)
    requires NoDuplicates(old_) && NoDuplicates(new_)
    ensures NoDuplicates(Common(old_, new_))
    ensures forall h :: h in Common(old_, new_) <==> h in old_ && h in new_
  {
    if |old_| > 0 {
      var init, last := old_[..|old_| - 1], old_[|old_| - 1];
      assert old_ == init + [last];
      CommonIsIntersection(init, new_);
      OccursOnce(new_, last);
      assert Copies(last, new_) == if last in new_ then [last] else [];
    }
  }

  ghost predicate InAll(h: nat, lists: seq<seq<nat>>)
  {
    forall i :: 0 <= i < |lists| ==> h in lists[i]
  }

  /** One update takes the first list as it is and intersects with every later one. */
  lemma UpdatedIs(m: Missing, noVolumeStarts: seq<nat>)
    requires NoDuplicates(m.starts) && NoDuplicates(noVolumeStarts) && (m.none ==> |m.starts| == 0)
    ensures
      var m' := Updated(m, noVolumeStarts);
      && NoDuplicates(m'.starts) && (m'.none <==> |m'.starts| == 0)
      && forall h :: h in m'.starts <==> h in noVolumeStarts && (h in m.starts || m == Missing(false, []))
  {
    CommonIsIntersection(m.starts, noVolumeStarts);
    if !m.none && |m.starts| > 0 && |noVolumeStarts| > 0 {
      assert forall h :: h in Updated(m, noVolumeStarts).starts <==> h in Common(m.starts, noVolumeStarts);
    }
  }

  /** Folded over the exchanges, the update yields exactly the intersection of their empty steps; the empty list with
      the flag unset occurs only before the first exchange. */
  lemma {:induction false} MissingIsIntersection(lists: seq<seq<nat>>)
    requires forall i :: 0 <= i < |lists| ==> NoDuplicates(lists[i])
    ensures NoDuplicates(UpdatedAll(lists).starts)
    ensures |lists| > 0 ==> forall h :: h in UpdatedAll(lists).starts <==> InAll(h, lists)
    ensures |lists| > 0 ==> (UpdatedAll(lists).none <==> |UpdatedAll(lists).starts| == 0)
    ensures |lists| == 0 ==> UpdatedAll(lists) == Missing(false, [])
  {
    if |lists| > 0 {
      var init, last := lists[..|lists| - 1], lists[|lists| - 1];
      MissingIsIntersection(init);
      UpdatedIs(UpdatedAll(init), last);
      assert forall h :: InAll(h, lists) <==> InAll(h, init) && h in last;
    }
  }

  // ----- merging step rewards -----

  /** What `FindAccountVolumes` returns: positive shares, one entry per account, no rewards yet. */
  predicate ValidWindow(stats: seq<Stat>)
  {
    && DistinctAccounts(stats) && Unrewarded(stats)
    && forall i :: 0 <= i < |stats| ==> stats[i].share > 0
  }

  /** The ledger's report for a window is such a slice, and lists the shares in non-increasing order, whatever the order
      its records come in. */
  lemma LedgerReportsValidWindows(cursor: seq<VolumeLedger.Record>, cfg: VolumeLedger.Config, stats: seq<Stat>)
    requires IsSortedSliceOf(stats, VolumeLedger.Volumes(cursor, cfg))
    ensures ValidWindow(stats) && NonIncreasing(Shares(stats))
  {
    VolumeLedger.VolumesKeyed(cursor, cfg);
    SliceContents(stats, VolumeLedger.Volumes(cursor, cfg));
    forall i | 0 <= i < |stats|
      ensures stats[i].reward.None?
    {
      VolumeLedger.VolumesAre(cursor, cfg, stats[i].account);
    }
    SortedByShare(stats);
  }

  /** Adds one step's statistic to the account's running one; a step without a positive reward adds nothing. */
  function Merged(m: map<nat, Stat>, stat: Stat): map<nat, Stat>
  {
    if PaidTo(stat) <= 0 then m
    else if stat.account in m then
      var fin := m[stat.account];
      m[stat.account := Stat(stat.account, Some(PaidTo(fin) + PaidTo(stat)),
                             fin.share + stat.share, fin.number + stat.number)]
    else m[stat.account := stat]
  }

  function MergedAll(m: map<nat, Stat>, stats: seq<Stat>): map<nat, Stat>
  {
    if |stats| == 0 then m else Merged(MergedAll(m, stats[..|stats| - 1]), stats[|stats| - 1])
  }

  /** Running statistics: own key, positive share, positive reward. */
  ghost predicate Running(m: map<nat, Stat>)
  {
    WellKeyed(m) && forall k :: k in m ==> m[k].share > 0 && PaidTo(m[k]) > 0
  }

  ghost function TotalPaid(stats: set<Stat>): int
  {
    if stats == {} then 0 else
      var x :| x in stats;
      PaidTo(x) + TotalPaid(stats - {x})
  }

  lemma {:induction false} TotalPaidWithout(stats: set<Stat>, x: Stat)
    requires x in stats
    ensures TotalPaid(stats) == PaidTo(x) + TotalPaid(stats - {x})
  {
    var y :| y in stats && TotalPaid(stats) == PaidTo(y) + TotalPaid(stats - {y});
    if x != y {
      TotalPaidWithout(stats - {y}, x);
      TotalPaidWithout(stats - {x}, y);
      assert stats - {y} - {x} == stats - {x} - {y};
    }
  }

  /** The rewards listed in a slice are those of the set it lists. */
  lemma {:induction false} TotalPaidOfSlice(r: seq<Stat>, stats: set<Stat>)
    requires multiset(r) == multiset(stats)
    ensures Sum(Paid(r)) == TotalPaid(stats)
  {
    if |r| == 0 {
      assert |multiset(stats)| == |stats| == 0;
    } else {
      var init, last := r[..|r| - 1], r[|r| - 1];
      assert r == init + [last];
      assert last in multiset(r);
      assert multiset(init) == multiset(r) - multiset{last};
      assert stats == stats - {last} + {last};
      assert multiset(stats - {last}) == multiset(stats) - multiset{last};
      TotalPaidOfSlice(init, stats - {last});
      TotalPaidWithout(stats, last);
      assert Paid(r) == Paid(init) + [PaidTo(last)];
      SumAppend(Paid(init), PaidTo(last));
    }
  }

  lemma KeptSplit(m: map<nat, Stat>, key: nat)
    requires WellKeyed(m) && key in m && m[key].share > 0
    ensures m[key] in Kept(m) && Kept(m) - {m[key]} == KeptFrom(m, m.Keys - {key})
  {
    KeepOne(m, m.Keys - {key}, key);
    assert m.Keys - {key} + {key} == m.Keys;
  }

  lemma SameOthers(m: map<nat, Stat>, m': map<nat, Stat>, key: nat)
    requires m'.Keys == m.Keys + {key} && forall k :: k in m && k != key ==> m'[k] == m[k]
    ensures m'.Keys - {key} == m.Keys - {key}
    ensures KeptFrom(m', m'.Keys - {key}) == KeptFrom(m, m.Keys - {key})
  {
    assert m'.Keys - {key} == m.Keys - {key};
    assert forall k :: k in m.Keys - {key} ==> m'[k] == m[k];
  }

  /** Replacing one entry changes the total by what that entry changes. */
  lemma ReplacedTotal(m: map<nat, Stat>, m': map<nat, Stat>, key: nat)
    requires Running(m) && Running(m') && m'.Keys == m.Keys + {key}
    requires forall k :: k in m && k != key ==> m'[k] == m[k]
    ensures TotalPaid(Kept(m')) == TotalPaid(Kept(m)) + PaidTo(m'[key]) - if key in m then PaidTo(m[key]) else 0
  {
    SameOthers(m, m', key);
    KeptSplit(m', key);
    TotalPaidWithout(Kept(m'), m'[key]);
    if key in m {
      KeptSplit(m, key);
      TotalPaidWithout(Kept(m), m[key]);
    } else {
      assert m.Keys - {key} == m.Keys;
    }
  }

  lemma MergedConserves(m: map<nat, Stat>, stat: Stat)
    requires Running(m) && stat.share > 0 && PaidTo(stat) >= 0
    ensures Running(Merged(m, stat))
    ensures TotalPaid(Kept(Merged(m, stat))) == TotalPaid(Kept(m)) + PaidTo(stat)
  {
    if PaidTo(stat) > 0 {
      ReplacedTotal(m, Merged(m, stat), stat.account);
    }
  }

  lemma {:induction false} MergedAllConserves(m: map<nat, Stat>, stats: seq<Stat>)
    requires Running(m)
    requires forall i :: 0 <= i < |stats| ==> stats[i].share > 0 && PaidTo(stats[i]) >= 0
    ensures Running(MergedAll(m, stats))
    ensures TotalPaid(Kept(MergedAll(m, stats))) == TotalPaid(Kept(m)) + Sum(Paid(stats))
  {
    if |stats| > 0 {
      var init, last := stats[..|stats| - 1], stats[|stats| - 1];
      MergedAllConserves(m, init);
      MergedConserves(MergedAll(m, init), last);
      assert Paid(stats) == Paid(init) + [PaidTo(last)];
      SumAppend(Paid(init), PaidTo(last));
    }
  }

  // ----- one exchange over all steps -----

  /** The starts of `n` consecutive steps. */
  function Starts(start: nat, step: nat, n: nat): (r: seq<nat>)
    ensures |r| == n
    ensures forall k :: 0 <= k < n ==> r[k] == StepStart(start, step, k)
  {
    seq(n, k requires 0 <= k < n => StepStart(start, step, k))
  }

  /** Starts below `to` that go from `from` to `to` in steps. */
  predicate StepsThrough(starts: seq<nat>, step: nat, from: nat, to: nat)
  {
    && |starts| > 0 && starts[0] == from && starts[|starts| - 1] + step == to
    && (forall k :: 0 <= k < |starts| ==> starts[k] < to)
    && forall k :: 0 <= k < |starts| - 1 ==> starts[k + 1] == starts[k] + step
  }

  /** Where the loop stands after `k` steps. */
  function StartAt(starts: seq<nat>, k: nat, to: nat): nat
  {
    if k < |starts| then starts[k] else to
  }

  lemma NextStart(starts: seq<nat>, step: nat, from: nat, to: nat, k: nat)
    requires StepsThrough(starts, step, from, to) && k <= |starts|
    ensures StartAt(starts, k, to) < to <==> k < |starts|
    ensures k < |starts| ==> StartAt(starts, k, to) == starts[k]
    ensures k < |starts| ==> StartAt(starts, k, to) + step == StartAt(starts, k + 1, to)
  {
  }

  lemma StartsStepThrough(start: nat, step: nat, n: nat)
    requires step > 0 && n > 0
    ensures StepsThrough(Starts(start, step, n), step, start, StepStart(start, step, n))
  {
    forall k | 0 <= k < n
      ensures Starts(start, step, n)[k] < StepStart(start, step, n)
    {
      StepStartsOrdered(start, step, k, n);
    }
    assert StepStart(start, step, n) == StepStart(start, step, n - 1) + step;
    forall k | 0 <= k < n - 1
      ensures Starts(start, step, n)[k + 1] == Starts(start, step, n)[k] + step
    {
      assert StepStart(start, step, k + 1) == StepStart(start, step, k) + step;
    }
  }

  lemma StartsDiffer(start: nat, step: nat, n: nat)
    requires step > 0
    ensures NoDuplicates(Starts(start, step, n))
  {
    var starts := Starts(start, step, n);
    forall i, j | 0 <= i < j < n
      ensures starts[i] != starts[j]
    {
      StepStartsOrdered(start, step, i, j);
    }
  }

  /** The starts of the windows without traders. */
  function EmptyStarts(windows: seq<seq<Stat>>, starts: seq<nat>): (r: seq<nat>)
    requires |windows| <= |starts|
    ensures |r| <= |windows|
  {
    if |windows| == 0 then []
    else
      var k := |windows| - 1;
      EmptyStarts(windows[..k], starts) + if |windows[k]| == 0 then [starts[k]] else []
  }

  /** Every window rewarded with the step reward. */
  function RewardedWindows(windows: seq<seq<Stat>>, stepReward: int): (r: seq<seq<Stat>>)
    ensures |r| == |windows|
  {
    seq(|windows|, k requires 0 <= k < |windows| => Rewarded(windows[k], stepReward))
  }

  /** The running statistics after all steps. */
  function MergedSteps(steps: seq<seq<Stat>>): map<nat, Stat>
  {
    if |steps| == 0 then map[] else MergedAll(MergedSteps(steps[..|steps| - 1]), steps[|steps| - 1])
  }

  /** The traders of an exchange's half-open windows, as the store reports them; a window not listed has none. */
  type VolumeSource = map<(nat, nat), seq<Stat>>

  /** Where the statistics of an exchange come from: the store, or an input file, which may be unreadable. */
  datatype Source = FromStore(volumes: VolumeSource) | FromFile(stats: Option<seq<Stat>>)

  predicate CanRead(source: Source)
  {
    source.FromFile? ==> source.stats.Some?
  }

  /** The first source that cannot be read, or the number of sources. */
  function FirstUnreadable(sources: seq<Source>): (i: nat)
    ensures i <= |sources| && (i < |sources| ==> !CanRead(sources[i]))
    ensures forall k :: 0 <= k < i ==> CanRead(sources[k])
  {
    if |sources| == 0 || !CanRead(sources[0]) then 0 else 1 + FirstUnreadable(sources[1..])
  }

  lemma StoredOfInit(sources: seq<Source>)
    requires |sources| > 0
    ensures
      var init, last := sources[..|sources| - 1], sources[|sources| - 1];
      StoredOf(sources) == if last.FromStore? then StoredOf(init) + [last.volumes] else StoredOf(init)
  {
  }

  lemma UpdatedMore(lists: seq<seq<nat>>, list: seq<nat>)
    ensures UpdatedAll(lists + [list]) == Updated(UpdatedAll(lists), list)
  {
    AppendInit(lists, list);
  }

  /** The exchanges read from the store. */
  function StoredOf(sources: seq<Source>): seq<VolumeSource>
  {
    if |sources| == 0 then []
    else
      var last := sources[|sources| - 1];
      StoredOf(sources[..|sources| - 1]) + if last.FromStore? then [last.volumes] else []
  }

  function Traders(volumes: VolumeSource, from: nat, to: nat): seq<Stat>
  {
    if (from, to) in volumes then volumes[(from, to)] else []
  }

  /** The traders of the step that begins at `starts[k]`. */
  function StepTraders(volumes: VolumeSource, starts: seq<nat>, step: nat, k: nat): seq<Stat>
    requires k < |starts|
  {
    Traders(volumes, starts[k], starts[k] + step)
  }

  predicate Reported(volumes: VolumeSource, starts: seq<nat>, windows: seq<seq<Stat>>, step: nat)
  {
    |windows| == |starts| && forall k :: 0 <= k < |starts| ==> windows[k] == StepTraders(volumes, starts, step, k)
  }

  lemma StepTradersAt(volumes: VolumeSource, starts: seq<nat>, windows: seq<seq<Stat>>, step: nat, k: nat, start: nat)
    requires Reported(volumes, starts, windows, step) && k < |starts| && start == starts[k]
    ensures Traders(volumes, start, start + step) == windows[k]
  {
    assert StepTraders(volumes, starts, step, k) == windows[k];
  }

  ghost predicate ValidSource(volumes: VolumeSource)
  {
    forall window :: window in volumes ==> ValidWindow(volumes[window])
  }

  /** A file lists rewards. */
  ghost predicate ValidInput(source: Source)
  {
    match source
    case FromStore(volumes) => ValidSource(volumes)
    case FromFile(stats) => stats.Some? ==> AllRewarded(stats.value)
  }

  predicate AllRewarded(stats: seq<Stat>)
  {
    forall i :: 0 <= i < |stats| ==> stats[i].reward.Some?
  }

  ghost predicate ValidWindows(windows: seq<seq<Stat>>)
  {
    forall k :: 0 <= k < |windows| ==> ValidWindow(windows[k])
  }

  lemma {:induction false} EmptyStartsAre(windows: seq<seq<Stat>>, starts: seq<nat>)
    requires |windows| <= |starts| && NoDuplicates(starts)
    ensures NoDuplicates(EmptyStarts(windows, starts))
    ensures forall h :: h in EmptyStarts(windows, starts) ==> h in starts[..|windows|]
    ensures forall j :: 0 <= j < |windows| ==> (starts[j] in EmptyStarts(windows, starts) <==> |windows[j]| == 0)
  {
    if |windows| > 0 {
      var k := |windows| - 1;
      EmptyStartsAre(windows[..k], starts);
      assert starts[..k + 1] == starts[..k] + [starts[k]];
      assert starts[k] !in starts[..k];
    }
  }

  /** A rewarded window: positive shares, non-negative rewards that add up to the step reward. */
  lemma RewardedWindow(stats: seq<Stat>, stepReward: int)
    requires ValidWindow(stats) && |stats| > 0 && stepReward > 0
    ensures Sum(Paid(Rewarded(stats, stepReward))) == stepReward
    ensures forall i :: 0 <= i < |stats| ==> Rewarded(stats, stepReward)[i].share > 0
    ensures forall i :: 0 <= i < |stats| ==> PaidTo(Rewarded(stats, stepReward)[i]) >= 0
  {
    ElementAtMostSum(Shares(stats), 0);
    RewardedConserves(stats, stepReward);
    forall i | 0 <= i < |stats|
      ensures PaidTo(Rewarded(stats, stepReward)[i]) >= 0
    {
      DividedSigns(stepReward, Shares(stats), i);
    }
  }

  /** A step's statistics: positive shares, and non-negative rewards that add up to `amount`. */
  ghost predicate Pays(step: seq<Stat>, amount: int)
  {
    && (forall i :: 0 <= i < |step| ==> step[i].share > 0 && PaidTo(step[i]) >= 0)
    && Sum(Paid(step)) == amount
  }

  lemma {:induction false} MergedStepsConserve(steps: seq<seq<Stat>>, amounts: seq<int>)
    requires |steps| == |amounts|
    requires forall k :: 0 <= k < |steps| ==> Pays(steps[k], amounts[k])
    ensures Running(MergedSteps(steps))
    ensures TotalPaid(Kept(MergedSteps(steps))) == Sum(amounts)
  {
    if |steps| > 0 {
      var k := |steps| - 1;
      MergedStepsConserve(steps[..k], amounts[..k]);
      MergedAllConserves(MergedSteps(steps[..k]), steps[k]);
    }
  }

  function Amounts(windows: seq<seq<Stat>>, stepReward: int): (r: seq<int>)
    ensures |r| == |windows|
  {
    seq(|windows|, k requires 0 <= k < |windows| => if |windows[k]| == 0 then 0 else stepReward)
  }

  lemma {:induction false} SumAmounts(windows: seq<seq<Stat>>, stepReward: int, starts: seq<nat>)
    requires |windows| <= |starts|
    ensures Sum(Amounts(windows, stepReward)) == stepReward * (|windows| - |EmptyStarts(windows, starts)|)
  {
    if |windows| > 0 {
      var k := |windows| - 1;
      SumAmounts(windows[..k], stepReward, starts);
      assert Amounts(windows, stepReward)[..k] == Amounts(windows[..k], stepReward);
      MulSucc(stepReward, k - |EmptyStarts(windows[..k], starts)|);
    }
  }

  /** Conservation over the steps: the merged rewards add up to the step reward times the number of steps with
      volume. */
  lemma StepTotalsConserve(windows: seq<seq<Stat>>, stepReward: int, starts: seq<nat>)
    requires ValidWindows(windows) && stepReward > 0 && |windows| <= |starts|
    ensures Running(MergedSteps(RewardedWindows(windows, stepReward)))
    ensures TotalPaid(Kept(MergedSteps(RewardedWindows(windows, stepReward)))) ==
            stepReward * (|windows| - |EmptyStarts(windows, starts)|)
  {
    var steps, amounts := RewardedWindows(windows, stepReward), Amounts(windows, stepReward);
    forall k | 0 <= k < |windows|
      ensures Pays(steps[k], amounts[k])
    {
      if |windows[k]| > 0 {
        RewardedWindow(windows[k], stepReward);
      }
    }
    MergedStepsConserve(steps, amounts);
    SumAmounts(windows, stepReward, starts);
  }

  // ----- what the merge keeps of each account -----

  /** Measures of an account's statistics in the steps that reward it. */
  function PaidShare(account: nat): Stat -> int
  {
    (stat: Stat) => if stat.account == account && PaidTo(stat) > 0 then stat.share else 0
  }

  function PaidNumber(account: nat): Stat -> int
  {
    (stat: Stat) => if stat.account == account && PaidTo(stat) > 0 then stat.number else 0
  }

  function PaidReward(account: nat): Stat -> int
  {
    (stat: Stat) => if stat.account == account && PaidTo(stat) > 0 then PaidTo(stat) else 0
  }

  /** The running share, number and reward of an account are these. */
  ghost predicate Holds(m: map<nat, Stat>, account: nat, share: int, number: int, reward: int)
  {
    if account in m then Totals(m[account], account, share, number, reward) && reward > 0
    else share == 0 && number == 0 && reward == 0
  }

  predicate Totals(stat: Stat, account: nat, share: int, number: int, reward: int)
  {
    stat.account == account && stat.share == share && stat.number == number && stat.reward == Some(reward)
  }

  lemma MergedHolds(m: map<nat, Stat>, stat: Stat, account: nat, share: int, number: int, reward: int)
    requires Holds(m, account, share, number, reward)
    ensures Holds(Merged(m, stat), account, share + PaidShare(account)(stat), number + PaidNumber(account)(stat),
                  reward + PaidReward(account)(stat))
  {
  }

  lemma {:induction false} MergedAllHolds(m: map<nat, Stat>, stats: seq<Stat>, account: nat, share: int, number: int,
                                          reward: int)
    requires Holds(m, account, share, number, reward)
    ensures Holds(MergedAll(m, stats), account, share + SumBy(PaidShare(account), stats),
                  number + SumBy(PaidNumber(account), stats), reward + SumBy(PaidReward(account), stats))
  {
    if |stats| > 0 {
      var init, last := stats[..|stats| - 1], stats[|stats| - 1];
      MergedAllHolds(m, init, account, share, number, reward);
      MergedHolds(MergedAll(m, init), last, account, share + SumBy(PaidShare(account), init),
                  number + SumBy(PaidNumber(account), init), reward + SumBy(PaidReward(account), init));
    }
  }

  /** A measure summed over all steps. */
  function OverSteps(f: Stat -> int, steps: seq<seq<Stat>>): int
  {
    if |steps| == 0 then 0 else OverSteps(f, steps[..|steps| - 1]) + SumBy(f, steps[|steps| - 1])
  }

  /** After all steps, each account's share, number and reward are the sums over the steps that reward it. */
  lemma {:induction false} MergedStepsHold(steps: seq<seq<Stat>>, account: nat)
    ensures Holds(MergedSteps(steps), account, OverSteps(PaidShare(account), steps),
                  OverSteps(PaidNumber(account), steps), OverSteps(PaidReward(account), steps))
  {
    if |steps| > 0 {
      var init, last := steps[..|steps| - 1], steps[|steps| - 1];
      MergedStepsHold(init, account);
      MergedAllHolds(MergedSteps(init), last, account, OverSteps(PaidShare(account), init),
                     OverSteps(PaidNumber(account), init), OverSteps(PaidReward(account), init));
    }
  }

  // ----- the budget over all exchanges -----

  function Range(n: nat): (r: set<nat>)
    ensures |r| == n && forall k :: k in r <==> 0 <= k < n
  {
    if n == 0 then {} else Range(n - 1) + {n - 1}
  }

  /** Some exchange has a trader in step `k`. */
  ghost predicate BusyAt(exchanges: seq<seq<seq<Stat>>>, k: nat)
    requires forall e :: 0 <= e < |exchanges| ==> k < |exchanges[e]|
  {
    exists e :: 0 <= e < |exchanges| && |exchanges[e][k]| > 0
  }

  /** The steps in which at least one exchange has a trader. */
  ghost function BusySteps(exchanges: seq<seq<seq<Stat>>>, n: nat): set<nat>
    requires forall e :: 0 <= e < |exchanges| ==> |exchanges[e]| == n
  {
    set k | k in Range(n) && BusyAt(exchanges, k)
  }

  ghost function EmptyLists(exchanges: seq<seq<seq<Stat>>>, starts: seq<nat>): (r: seq<seq<nat>>)
    requires forall e :: 0 <= e < |exchanges| ==> |exchanges[e]| == |starts|
    ensures |r| == |exchanges|
  {
    seq(|exchanges|, e requires 0 <= e < |exchanges| => EmptyStarts(exchanges[e], starts))
  }

  ghost function AsSet(s: seq<nat>): set<nat>
  {
    set h | h in s
  }

  lemma {:induction false} NoDuplicatesCount(s: seq<nat>)
    requires NoDuplicates(s)
    ensures |AsSet(s)| == |s|
  {
    if |s| > 0 {
      var init, last := s[..|s| - 1], s[|s| - 1];
      assert s == init + [last];
      NoDuplicatesCount(init);
      assert last !in init;
      assert AsSet(s) == AsSet(init) + {last};
    }
  }

  ghost function StartsOf(ks: set<nat>, starts: seq<nat>): set<nat>
    requires forall k :: k in ks ==> k < |starts|
  {
    set k | k in ks :: starts[k]
  }

  lemma {:induction false} StartsOfCount(ks: set<nat>, starts: seq<nat>)
    requires NoDuplicates(starts) && forall k :: k in ks ==> k < |starts|
    ensures |StartsOf(ks, starts)| == |ks|
  {
    if ks != {} {
      var k :| k in ks;
      var rest := ks - {k};
      StartsOfCount(rest, starts);
      assert forall j :: j in rest ==> starts[j] != starts[k];
      assert StartsOf(ks, starts) == StartsOf(rest, starts) + {starts[k]};
    }
  }

  lemma NoVolumeStartsAre(exchanges: seq<seq<seq<Stat>>>, starts: seq<nat>)
    requires |exchanges| > 0 && NoDuplicates(starts)
    requires forall e :: 0 <= e < |exchanges| ==> |exchanges[e]| == |starts|
    ensures NoDuplicates(UpdatedAll(EmptyLists(exchanges, starts)).starts)
    ensures forall h :: h in UpdatedAll(EmptyLists(exchanges, starts)).starts ==> h in starts
    ensures forall j: nat :: j < |starts| ==>
              (starts[j] in UpdatedAll(EmptyLists(exchanges, starts)).starts <==> !BusyAt(exchanges, j))
  {
    var lists := EmptyLists(exchanges, starts);
    forall e | 0 <= e < |exchanges|
      ensures NoDuplicates(lists[e])
      ensures forall h :: h in lists[e] ==> h in starts
      ensures forall j :: 0 <= j < |starts| ==> (starts[j] in lists[e] <==> |exchanges[e][j]| == 0)
    {
      EmptyStartsAre(exchanges[e], starts);
      assert starts[..|starts|] == starts;
    }
    MissingIsIntersection(lists);
    forall h | InAll(h, lists)
      ensures h in starts
    {
      assert h in lists[0];
    }
    forall j: nat | j < |starts|
      ensures InAll(starts[j], lists) <==> !BusyAt(exchanges, j)
    {
      assert forall e :: 0 <= e < |exchanges| ==> (starts[j] in lists[e] <==> |exchanges[e][j]| == 0);
    }
  }

  /** The steps counted as having no volume are those idle on every exchange. */
  lemma NoVolumesAreIdleSteps(exchanges: seq<seq<seq<Stat>>>, starts: seq<nat>)
    requires |exchanges| > 0 && NoDuplicates(starts)
    requires forall e :: 0 <= e < |exchanges| ==> |exchanges[e]| == |starts|
    ensures |UpdatedAll(EmptyLists(exchanges, starts)).starts| == |starts| - |BusySteps(exchanges, |starts|)|
  {
    NoVolumeStartsAre(exchanges, starts);
    var noVolumes := UpdatedAll(EmptyLists(exchanges, starts)).starts;
    var idle := Range(|starts|) - BusySteps(exchanges, |starts|);
    forall h | h in noVolumes
      ensures h in StartsOf(idle, starts)
    {
      var j :| 0 <= j < |starts| && starts[j] == h;
      assert j in idle;
    }
    assert AsSet(noVolumes) == StartsOf(idle, starts);
    NoDuplicatesCount(noVolumes);
    StartsOfCount(idle, starts);
    assert BusySteps(exchanges, |starts|) <= Range(|starts|);
  }

  lemma BusyAtMost(exchanges: seq<seq<seq<Stat>>>, n: nat)
    requires forall e :: 0 <= e < |exchanges| ==> |exchanges[e]| == n
    ensures |BusySteps(exchanges, n)| <= n
  {
    SubsetCount(BusySteps(exchanges, n), Range(n));
  }

  lemma SubsetCount(a: set<nat>, b: set<nat>)
    requires a <= b
    ensures |a| <= |b|
  {
    assert b == a + (b - a);
  }

  /** With the runner's budget of one step reward per step, what remains after taking the empty steps off is one step
      reward for each step with volume on at least one exchange; it is never negative. */
  lemma AdjustedBudget(exchanges: seq<seq<seq<Stat>>>, starts: seq<nat>, stepReward: nat)
    requires |exchanges| > 0 && NoDuplicates(starts)
    requires forall e :: 0 <= e < |exchanges| ==> |exchanges[e]| == |starts|
    ensures
      var noVolumes := |UpdatedAll(EmptyLists(exchanges, starts)).starts|;
      && stepReward * |starts| - stepReward * noVolumes == stepReward * |BusySteps(exchanges, |starts|)|
      && stepReward * |starts| - stepReward * noVolumes >= 0
  {
    NoVolumesAreIdleSteps(exchanges, starts);
    BusyAtMost(exchanges, |starts|);
    MulMinus(stepReward, |starts|, |BusySteps(exchanges, |starts|)|);
  }

  lemma MulMinus(a: nat, n: nat, m: nat)
    requires m <= n
    ensures a * n - a * (n - m) == a * m && a * m >= 0
  {
    assert a * (n - m) == a * n - a * m;
  }

  class VolumeOption {
    const totalValue: int
    const startHeight: nat
    const endHeight: nat
    const stepCount: nat
    const stepReward: int
    var noVolumes: nat
    var hasNoMissingVolumes: bool
    var noVolumeStartHeights: seq<nat>

    constructor (totalValue: int, startHeight: nat, endHeight: nat, stepCount: nat, stepReward: int)
      ensures this.totalValue == totalValue && this.startHeight == startHeight && this.endHeight == endHeight
      ensures this.stepCount == stepCount && this.stepReward == stepReward
      ensures Seen() == UpdatedAll([])
    {
      this.totalValue, this.startHeight, this.endHeight := totalValue, startHeight, endHeight;
      this.stepCount, this.stepReward := stepCount, stepReward;
      noVolumes, hasNoMissingVolumes, noVolumeStartHeights := 0, false, [];
    }

    function Seen(): Missing
      reads this
    {
      Missing(hasNoMissingVolumes, noVolumeStartHeights)
    }

    /** `checkSteps` together with the range check of `CheckBasic`. */
    predicate StepsChecked()
    {
      startHeight < endHeight && (stepCount > 0 ==> (endHeight - startHeight) % stepCount == 0)
    }

    function Steps(): nat
      requires stepCount > 0 && startHeight <= endHeight
    {
      (endHeight - startHeight) / stepCount
    }

    function StepStarts(): (r: seq<nat>)
      requires stepCount > 0 && startHeight <= endHeight
      ensures |r| == Steps()
    {
      Starts(startHeight, stepCount, Steps())
    }

    /** What the store reports for each step. */
    function Windows(volumes: VolumeSource): (r: seq<seq<Stat>>)
      requires stepCount > 0 && startHeight <= endHeight
      ensures |r| == Steps()
      ensures forall k :: 0 <= k < Steps() ==> r[k] == StepTraders(volumes, StepStarts(), stepCount, k)
    {
      seq(Steps(), k requires 0 <= k < Steps() => StepTraders(volumes, StepStarts(), stepCount, k))
    }

    /** The statistics of one exchange: rewarded at once without steps, merged over the steps with them. */
    ghost predicate IsExchangeSlice(result: seq<Stat>, volumes: VolumeSource)
      requires StepsChecked()
    {
      if stepCount == 0 then result == Rewarded(Traders(volumes, startHeight, endHeight), totalValue)
      else if Steps() == 0 then false
      else IsSortedSliceOf(result, MergedSteps(RewardedWindows(Windows(volumes), totalValue / Steps())))
    }

    /** The empty steps one exchange contributes; without steps it contributes nothing at all. */
    function SeenWith(m: Missing, volumes: VolumeSource): Missing
      requires StepsChecked()
    {
      if stepCount == 0 then m else Updated(m, EmptyStarts(Windows(volumes), StepStarts()))
    }

    lemma StepsCoverRange()
      requires StepsChecked() && stepCount > 0
      ensures Steps() > 0 && StepStart(startHeight, stepCount, Steps()) == endHeight
    {
      StepStartIs(startHeight, stepCount, Steps());
    }

    method UpdateNoVolumes(noVolumeStarts: seq<nat>)
      modifies this
      ensures Seen() == Updated(old(Seen()), noVolumeStarts) && noVolumes == old(noVolumes)
    {
      if hasNoMissingVolumes {
        return;
      }
      if |noVolumeStarts| == 0 {
        hasNoMissingVolumes := true;
        noVolumeStartHeights := [];
        return;
      }
      if |noVolumeStartHeights| == 0 {
        noVolumeStartHeights := noVolumeStarts;
        return;
      }
      var intersection: seq<nat> := [];
      for i := 0 to |noVolumeStartHeights|
        invariant intersection == Common(noVolumeStartHeights[..i], noVolumeStarts)
      {
        var oldH := noVolumeStartHeights[i];
        ghost var before := intersection;
        for j := 0 to |noVolumeStarts|
          invariant intersection == before + Copies(oldH, noVolumeStarts[..j])
        {
          assert noVolumeStarts[..j + 1] == noVolumeStarts[..j] + [noVolumeStarts[j]];
          if oldH == noVolumeStarts[j] {
            intersection := intersection + [oldH];
          }
        }
        assert noVolumeStarts[..|noVolumeStarts|] == noVolumeStarts;
        assert noVolumeStartHeights[..i + 1][..i] == noVolumeStartHeights[..i];
      }
      assert noVolumeStartHeights[..|noVolumeStartHeights|] == noVolumeStartHeights;
      noVolumeStartHeights := intersection;
      if |noVolumeStartHeights| == 0 {
        hasNoMissingVolumes := true;
      }
    }

    method GetAccountsAndRewardsFromDB(volumes: VolumeSource) returns (accountStats: seq<AccountStat>)
      requires ValidSource(volumes) && StepsChecked()
      modifies this
      ensures IsExchangeSlice(Views(accountStats), volumes)
      ensures fresh(accountStats) && Distinct(accountStats)
      ensures Seen() == SeenWith(old(Seen()), volumes) && noVolumes == old(noVolumes)
    {
      if stepCount == 0 {
        ValidTraders(volumes, startHeight, endHeight);
        accountStats := GetSingleCycleRewards(Traders(volumes, startHeight, endHeight), totalValue);
      } else {
        accountStats := CollectSteps(volumes);
      }
    }

    /** The part of it with steps. */
    method CollectSteps(volumes: VolumeSource) returns (accountStats: seq<AccountStat>)
      requires ValidSource(volumes) && StepsChecked() && stepCount > 0
      modifies this
      ensures IsExchangeSlice(Views(accountStats), volumes)
      ensures fresh(accountStats) && Distinct(accountStats)
      ensures Seen() == SeenWith(old(Seen()), volumes) && noVolumes == old(noVolumes)
    {
      StepsCoverRange();
      StartsStepThrough(startHeight, stepCount, Steps());
      var steps := Steps();
      var stepRewards := totalValue / steps;
      var noVolumeStarts;
      accountStats, noVolumeStarts :=
        MergedSlice(volumes, startHeight, endHeight, stepCount, stepRewards, StepStarts(), Windows(volumes));
      UpdateNoVolumes(noVolumeStarts);
    }

    /** Each exchange's merged rewards add up to the step reward times its number of steps with volume, each account
        listed once, with a positive reward and a positive share. */
    lemma ExchangeSliceConserves(result: seq<Stat>, volumes: VolumeSource, stepRewards: int)
      requires ValidSource(volumes) && StepsChecked() && stepCount > 0
      requires IsExchangeSlice(result, volumes)
      requires stepRewards == totalValue / Steps() && stepRewards > 0
      ensures DistinctAccounts(result)
      ensures forall i :: 0 <= i < |result| ==> PaidTo(result[i]) > 0 && result[i].share > 0
      ensures Sum(Paid(result)) ==
              stepRewards * (Steps() - |EmptyStarts(Windows(volumes), StepStarts())|)
    {
      var windows := Windows(volumes);
      StepTotalsConserve(windows, stepRewards, StepStarts());
      var merged := MergedSteps(RewardedWindows(windows, stepRewards));
      SliceContents(result, merged);
      TotalPaidOfSlice(result, Kept(merged));
    }

    /** Without steps, an exchange lists the traders of the whole range, who share the budget; it contributes no empty
        steps. */
    lemma SingleSliceIs(result: seq<Stat>, volumes: VolumeSource, i: nat)
      requires ValidSource(volumes) && StepsChecked() && stepCount == 0 && IsExchangeSlice(result, volumes)
      ensures
        var traders := if (startHeight, endHeight) in volumes then volumes[(startHeight, endHeight)] else [];
        && |result| == |traders|
        && (i < |traders| ==> result[i].account == traders[i].account && result[i].share == traders[i].share &&
                              result[i].number == traders[i].number)
        && (|traders| > 0 && totalValue > 0 ==> Sum(Paid(result)) == totalValue)
    {
      var traders := Traders(volumes, startHeight, endHeight);
      if i < |traders| {
        RewardedKeepsRest(traders, totalValue, i);
      }
      if |traders| > 0 && totalValue > 0 {
        RewardedWindow(traders, totalValue);
      }
    }

    /** The windows of the steps, from the first height to the last. */
    lemma WindowsAre(volumes: VolumeSource, k: nat)
      requires stepCount > 0 && startHeight <= endHeight && k < Steps()
      ensures
        var from, to := startHeight + k * stepCount, startHeight + k * stepCount + stepCount;
        Windows(volumes)[k] == if (from, to) in volumes then volumes[(from, to)] else []
    {
      StepStartIs(startHeight, stepCount, k);
    }

    /** An exchange lists exactly the accounts that some step rewards, each once, with its reward, share and number
        summed over the steps that reward it. */
    lemma ExchangeSliceIs(result: seq<Stat>, volumes: VolumeSource, account: nat)
      requires ValidSource(volumes) && StepsChecked() && stepCount > 0 && IsExchangeSlice(result, volumes)
      ensures
        var steps := RewardedWindows(Windows(volumes), totalValue / Steps());
        var share, number := OverSteps(PaidShare(account), steps), OverSteps(PaidNumber(account), steps);
        var reward := OverSteps(PaidReward(account), steps);
        && (forall i :: 0 <= i < |result| && result[i].account == account ==>
              Totals(result[i], account, share, number, reward))
        && ((exists i :: 0 <= i < |result| && result[i].account == account) <==> share > 0)
        && DistinctAccounts(result)
    {
      var steps := RewardedWindows(Windows(volumes), totalValue / Steps());
      MergedStepsKeyed(steps);
      MergedStepsHold(steps, account);
      SliceContents(result, MergedSteps(steps));
    }

    /** Rewards are all set, or the first one is not: a later redispatch never meets an unset reward. */
    lemma ExchangeSliceUniform(result: seq<Stat>, volumes: VolumeSource)
      requires ValidSource(volumes) && StepsChecked() && IsExchangeSlice(result, volumes)
      ensures Uniform(result)
    {
      if stepCount == 0 {
        ValidTraders(volumes, startHeight, endHeight);
      } else {
        var steps := RewardedWindows(Windows(volumes), totalValue / Steps());
        MergedStepsKeyed(steps);
        MergedStepsPaid(steps);
        SliceContents(result, MergedSteps(steps));
      }
    }

    /** A file contributes no empty steps. */
    function SeenWithSource(m: Missing, source: Source): Missing
      requires StepsChecked()
    {
      if source.FromStore? then SeenWith(m, source.volumes) else m
    }

    function SeenAll(sources: seq<Source>): Missing
      requires StepsChecked()
    {
      if |sources| == 0 then Missing(false, [])
      else SeenWithSource(SeenAll(sources[..|sources| - 1]), sources[|sources| - 1])
    }

    lemma MoreEmptyLists(exchanges: seq<VolumeSource>, volumes: VolumeSource)
      requires StepsChecked() && stepCount > 0
      ensures EmptyListsOf(exchanges + [volumes]) ==
              EmptyListsOf(exchanges) + [EmptyStarts(Windows(volumes), StepStarts())]
    {
    }

    lemma {:induction false} SeenAllIs(sources: seq<Source>)
      requires StepsChecked()
      ensures SeenAll(sources) ==
              if stepCount == 0 then UpdatedAll([]) else UpdatedAll(EmptyListsOf(StoredOf(sources)))
    {
      if |sources| > 0 {
        var init, last := sources[..|sources| - 1], sources[|sources| - 1];
        SeenAllIs(init);
        StoredOfInit(sources);
        if last.FromStore? && stepCount > 0 {
          MoreEmptyLists(StoredOf(init), last.volumes);
          UpdatedMore(EmptyListsOf(StoredOf(init)), EmptyStarts(Windows(last.volumes), StepStarts()));
        }
      }
    }

    /** Each slice is that of its exchange. */
    ghost predicate AreExchangeSlices(slices: seq<seq<Stat>>, exchanges: seq<VolumeSource>)
      requires StepsChecked() && |slices| == |exchanges|
    {
      |slices| == 0 ||
      var n := |slices| - 1;
      AreExchangeSlices(slices[..n], exchanges[..n]) && IsExchangeSlice(slices[n], exchanges[n])
    }

    lemma {:induction false} EachExchangeSlice(slices: seq<seq<Stat>>, exchanges: seq<VolumeSource>, e: nat)
      requires StepsChecked() && |slices| == |exchanges| && e < |slices|
      requires AreExchangeSlices(slices, exchanges)
      ensures IsExchangeSlice(slices[e], exchanges[e])
    {
      var n := |slices| - 1;
      if e < n {
        EachExchangeSlice(slices[..n], exchanges[..n], e);
      }
    }

    /** The statistics of one source: those of the exchange, or the file's as they are. */
    ghost predicate IsSlice(slice: seq<Stat>, source: Source)
      requires StepsChecked()
    {
      match source
      case FromStore(volumes) => IsExchangeSlice(slice, volumes)
      case FromFile(stats) => stats == Some(slice)
    }

    ghost predicate AreSlices(slices: seq<seq<Stat>>, sources: seq<Source>)
      requires StepsChecked() && |slices| == |sources|
    {
      |slices| == 0 ||
      var n := |slices| - 1;
      AreSlices(slices[..n], sources[..n]) && IsSlice(slices[n], sources[n])
    }

    lemma {:induction false} EachSlice(slices: seq<seq<Stat>>, sources: seq<Source>, e: nat)
      requires StepsChecked() && |slices| == |sources| && e < |slices|
      requires AreSlices(slices, sources)
      ensures IsSlice(slices[e], sources[e])
    {
      var n := |slices| - 1;
      if e < n {
        EachSlice(slices[..n], sources[..n], e);
      }
    }

    /** Without files, the slices are those of the stored exchanges. */
    lemma {:induction false} StoredSlices(slices: seq<seq<Stat>>, sources: seq<Source>)
      requires StepsChecked() && |slices| == |sources| && AreSlices(slices, sources)
      requires forall e :: 0 <= e < |sources| ==> sources[e].FromStore?
      ensures |StoredOf(sources)| == |sources| && AreExchangeSlices(slices, StoredOf(sources))
      ensures forall e :: 0 <= e < |sources| ==> StoredOf(sources)[e] == sources[e].volumes
    {
      if |slices| > 0 {
        var n := |slices| - 1;
        StoredSlices(slices[..n], sources[..n]);
        AppendInit(StoredOf(sources[..n]), sources[n].volumes);
      }
    }

    lemma OneMoreSlice(slices: seq<seq<Stat>>, sources: seq<Source>, slice: seq<Stat>, source: Source)
      requires StepsChecked() && |slices| == |sources|
      requires AreSlices(slices, sources) && IsSlice(slice, source)
      ensures AreSlices(slices + [slice], sources + [source])
    {
      AppendInit(slices, slice);
      AppendInit(sources, source);
    }

    /** The statistics of all exchanges, unless a file cannot be read. */
    method GetAccountsAndRewards(sources: seq<Source>) returns (accountStats: seq<seq<AccountStat>>, ok: bool)
      requires forall e :: 0 <= e < |sources| ==> ValidInput(sources[e])
      requires StepsChecked() && Seen() == UpdatedAll([])
      modifies this
      ensures ok <==> forall e :: 0 <= e < |sources| ==> CanRead(sources[e])
      ensures ok ==> |accountStats| == |sources| && AreSlices(GroupViews(accountStats), sources)
      ensures ok ==> Separate(accountStats) && fresh(Objects(accountStats))
      ensures ok ==>
                noVolumes == if stepCount == 0 then 0 else |UpdatedAll(EmptyListsOf(StoredOf(sources))).starts|
      ensures !ok ==> noVolumes == old(noVolumes)
    {
      var count;
      accountStats, count := CollectExchanges(sources);
      ok := count == |sources|;
      if ok {
        TakeAll(sources);
        SeenAllIs(sources);
        noVolumes := |noVolumeStartHeights|;
      }
    }

    /** The statistics of the exchanges so far, no object twice. */
    ghost predicate Collected(accountStats: seq<seq<AccountStat>>, sources: seq<Source>)
      requires StepsChecked()
      reads Objects(accountStats)
    {
      && |accountStats| == |sources| && Separate(accountStats)
      && AreSlices(GroupViews(accountStats), sources)
    }

    /** Exchange after exchange, up to the first file that cannot be read. */
    method CollectExchanges(sources: seq<Source>) returns (accountStats: seq<seq<AccountStat>>, count: nat)
      requires forall e :: 0 <= e < |sources| ==> ValidInput(sources[e])
      requires StepsChecked() && Seen() == UpdatedAll([])
      modifies this
      ensures count == FirstUnreadable(sources)
      ensures Collected(accountStats, sources[..count]) && Seen() == SeenAll(sources[..count])
      ensures fresh(Objects(accountStats)) && noVolumes == old(noVolumes)
    {
      accountStats, count := [], 0;
      while count < |sources| && CanRead(sources[count])
        invariant count <= FirstUnreadable(sources)
        invariant Collected(accountStats, sources[..count]) && fresh(Objects(accountStats))
        invariant Seen() == SeenAll(sources[..count]) && noVolumes == old(noVolumes)
      {
        TakeNext(sources, count);
        accountStats := CollectExchange(accountStats, sources[..count], sources[count]);
        count := count + 1;
      }
    }

    /** One more exchange. */
    method CollectExchange(collected: seq<seq<AccountStat>>, ghost sources: seq<Source>, source: Source)
      returns (accountStats: seq<seq<AccountStat>>)
      requires ValidInput(source) && CanRead(source) && StepsChecked()
      requires Collected(collected, sources) && Seen() == SeenAll(sources)
      modifies this
      ensures Collected(accountStats, sources + [source])
      ensures forall o :: o in Objects(accountStats) ==> o in Objects(collected) || fresh(o)
      ensures Seen() == SeenAll(sources + [source]) && noVolumes == old(noVolumes)
    {
      ghost var groups := GroupViews(collected);
      var stats := CollectFrom(source);
      assert GroupViews(collected) == groups;
      OneMoreSlice(groups, sources, Views(stats), source);
      OneMoreSeparate(collected, stats);
      AppendInit(sources, source);
      accountStats := collected + [stats];
    }

    method CollectFrom(source: Source) returns (stats: seq<AccountStat>)
      requires ValidInput(source) && CanRead(source) && StepsChecked()
      modifies this
      ensures IsSlice(Views(stats), source) && fresh(stats) && Distinct(stats)
      ensures Seen() == SeenWithSource(old(Seen()), source) && noVolumes == old(noVolumes)
    {
      match source
      case FromStore(volumes) => stats := GetAccountsAndRewardsFromDB(volumes);
      case FromFile(read) => stats := FreshStats(read.value);
    }

    ghost function EmptyListsOf(exchanges: seq<VolumeSource>): (r: seq<seq<nat>>)
      requires StepsChecked() && stepCount > 0
      ensures |r| == |exchanges|
    {
      seq(|exchanges|, e requires 0 <= e < |exchanges| => EmptyStarts(Windows(exchanges[e]), StepStarts()))
    }
  }

  /** Merges one statistic: into the running one of its account, in place, or by filing it. */
  method MergeStat(statMap: map<nat, AccountStat>, stat: AccountStat) returns (finStatMap: map<nat, AccountStat>)
    requires Filed(statMap) && stat !in statMap.Values
    modifies statMap.Values
    ensures Filed(finStatMap) && forall o :: o in finStatMap.Values ==> o in statMap.Values || o == stat
    ensures StatViews(finStatMap) == Merged(old(StatViews(statMap)), old(stat.View()))
  {
    finStatMap := statMap;
    if stat.reward == None || stat.reward.value <= 0 {
      return;
    }
    if stat.account in finStatMap {
      var fin := finStatMap[stat.account];
      var paid := if fin.reward == None then 0 else fin.reward.value;
      fin.reward := Some(paid + stat.reward.value);
      fin.share := fin.share + stat.share;
      fin.number := fin.number + stat.number;
    } else {
      finStatMap := finStatMap[stat.account := stat];
    }
  }

  /** Merges one step's statistics into the running ones. */
  method MergeStep(statMap: map<nat, AccountStat>, cycleStats: seq<AccountStat>)
    returns (finStatMap: map<nat, AccountStat>)
    requires Filed(statMap) && Distinct(cycleStats)
    requires forall o :: o in cycleStats ==> o !in statMap.Values
    modifies statMap.Values, cycleStats
    ensures Filed(finStatMap) && forall o :: o in finStatMap.Values ==> o in statMap.Values || o in cycleStats
    ensures StatViews(finStatMap) == MergedAll(old(StatViews(statMap)), old(Views(cycleStats)))
  {
    finStatMap := statMap;
    ghost var m, stats := StatViews(statMap), Views(cycleStats);
    for i := 0 to |cycleStats|
      invariant Filed(finStatMap)
      invariant forall o :: o in finStatMap.Values ==> o in statMap.Values || o in cycleStats[..i]
      invariant forall j :: i <= j < |cycleStats| ==> cycleStats[j].View() == stats[j]
      invariant StatViews(finStatMap) == MergedAll(m, stats[..i])
    {
      TakeNext(stats, i);
      TakeNext(cycleStats, i);
      RestUnfiled(cycleStats, i, statMap.Values, finStatMap.Values);
      finStatMap := MergeStat(finStatMap, cycleStats[i]);
    }
    TakeAll(stats);
  }

  lemma RestUnfiled(cycleStats: seq<AccountStat>, i: nat, others: set<AccountStat>, filed: set<AccountStat>)
    requires i <= |cycleStats| && Distinct(cycleStats)
    requires forall o :: o in cycleStats ==> o !in others
    requires forall o :: o in filed ==> o in others || o in cycleStats[..i]
    ensures forall j :: i <= j < |cycleStats| ==> cycleStats[j] !in filed
  {
  }

  /** One step: reward its window, then note it as empty or merge it. */
  method SettleStep(window: seq<Stat>, stepRewards: int, start: nat, statMap: map<nat, AccountStat>,
                           starts: seq<nat>)
    returns (finStatMap: map<nat, AccountStat>, noVolumeStarts: seq<nat>, ghost cycleStats: seq<Stat>)
    requires Unrewarded(window) && Filed(statMap)
    modifies statMap.Values
    ensures Filed(finStatMap) && forall o :: o in finStatMap.Values ==> o in statMap.Values || fresh(o)
    ensures cycleStats == Rewarded(window, stepRewards) && |cycleStats| == |window|
    ensures StatViews(finStatMap) ==
            if |window| == 0 then old(StatViews(statMap)) else MergedAll(old(StatViews(statMap)), cycleStats)
    ensures noVolumeStarts == starts + if |window| == 0 then [start] else []
  {
    finStatMap, noVolumeStarts := statMap, starts;
    var stats := GetSingleCycleRewards(window, stepRewards);
    cycleStats := Views(stats);
    if |stats| == 0 {
      noVolumeStarts := noVolumeStarts + [start];
    } else {
      finStatMap := MergeStep(finStatMap, stats);
    }
  }

  /** One more step on top of those done. */
  method AddStep(window: seq<Stat>, stepRewards: int, start: nat, statMap: map<nat, AccountStat>,
                        noStarts: seq<nat>, ghost before: seq<seq<Stat>>, ghost windows: seq<seq<Stat>>,
                        ghost starts: seq<nat>)
    returns (finStatMap: map<nat, AccountStat>, noVolumeStarts: seq<nat>, ghost done: seq<seq<Stat>>)
    requires Unrewarded(window) && Filed(statMap)
    requires SoFar(before, StatViews(statMap), noStarts, windows, starts, stepRewards)
    requires |before| < |windows| && window == windows[|before|] && start == starts[|before|]
    modifies statMap.Values
    ensures Filed(finStatMap) && forall o :: o in finStatMap.Values ==> o in statMap.Values || fresh(o)
    ensures |done| == |before| + 1 && SoFar(done, StatViews(finStatMap), noVolumeStarts, windows, starts, stepRewards)
  {
    ghost var m := StatViews(statMap);
    ghost var cycleStats;
    finStatMap, noVolumeStarts, cycleStats := SettleStep(window, stepRewards, start, statMap, noStarts);
    OneMoreSoFar(before, m, noStarts, cycleStats, StatViews(finStatMap), noVolumeStarts, windows, starts, stepRewards);
    done := before + [cycleStats];
  }

  /** The loop over the steps; `starts` are the starts it goes through, `windows` what the store reports for them. */
  method MergeSteps(volumes: VolumeSource, startHeight: nat, endHeight: nat, stepCount: nat, stepRewards: int,
                    ghost starts: seq<nat>, ghost windows: seq<seq<Stat>>)
    returns (finStatMap: map<nat, AccountStat>, noVolumeStarts: seq<nat>, ghost done: seq<seq<Stat>>)
    requires ValidSource(volumes) && |windows| == |starts|
    requires StepsThrough(starts, stepCount, startHeight, endHeight)
    requires Reported(volumes, starts, windows, stepCount)
    ensures done == RewardedWindows(windows, stepRewards)
    ensures Filed(finStatMap) && fresh(finStatMap.Values) && StatViews(finStatMap) == MergedSteps(done)
    ensures noVolumeStarts == EmptyStarts(windows, starts)
  {
    finStatMap, noVolumeStarts, done := map[], [], [];
    var start := startHeight;
    ghost var k := 0;
    while start < endHeight
      invariant |done| == k <= |windows| && start == StartAt(starts, k, endHeight)
      invariant Filed(finStatMap) && fresh(finStatMap.Values)
      invariant SoFar(done, StatViews(finStatMap), noVolumeStarts, windows, starts, stepRewards)
      decreases |windows| - k
    {
      var window := Traders(volumes, start, start + stepCount);
      NextStart(starts, stepCount, startHeight, endHeight, k);
      StepTradersAt(volumes, starts, windows, stepCount, k, start);
      ValidTraders(volumes, start, start + stepCount);
      finStatMap, noVolumeStarts, done :=
        AddStep(window, stepRewards, start, finStatMap, noVolumeStarts, done, windows, starts);
      start, k := start + stepCount, k + 1;
    }
    NextStart(starts, stepCount, startHeight, endHeight, k);
    AllSoFar(done, StatViews(finStatMap), noVolumeStarts, windows, starts, stepRewards);
  }

  /** The loop and the sort after it. */
  method MergedSlice(volumes: VolumeSource, startHeight: nat, endHeight: nat, stepCount: nat, stepRewards: int,
                     ghost starts: seq<nat>, ghost windows: seq<seq<Stat>>)
    returns (accountStats: seq<AccountStat>, noVolumeStarts: seq<nat>)
    requires ValidSource(volumes) && |windows| == |starts|
    requires StepsThrough(starts, stepCount, startHeight, endHeight)
    requires Reported(volumes, starts, windows, stepCount)
    ensures IsSortedSliceOf(Views(accountStats), MergedSteps(RewardedWindows(windows, stepRewards)))
    ensures fresh(accountStats) && Distinct(accountStats)
    ensures noVolumeStarts == EmptyStarts(windows, starts)
  {
    var finStatMap;
    ghost var done;
    finStatMap, noVolumeStarts, done :=
      MergeSteps(volumes, startHeight, endHeight, stepCount, stepRewards, starts, windows);
    accountStats := ConvertToSortedSlice(finStatMap);
    assert forall i :: 0 <= i < |accountStats| ==> accountStats[i] in accountStats;
  }

  /** The statistics a query or a file yields, as objects. */
  method FreshStats(window: seq<Stat>) returns (stats: seq<AccountStat>)
    ensures |stats| == |window| && Distinct(stats) && Views(stats) == window
    ensures fresh(stats)
  {
    stats := [];
    for i := 0 to |window|
      invariant |stats| == i && Distinct(stats)
      invariant fresh(stats)
      invariant forall k :: 0 <= k < i ==> stats[k].View() == window[k]
    {
      var stat := new AccountStat(window[i].account, window[i].reward, window[i].share, window[i].number);
      stats := stats + [stat];
    }
  }

  /** `getSingleCycleRewardsFromDB`: a window's statistics, rewarded in place. */
  method GetSingleCycleRewards(window: seq<Stat>, totalRewards: int) returns (accountStats: seq<AccountStat>)
    requires Unrewarded(window)
    ensures Views(accountStats) == Rewarded(window, totalRewards)
    ensures fresh(accountStats) && Distinct(accountStats)
  {
    if |window| == 0 {
      return [];
    }
    accountStats := FreshStats(window);
    CalcRewards(accountStats, totalRewards);
  }

  lemma OneMoreSeparate(accountStats: seq<seq<AccountStat>>, stats: seq<AccountStat>)
    requires Separate(accountStats) && Distinct(stats)
    requires forall o :: o in stats ==> o !in Objects(accountStats)
    ensures Separate(accountStats + [stats])
    ensures GroupViews(accountStats + [stats]) == GroupViews(accountStats) + [Views(stats)]
    ensures forall o :: o in Objects(accountStats + [stats]) <==> o in Objects(accountStats) || o in stats
  {
    var all, n := accountStats + [stats], |accountStats|;
    assert forall i :: 0 <= i < n ==> all[i] == accountStats[i];
    forall i, j | 0 <= i < j < |all|
      ensures Apart(all[i], all[j])
    {
      if j == n {
        assert forall o :: o in accountStats[i] ==> o in Objects(accountStats);
      }
    }
    forall o | o in stats
      ensures o in Objects(all)
    {
      var k :| 0 <= k < |stats| && stats[k] == o;
      assert all[n][k] == o;
    }
    forall o | o in Objects(accountStats)
      ensures o in Objects(all)
    {
      var i, k :| 0 <= i < n && 0 <= k < |accountStats[i]| && accountStats[i][k] == o;
      assert all[i][k] == o;
    }
  }

  lemma ValidTraders(volumes: VolumeSource, from: nat, to: nat)
    requires ValidSource(volumes)
    ensures Unrewarded(Traders(volumes, from, to))
  {
  }

  ghost predicate RewardedSoFar(done: seq<seq<Stat>>, windows: seq<seq<Stat>>, stepRewards: int)
  {
    |done| <= |windows| && forall k :: 0 <= k < |done| ==> done[k] == Rewarded(windows[k], stepRewards)
  }

  /** The merge and the empty starts after some of the steps. */
  ghost predicate SoFar(done: seq<seq<Stat>>, finStatMap: map<nat, Stat>, noVolumeStarts: seq<nat>,
                        windows: seq<seq<Stat>>, starts: seq<nat>, stepRewards: int)
  {
    && |windows| == |starts| && RewardedSoFar(done, windows, stepRewards)
    && finStatMap == MergedSteps(done) && noVolumeStarts == EmptyStarts(windows[..|done|], starts)
  }

  lemma OneMoreRewarded(windows: seq<seq<Stat>>, done: seq<seq<Stat>>, next: seq<Stat>, stepRewards: int)
    requires RewardedSoFar(done, windows, stepRewards) && |done| < |windows|
    requires next == Rewarded(windows[|done|], stepRewards)
    ensures RewardedSoFar(done + [next], windows, stepRewards)
  {
  }

  lemma OneMoreSoFar(done: seq<seq<Stat>>, m: map<nat, Stat>, noStarts: seq<nat>, next: seq<Stat>,
                     m': map<nat, Stat>, noStarts': seq<nat>, windows: seq<seq<Stat>>, starts: seq<nat>,
                     stepRewards: int)
    requires SoFar(done, m, noStarts, windows, starts, stepRewards) && |done| < |windows|
    requires next == Rewarded(windows[|done|], stepRewards)
    requires m' == if |next| == 0 then m else MergedAll(m, next)
    requires noStarts' == noStarts + if |next| == 0 then [starts[|done|]] else []
    ensures SoFar(done + [next], m', noStarts', windows, starts, stepRewards)
  {
    OneMoreStep(windows, done, next, starts);
    OneMoreRewarded(windows, done, next, stepRewards);
  }

  lemma AllSoFar(done: seq<seq<Stat>>, m: map<nat, Stat>, noStarts: seq<nat>, windows: seq<seq<Stat>>,
                 starts: seq<nat>, stepRewards: int)
    requires SoFar(done, m, noStarts, windows, starts, stepRewards) && |done| == |windows|
    ensures done == RewardedWindows(windows, stepRewards)
    ensures noStarts == EmptyStarts(windows, starts)
  {
    TakeAll(windows);
  }

  lemma OneMoreStep(windows: seq<seq<Stat>>, done: seq<seq<Stat>>, next: seq<Stat>, starts: seq<nat>)
    requires |done| < |windows| == |starts| && |windows[|done|]| == |next|
    ensures MergedSteps(done + [next]) == if |next| == 0 then MergedSteps(done) else MergedAll(MergedSteps(done), next)
    ensures EmptyStarts(windows[..|done| + 1], starts) ==
            EmptyStarts(windows[..|done|], starts) + if |next| == 0 then [starts[|done|]] else []
  {
    assert (done + [next])[..|done|] == done && windows[..|done| + 1][..|done|] == windows[..|done|];
  }

  lemma {:induction false} MergedAllKeyed(m: map<nat, Stat>, stats: seq<Stat>)
    requires WellKeyed(m)
    ensures WellKeyed(MergedAll(m, stats))
  {
    if |stats| > 0 {
      MergedAllKeyed(m, stats[..|stats| - 1]);
    }
  }

  predicate AllPaid(m: map<nat, Stat>)
  {
    forall k :: k in m ==> PaidTo(m[k]) > 0
  }

  lemma {:induction false} MergedAllPaid(m: map<nat, Stat>, stats: seq<Stat>)
    requires AllPaid(m)
    ensures AllPaid(MergedAll(m, stats))
  {
    if |stats| > 0 {
      MergedAllPaid(m, stats[..|stats| - 1]);
    }
  }

  lemma {:induction false} MergedStepsPaid(steps: seq<seq<Stat>>)
    ensures AllPaid(MergedSteps(steps))
  {
    if |steps| > 0 {
      MergedStepsPaid(steps[..|steps| - 1]);
      MergedAllPaid(MergedSteps(steps[..|steps| - 1]), steps[|steps| - 1]);
    }
  }

  lemma {:induction false} MergedStepsKeyed(steps: seq<seq<Stat>>)
    ensures WellKeyed(MergedSteps(steps))
  {
    if |steps| > 0 {
      MergedStepsKeyed(steps[..|steps| - 1]);
      MergedAllKeyed(MergedSteps(steps[..|steps| - 1]), steps[|steps| - 1]);
    }
  }
}
