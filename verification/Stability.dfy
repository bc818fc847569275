/** Settling only on confirmed blocks, in height mode: from the configuration check through the endless sync worker and
    its concurrent block parsers to the wait for a cycle's end. */
module Stability {
  import opened Wrappers
  import RewardLines

  /** `checkCycle`: both lengths usable, one a whole multiple of the other. */
  predicate CycleOk(byVolumeCycle: nat, byLiquidCycle: nat)
  {
    byVolumeCycle != 0 && byLiquidCycle >= byVolumeCycle && byLiquidCycle % byVolumeCycle == 0
  }

  /** The configured confirmations: of the distributer and of the syncer. */
  datatype Depths = Depths(dist: nat, sync: nat)

  /** The check moves the distributer's stable height to the syncer when it is the larger one. */
  function Moved(d: Depths): Depths
  {
    if d.dist > d.sync then Depths(1, d.dist) else d
  }

  /** The larger depth ends up with the syncer; the distributer keeps its own, or 1 when it was the larger one. */
  lemma MovedIs(d: Depths)
    ensures Moved(d).sync >= d.dist && Moved(d).sync >= d.sync && (Moved(d).sync == d.dist || Moved(d).sync == d.sync)
    ensures Moved(d).dist == if d.dist > d.sync then 1 else d.dist
  {
  }

  /** Amounts as they are written in the configuration. */
  datatype ConfiguredValues = ConfiguredValues(byLiquidRewards: string, byVolumeRewards: string, gasPrice: string,
                                               dustRewardThreshold: string)

  /** `checkBigIntStringValue`: left out, or a number under the base-0 rules. */
  predicate IsNumberOrEmpty(value: string)
  {
    value == "" || RewardLines.SetString0(value).Some?
  }

  class DistributeConfig {
    const rewardToken: string
    const values: ConfiguredValues
    const useTimeMeasurement: bool
    const byVolumeCycle: nat
    const byLiquidCycle: nat
    const byVolumeCycleDuration: nat
    const byLiquidCycleDuration: nat
    var stableHeight: nat
    var syncStable: nat

    constructor (rewardToken: string, values: ConfiguredValues, useTimeMeasurement: bool, byVolumeCycle: nat,
                 byLiquidCycle: nat, byVolumeCycleDuration: nat, byLiquidCycleDuration: nat, stableHeight: nat,
                 syncStable: nat)
      ensures Get() == Depths(stableHeight, syncStable)
    {
      this.rewardToken, this.values, this.useTimeMeasurement := rewardToken, values, useTimeMeasurement;
      this.byVolumeCycle, this.byLiquidCycle := byVolumeCycle, byLiquidCycle;
      this.byVolumeCycleDuration, this.byLiquidCycleDuration := byVolumeCycleDuration, byLiquidCycleDuration;
      this.stableHeight, this.syncStable := stableHeight, syncStable;
    }

    function Get(): Depths
      reads this
    {
      Depths(stableHeight, syncStable)
    }

    predicate CheckCycle()
    {
      if useTimeMeasurement then CycleOk(byVolumeCycleDuration, byLiquidCycleDuration)
      else CycleOk(byVolumeCycle, byLiquidCycle)
    }

    /** `checkAddress` and `checkStringValue`. */
    predicate CheckTexts()
    {
      && RewardLines.ParseAddress(rewardToken).Some?
      && IsNumberOrEmpty(values.byLiquidRewards) && IsNumberOrEmpty(values.byVolumeRewards)
      && IsNumberOrEmpty(values.gasPrice) && IsNumberOrEmpty(values.dustRewardThreshold)
    }

    method Check() returns (ok: bool)
      modifies this
      ensures ok <==>
              && RewardLines.ParseAddress(rewardToken).Some?
              && (values.byLiquidRewards == "" || RewardLines.SetString0(values.byLiquidRewards).Some?)
              && (values.byVolumeRewards == "" || RewardLines.SetString0(values.byVolumeRewards).Some?)
              && (values.gasPrice == "" || RewardLines.SetString0(values.gasPrice).Some?)
              && (values.dustRewardThreshold == "" || RewardLines.SetString0(values.dustRewardThreshold).Some?)
              && var volumeCycle := if useTimeMeasurement then byVolumeCycleDuration else byVolumeCycle;
                 var liquidCycle := if useTimeMeasurement then byLiquidCycleDuration else byLiquidCycle;
                 0 < volumeCycle <= liquidCycle && liquidCycle % volumeCycle == 0
      ensures Get() == if ok then Moved(old(Get())) else old(Get())
    {
      if !CheckTexts() || !CheckCycle() {
        return false;
      }
      if stableHeight > syncStable {
        syncStable := stableHeight;
        stableHeight := 1;
      }
      ok := true;
    }
  }

  // ----- the endless worker beside its parsers -----

  /** `head` is the chain head, `latest` the head the worker last asked for, `height` the next height it looks at,
      `inFlight` the blocks whose parsing has not updated the sync record yet, `record` the stored sync record. */
  datatype State = State(head: nat, latest: nat, height: nat, inFlight: set<nat>, record: nat)

  predicate Init(s: State, head: nat, record: nat)
  {
    s.head == head && s.record == record && s.latest == 0 && s.inFlight == {}
  }

  /** Only the endless worker's parsers write the record. The chain grows; the worker asks for the head; the worker
      passes over some heights and hands over the next one, or passes over it too, all confirmed by the latest head;
      some block parser writes the record, in any order; some block parsers finish. */
  predicate Step(s: State, s': State, syncStable: nat)
  {
    || (s'.head >= s.head && s' == s.(head := s'.head))
    || s' == s.(latest := s.head)
    || (s'.height > s.height && s'.height - 1 + syncStable <= s.latest &&
        s' == s.(height := s'.height, inFlight := s.inFlight + {s'.height - 1}))
    || (s'.height > s.height && s'.height - 1 + syncStable <= s.latest && s' == s.(height := s'.height))
    || (s'.record in s.inFlight && s' == s.(record := s'.record))
    || (s'.inFlight <= s.inFlight && s' == s.(inFlight := s'.inFlight))
  }

  ghost predicate Run(run: seq<State>, head: nat, record: nat, syncStable: nat)
  {
    |run| > 0 && Init(run[0], head, record) && forall n :: 0 <= n < |run| - 1 ==> Step(run[n], run[n + 1], syncStable)
  }

  /** The wait for a cycle's end stops on such a record. */
  predicate WaitEnds(record: nat, cycleEnd: nat, distStable: nat)
  {
    record >= cycleEnd + distStable
  }

  /** `waitCycleEnd` over the replies to its record queries, a failure being `None`: it stops at the first record that
      is far enough, if there is one yet. */
  method WaitCycleEnd(cycleEnd: nat, distStable: nat, replies: seq<Option<nat>>)
    returns (ended: bool, latest: nat, asked: nat)
    ensures asked <= |replies|
    ensures ended ==> asked > 0 && replies[asked - 1] == Some(latest) && latest >= cycleEnd + distStable
    ensures !ended ==> asked == |replies|
    ensures forall i :: 0 <= i < (if ended then asked - 1 else asked) && replies[i].Some? ==>
              replies[i].value < cycleEnd + distStable
  {
    ended, latest, asked := false, 0, 0;
    while asked < |replies|
      invariant asked <= |replies| && !ended
      invariant forall i :: 0 <= i < asked && replies[i].Some? ==> replies[i].value < cycleEnd + distStable
    {
      var info := replies[asked];
      asked := asked + 1;
      if info.None? {
        continue;
      }
      latest := info.value;
      if latest >= cycleEnd + distStable {
        ended := true;
        return;
      }
    }
  }

  predicate Inv(s: State, head: nat, record: nat, syncStable: nat)
  {
    && s.head >= head && s.latest <= s.head
    && (forall n :: n in s.inFlight ==> n + syncStable <= s.head)
    && (s.record == record || s.record + syncStable <= s.head)
  }

  /** Whatever the order in which block parsers finish, a record they wrote is confirmed by the syncer's depth. */
  lemma {:induction false} RunInv(run: seq<State>, n: nat, head: nat, record: nat, syncStable: nat)
    requires Run(run, head, record, syncStable) && n < |run|
    ensures Inv(run[n], head, record, syncStable)
  {
    if n > 0 {
      RunInv(run, n - 1, head, record, syncStable);
      assert Step(run[n - 1], run[n], syncStable);
    }
  }

  /** Every wait that ends does so with the originally configured distributer depth below the chain head. */
  ghost predicate AlwaysStable(configured: Depths, head: nat, record: nat)
  {
    forall run: seq<State>, n: nat, cycleEnd: nat ::
      (Run(run, head, record, Moved(configured).sync) && n < |run| &&
       WaitEnds(run[n].record, cycleEnd, Moved(configured).dist)) ==> run[n].head >= cycleEnd + configured.dist
  }

  /** Exact condition: the guarantee depends only on the record found at the start, which `--syncfrom` may have set to
      anything. */
  lemma AlwaysStableIff(configured: Depths, head: nat, record: nat)
    ensures AlwaysStable(configured, head, record) <==>
            record < Moved(configured).dist || record + configured.dist <= head + Moved(configured).dist
  {
    var checked := Moved(configured);
    if record < checked.dist || record + configured.dist <= head + checked.dist {
      forall run: seq<State>, n: nat, cycleEnd: nat |
        Run(run, head, record, checked.sync) && n < |run| && WaitEnds(run[n].record, cycleEnd, checked.dist)
        ensures run[n].head >= cycleEnd + configured.dist
      {
        RunInv(run, n, head, record, checked.sync);
      }
    } else {
      var run := [State(head, 0, 0, {}, record)];
      assert Run(run, head, record, checked.sync);
      assert WaitEnds(run[0].record, record - checked.dist, checked.dist);
    }
  }

  /** With a record that lies the syncer's depth below the head to begin with, every wait ends with both depths below
      the head, hence with the configured one. */
  lemma ConfirmedByBothDepths(configured: Depths, head: nat, record: nat, run: seq<State>, n: nat, cycleEnd: nat)
    requires Run(run, head, record, Moved(configured).sync) && n < |run|
    requires record + Moved(configured).sync <= head
    requires WaitEnds(run[n].record, cycleEnd, Moved(configured).dist)
    ensures run[n].head >= cycleEnd + Moved(configured).dist + Moved(configured).sync
    ensures run[n].head >= cycleEnd + configured.dist
  {
    RunInv(run, n, head, record, Moved(configured).sync);
  }
}
