/** Dispatching the rewards of all exchanges (distributer/dispatchrewards.go), and the volume path to what is sent. */
module Dispatch {
  import opened Wrappers
  import opened Seqs
  import opened Sums
  import opened Rewards
  import opened AccountStats
  import opened SendRun
  import opened VolumeSteps
  import opened ByVolume

  /** An unset reward is passed over, as one that is not positive is. */
  function PaymentsIn(stats: seq<Stat>): (r: seq<Payment>)
    ensures |r| == |stats|
  {
    seq(|stats|, i requires 0 <= i < |stats| => Payment(stats[i].account, PaidTo(stats[i])))
  }

  /** A distribution record: the exchange and the rewards sent to its accounts. */
  datatype DistributeInfo = DistributeInfo(exchange: nat, rewards: int)

  /** What has been sent to the accounts of each exchange, the lines of its output file, and the records saved. */
  datatype Sendings = Sendings(sender: Sender, sended: seq<int>, outputs: seq<seq<Line>>, records: seq<DistributeInfo>,
                               ok: bool)

  /** One more exchange; `opens` tells whether its output file can be opened and its title written. */
  function SendExchange(d: Sendings, stats: seq<Stat>, opens: bool, saveDB: bool, mode: Mode, net: Network): Sendings
  {
    if !d.ok then d
    else if !opens then d.(ok := false)
    else
      var g := SendList(d.sender, PaymentsIn(stats), mode, net);
      Sendings(g.sender, d.sended + [g.sended], d.outputs + [g.lines],
               d.records + (if g.ok && saveDB && g.sended > 0 then [DistributeInfo(|d.sended|, g.sended)] else []),
               g.ok)
  }

  function SendExchanges(s: Sender, groups: seq<seq<Stat>>, opens: seq<bool>, saveDB: bool, mode: Mode,
                         net: Network): Sendings
    requires |opens| == |groups|
  {
    if |groups| == 0 then Sendings(s, [], [], [], true)
    else
      var n := |groups| - 1;
      SendExchange(SendExchanges(s, groups[..n], opens[..n], saveDB, mode, net), groups[n], opens[n], saveDB, mode, net)
  }

  method PaymentsOfSlice(stats: seq<AccountStat>) returns (ps: seq<Payment>)
    ensures ps == PaymentsIn(Views(stats))
  {
    ps := [];
    for i := 0 to |stats|
      invariant ps == PaymentsIn(Views(stats))[..i]
    {
      assert Views(stats)[i] == stats[i].View();
      var reward := if stats[i].reward == None then 0 else stats[i].reward.value;
      ps := ps + [Payment(stats[i].account, reward)];
    }
  }

  /** `sendRewards`: the payments of one exchange, unless its output file cannot be opened. */
  method SendRewards(payer: Payer, stats: seq<AccountStat>, opens: bool, net: Network)
    returns (sended: int, lines: seq<Line>, ok: bool)
    modifies payer
    ensures !opens ==> !ok && payer.State() == old(payer.State())
    ensures opens ==>
              var g := SendList(old(payer.State()), PaymentsIn(Views(stats)), payer.mode, net);
              payer.State() == g.sender && sended == g.sended && lines == g.lines && ok == g.ok
  {
    if !opens {
      return 0, [], false;
    }
    var ps := PaymentsOfSlice(stats);
    var dust;
    sended, dust, lines, ok := payer.SendPayments(ps, net);
  }

  /** `dispatchRewards`: exchange after exchange, up to the first failure. */
  method DispatchRewards(payer: Payer, accountStats: seq<seq<AccountStat>>, opens: seq<bool>, saveDB: bool,
                         net: Network)
    returns (sended: seq<int>, outputs: seq<seq<Line>>, records: seq<DistributeInfo>, ok: bool)
    requires |opens| == |accountStats|
    modifies payer
    ensures Sendings(payer.State(), sended, outputs, records, ok) ==
            SendExchanges(old(payer.State()), GroupViews(accountStats), opens, saveDB, payer.mode, net)
  {
    sended, outputs, records, ok := [], [], [], true;
    ghost var s0, groups := payer.State(), GroupViews(accountStats);
    for i := 0 to |accountStats|
      invariant GroupViews(accountStats) == groups
      invariant Sendings(payer.State(), sended, outputs, records, ok) ==
                SendExchanges(s0, groups[..i], opens[..i], saveDB, payer.mode, net)
    {
      OneMoreExchange(s0, groups, opens, i, saveDB, payer.mode, net);
      if !ok {
        continue;
      }
      assert groups[i] == Views(accountStats[i]);
      var rewardsSended, lines, sent := SendRewards(payer, accountStats[i], opens[i], net);
      if opens[i] {
        if sent && saveDB && rewardsSended > 0 {
          records := records + [DistributeInfo(|sended|, rewardsSended)];
        }
        sended, outputs := sended + [rewardsSended], outputs + [lines];
      }
      ok := sent;
    }
    TakeAll(groups);
    TakeAll(opens);
  }

  lemma OneMoreExchange(s: Sender, groups: seq<seq<Stat>>, opens: seq<bool>, i: nat, saveDB: bool, mode: Mode,
                        net: Network)
    requires i < |groups| == |opens|
    ensures SendExchanges(s, groups[..i + 1], opens[..i + 1], saveDB, mode, net) ==
            SendExchange(SendExchanges(s, groups[..i], opens[..i], saveDB, mode, net), groups[i], opens[i], saveDB,
                         mode, net)
  {
    TakeNext(groups, i);
    TakeNext(opens, i);
  }

  // ----- what is sent -----

  /** The rewards on record. */
  function Recorded(records: seq<DistributeInfo>): (r: seq<int>)
    ensures |r| == |records|
  {
    seq(|records|, i requires 0 <= i < |records| => records[i].rewards)
  }

  predicate Payable(stats: seq<Stat>)
  {
    forall i :: 0 <= i < |stats| ==> PaidTo(stats[i]) >= 0
  }

  lemma SliceSent(s: Sender, stats: seq<Stat>, mode: Mode, net: Network)
    requires Payable(stats) && SendList(s, PaymentsIn(stats), mode, net).ok
    ensures SendList(s, PaymentsIn(stats), mode, net).sended == Sum(Paid(stats)) >= 0
  {
    var ps := PaymentsIn(stats);
    SuccessSendsPositive(s, ps, mode, net);
    PositivePart(ps);
    assert SendRun.Amounts(ps) == Paid(stats);
    SumNonNegative(Paid(stats));
  }

  lemma RecordAdded(records: seq<DistributeInfo>, info: DistributeInfo)
    ensures Sum(Recorded(records + [info])) == Sum(Recorded(records)) + info.rewards
  {
    assert Recorded(records + [info]) == Recorded(records) + [info.rewards];
    SumAppend(Recorded(records), info.rewards);
  }

  /** What has been sent is what the accounts of the slices were to be paid, and what is on record is that too. */
  ghost predicate Settled(d: Sendings, groups: seq<seq<Stat>>, saveDB: bool)
  {
    && d.sended == PaidPerGroup(groups)
    && Sum(Recorded(d.records)) == if saveDB then Sum(d.sended) else 0
  }

  lemma OneMoreSent(d: Sendings, groups: seq<seq<Stat>>, stats: seq<Stat>, saveDB: bool, mode: Mode, net: Network)
    requires d.ok && Settled(d, groups, saveDB) && Payable(stats)
    requires SendExchange(d, stats, true, saveDB, mode, net).ok
    ensures Settled(SendExchange(d, stats, true, saveDB, mode, net), groups + [stats], saveDB)
  {
    var g := SendList(d.sender, PaymentsIn(stats), mode, net);
    SliceSent(d.sender, stats, mode, net);
    assert PaidPerGroup(groups + [stats]) == PaidPerGroup(groups) + [g.sended];
    SumAppend(d.sended, g.sended);
    RecordAdded(d.records, DistributeInfo(|d.sended|, g.sended));
    assert d.records + [] == d.records;
  }

  /** A dispatch without a failure sends each exchange exactly what its accounts were to be paid, dust included, and
      records as much. */
  lemma {:induction false} DispatchSends(s: Sender, groups: seq<seq<Stat>>, opens: seq<bool>, saveDB: bool, mode: Mode,
                                         net: Network)
    requires |opens| == |groups| && SendExchanges(s, groups, opens, saveDB, mode, net).ok
    requires forall g :: 0 <= g < |groups| ==> Payable(groups[g])
    ensures Settled(SendExchanges(s, groups, opens, saveDB, mode, net), groups, saveDB)
  {
    if |groups| > 0 {
      var n := |groups| - 1;
      DispatchSends(s, groups[..n], opens[..n], saveDB, mode, net);
      OneMoreSent(SendExchanges(s, groups[..n], opens[..n], saveDB, mode, net), groups[..n], groups[n], saveDB, mode,
                  net);
      InitLast(groups);
    }
  }

  // ----- to whom -----

  /** Accounts and amounts. */
  type Dues = seq<(nat, int)>

  /** What a slice's accounts are owed, in order: the positive rewards, of which outside a dry run those below the
      threshold are kept back as dust. */
  function Owed(stats: seq<Stat>, mode: Mode): Dues
  {
    if |stats| == 0 then []
    else
      var stat := stats[|stats| - 1];
      Owed(stats[..|stats| - 1], mode) +
      if stat.reward.Some? && stat.reward.value > 0 && (mode.dryRun || stat.reward.value >= mode.dustThreshold) then
        [(stat.account, stat.reward.value)]
      else []
  }

  function PaidIn(lines: seq<Line>): (r: Dues)
    ensures |r| == |lines|
  {
    seq(|lines|, i requires 0 <= i < |lines| => (lines[i].payment.account, lines[i].payment.reward))
  }

  lemma PaidInMore(lines: seq<Line>, line: Line)
    ensures PaidIn(lines + [line]) == PaidIn(lines) + [(line.payment.account, line.payment.reward)]
  {
  }

  lemma NextOwed(g: Progress, stat: Stat, owed: Dues, mode: Mode, net: Network)
    requires g.ok && PaidIn(g.lines) == owed
    ensures
      var g' := Next(g, Payment(stat.account, PaidTo(stat)), mode, net);
      g'.ok ==> PaidIn(g'.lines) ==
                owed + if stat.reward.Some? && stat.reward.value > 0 &&
                          (mode.dryRun || stat.reward.value >= mode.dustThreshold) then
                         [(stat.account, stat.reward.value)]
                       else []
  {
    var p := Payment(stat.account, PaidTo(stat));
    AttemptIs(g.sender, p, mode, net);
    if p.reward > 0 {
      var r := Attempt(g.sender, p, mode, net).1;
      PaidInMore(g.lines, Line(p, if r.Sent? then Some(r.tx) else None));
      assert g.lines + [] == g.lines;
    }
  }

  /** The lines of a slice pay exactly its accounts, each what it is owed, in order. */
  lemma {:induction false} LinesPayOwed(s: Sender, stats: seq<Stat>, mode: Mode, net: Network)
    requires SendList(s, PaymentsIn(stats), mode, net).ok
    ensures PaidIn(SendList(s, PaymentsIn(stats), mode, net).lines) == Owed(stats, mode)
  {
    if |stats| > 0 {
      var n := |stats| - 1;
      assert PaymentsIn(stats)[..n] == PaymentsIn(stats[..n]);
      LinesPayOwed(s, stats[..n], mode, net);
      NextOwed(SendList(s, PaymentsIn(stats[..n]), mode, net), stats[n], Owed(stats[..n], mode), mode, net);
    }
  }

  /** The output file of each exchange pays exactly the accounts of its slice, each its own reward, in order. */
  predicate PaysOwners(outputs: seq<seq<Line>>, groups: seq<seq<Stat>>, mode: Mode)
  {
    |outputs| == |groups| && forall g :: 0 <= g < |groups| ==> PaidIn(outputs[g]) == Owed(groups[g], mode)
  }

  lemma OneMoreOutput(outputs: seq<seq<Line>>, lines: seq<Line>, groups: seq<seq<Stat>>, mode: Mode)
    requires |groups| > 0 && PaysOwners(outputs, groups[..|groups| - 1], mode)
    requires PaidIn(lines) == Owed(groups[|groups| - 1], mode)
    ensures PaysOwners(outputs + [lines], groups, mode)
  {
    forall g | 0 <= g < |groups| - 1
      ensures PaidIn((outputs + [lines])[g]) == Owed(groups[g], mode)
    {
      assert groups[..|groups| - 1][g] == groups[g];
    }
  }

  /** Who is paid in a dispatch without a failure: everyone what its slice owes it, and nobody else. */
  lemma {:induction false} DispatchPaysOwners(s: Sender, groups: seq<seq<Stat>>, opens: seq<bool>, saveDB: bool,
                                              mode: Mode, net: Network)
    requires |opens| == |groups| && SendExchanges(s, groups, opens, saveDB, mode, net).ok
    ensures PaysOwners(SendExchanges(s, groups, opens, saveDB, mode, net).outputs, groups, mode)
  {
    if |groups| > 0 {
      var n := |groups| - 1;
      var before := SendExchanges(s, groups[..n], opens[..n], saveDB, mode, net);
      DispatchPaysOwners(s, groups[..n], opens[..n], saveDB, mode, net);
      LinesPayOwed(before.sender, groups[n], mode, net);
      OneMoreOutput(before.outputs, SendList(before.sender, PaymentsIn(groups[n]), mode, net).lines, groups, mode);
    }
  }

  /** Outside a dry run the output files together list exactly the broadcasts, in order, failed or not. */
  lemma {:induction false} DispatchListsBroadcasts(s: Sender, groups: seq<seq<Stat>>, opens: seq<bool>, saveDB: bool,
                                                   mode: Mode, net: Network)
    requires |opens| == |groups| && !mode.dryRun
    ensures
      var d := SendExchanges(s, groups, opens, saveDB, mode, net);
      && s.broadcasts <= d.sender.broadcasts
      && AllLines(d.outputs) == LinesFor(d.sender.broadcasts[|s.broadcasts|..])
  {
    if |groups| == 0 {
      assert s.broadcasts[|s.broadcasts|..] == [];
    } else {
      var n := |groups| - 1;
      var before := SendExchanges(s, groups[..n], opens[..n], saveDB, mode, net);
      DispatchListsBroadcasts(s, groups[..n], opens[..n], saveDB, mode, net);
      if before.ok && opens[n] {
        ListAppends(s.broadcasts, before.sender, PaymentsIn(groups[n]), mode, net);
        AppendInit(before.outputs, SendList(before.sender, PaymentsIn(groups[n]), mode, net).lines);
      }
    }
  }

  lemma ListAppends(start: seq<Broadcast>, s: Sender, ps: seq<Payment>, mode: Mode, net: Network)
    requires !mode.dryRun && start <= s.broadcasts
    ensures
      var g := SendList(s, ps, mode, net);
      && start <= g.sender.broadcasts
      && LinesFor(g.sender.broadcasts[|start|..]) == LinesFor(s.broadcasts[|start|..]) + g.lines
  {
    LinesMatchBroadcasts(s, ps, mode, net);
    AppendLines(start, s.broadcasts, SendList(s, ps, mode, net).sender.broadcasts);
  }

  /** Which record an exchange gives rise to. */
  predicate Names(info: DistributeInfo, groups: seq<seq<Stat>>, saveDB: bool)
  {
    saveDB && info.exchange < |groups| && info.rewards > 0 && info.rewards == Sum(Paid(groups[info.exchange]))
  }

  lemma OneMoreRecord(d: Sendings, groups: seq<seq<Stat>>, saveDB: bool, mode: Mode, net: Network,
                      info: DistributeInfo)
    requires |groups| > 0 && d.ok && |d.sended| == |groups| - 1 && Payable(groups[|groups| - 1])
    requires info in d.records <==> Names(info, groups[..|groups| - 1], saveDB)
    requires SendExchange(d, groups[|groups| - 1], true, saveDB, mode, net).ok
    ensures info in SendExchange(d, groups[|groups| - 1], true, saveDB, mode, net).records <==>
            Names(info, groups, saveDB)
  {
    var n := |groups| - 1;
    SliceSent(d.sender, groups[n], mode, net);
    assert info.exchange < n ==> groups[..n][info.exchange] == groups[info.exchange];
  }

  /** Records are saved exactly for the exchanges whose accounts were sent something, with that sum. */
  lemma {:induction false} RecordsName(s: Sender, groups: seq<seq<Stat>>, opens: seq<bool>, saveDB: bool, mode: Mode,
                                       net: Network, info: DistributeInfo)
    requires |opens| == |groups| && SendExchanges(s, groups, opens, saveDB, mode, net).ok
    requires forall g :: 0 <= g < |groups| ==> Payable(groups[g])
    ensures |SendExchanges(s, groups, opens, saveDB, mode, net).sended| == |groups|
    ensures info in SendExchanges(s, groups, opens, saveDB, mode, net).records <==> Names(info, groups, saveDB)
  {
    if |groups| > 0 {
      var n := |groups| - 1;
      RecordsName(s, groups[..n], opens[..n], saveDB, mode, net, info);
      OneMoreRecord(SendExchanges(s, groups[..n], opens[..n], saveDB, mode, net), groups, saveDB, mode, net, info);
    }
  }

  /** A dry run fails only on an output file. */
  lemma {:induction false} DryDispatchSucceeds(s: Sender, groups: seq<seq<Stat>>, opens: seq<bool>, saveDB: bool,
                                               mode: Mode, net: Network)
    requires |opens| == |groups| && mode.dryRun
    ensures SendExchanges(s, groups, opens, saveDB, mode, net).ok <==> forall g :: 0 <= g < |opens| ==> opens[g]
    ensures SendExchanges(s, groups, opens, saveDB, mode, net).sender == s
  {
    if |groups| > 0 {
      var n := |groups| - 1;
      DryDispatchSucceeds(s, groups[..n], opens[..n], saveDB, mode, net);
      DryRunIsPure(s, PaymentsIn(groups[n]), mode, net);
      assert forall g :: 0 <= g < n ==> opens[..n][g] == opens[g];
    }
  }

  // ----- the volume path -----

  lemma RewardedPayable(stats: seq<Stat>, part: int)
    requires SliceRewarded(stats)
    ensures Payable(Rewarded(stats, part))
  {
    if |stats| > 0 && part > 0 && |Divided(part, Basis(stats))| == |stats| {
      forall i | 0 <= i < |stats|
        ensures PaidTo(Rewarded(stats, part)[i]) >= 0
      {
        DividedSigns(part, Basis(stats), i);
      }
    }
  }

  /** The division changes rewards only: each account keeps its place, share and number. */
  lemma DivisionKeepsOwners(groups: seq<seq<Stat>>, total: int, setting: Setting, g: nat, i: nat)
    requires |setting.balances| == |groups| && setting.cycleLen > 0
    requires VolumeDispatch(groups, total, setting).Some? && g < |groups| && i < |groups[g]|
    ensures
      var after := VolumeDispatch(groups, total, setting).value;
      && |after| == |groups| && |after[g]| == |groups[g]|
      && after[g][i].account == groups[g][i].account && after[g][i].share == groups[g][i].share
      && after[g][i].number == groups[g][i].number
  {
    RewardedKeepsRest(groups[g], VolumeParts(groups, total, setting)[g], i);
  }

  /** What is sent in all after `ByVolume` has divided the budget: nothing when nothing is dispatched. */
  function SentBy(s: Sender, dispatched: Option<seq<seq<Stat>>>, opens: seq<bool>, saveDB: bool, mode: Mode,
                  net: Network): Sendings
    requires dispatched.Some? ==> |opens| == |dispatched.value|
  {
    if dispatched.None? then Sendings(s, [], [], [], true)
    else SendExchanges(s, dispatched.value, opens, saveDB, mode, net)
  }

  /** `ByVolume` in by-exchange mode, from the store and the input files to the output files. `slices` are the
      statistics it collects. */
  method RunByVolume(opt: VolumeOption, payer: Payer, sources: seq<Source>, setting: Setting, opens: seq<bool>,
                     saveDB: bool, net: Network)
    returns (sended: seq<int>, outputs: seq<seq<Line>>, records: seq<DistributeInfo>, ok: bool,
             ghost slices: seq<seq<Stat>>)
    requires forall e :: 0 <= e < |sources| ==> ValidInput(sources[e])
    requires opt.StepsChecked() && opt.Seen() == UpdatedAll([])
    requires |setting.balances| == |sources| == |opens| && setting.cycleLen > 0
    modifies opt, payer
    ensures !Collects(opt.totalValue, sources) ==> !ok && sended == [] && payer.State() == old(payer.State())
    ensures Collects(opt.totalValue, sources) ==>
              && |slices| == |sources| && opt.AreSlices(slices, sources)
              && opt.noVolumes ==
                 if opt.stepCount == 0 then 0 else |UpdatedAll(opt.EmptyListsOf(StoredOf(sources))).starts|
    ensures Collects(opt.totalValue, sources) ==>
              var total := Adjusted(opt.totalValue, opt.stepReward, opt.noVolumes);
              Sendings(payer.State(), sended, outputs, records, ok) ==
              SentBy(old(payer.State()), VolumeDispatch(slices, total, setting), opens, saveDB, payer.mode, net)
  {
    sended, outputs, records, ok, slices := [], [], [], false, [];
    if opt.totalValue <= 0 {
      return;
    }
    var accountStats, collected := opt.GetAccountsAndRewards(sources);
    if !collected {
      return;
    }
    slices := GroupViews(accountStats);
    AllUniform(opt, slices, sources);
    sended, outputs, records, ok := DivideAndDispatch(payer, accountStats, opt.totalValue, opt.stepReward,
                                                      opt.noVolumes, setting, opens, saveDB, net);
  }

  /** The part of it that follows the collection of the statistics. */
  method DivideAndDispatch(payer: Payer, accountStats: seq<seq<AccountStat>>, totalValue: int, stepReward: int,
                           noVolumes: nat, setting: Setting, opens: seq<bool>, saveDB: bool, net: Network)
    returns (sended: seq<int>, outputs: seq<seq<Line>>, records: seq<DistributeInfo>, ok: bool)
    requires |setting.balances| == |accountStats| == |opens| && setting.cycleLen > 0
    requires Separate(accountStats)
    requires forall i :: 0 <= i < |accountStats| ==> Uniform(Views(accountStats[i]))
    modifies payer, Objects(accountStats)
    ensures
      var total := Adjusted(totalValue, stepReward, noVolumes);
      Sendings(payer.State(), sended, outputs, records, ok) ==
      SentBy(old(payer.State()), VolumeDispatch(old(GroupViews(accountStats)), total, setting), opens, saveDB,
             payer.mode, net)
  {
    sended, outputs, records, ok := [], [], [], true;
    var dispatched := DispatchVolume(accountStats, totalValue, stepReward, noVolumes, setting);
    if dispatched {
      sended, outputs, records, ok := DispatchRewards(payer, accountStats, opens, saveDB, net);
    }
  }

  /** There is a budget and every input file can be read. */
  predicate Collects(totalValue: int, sources: seq<Source>)
  {
    totalValue > 0 && forall e :: 0 <= e < |sources| ==> CanRead(sources[e])
  }

  lemma AllUniform(opt: VolumeOption, slices: seq<seq<Stat>>, sources: seq<Source>)
    requires opt.StepsChecked() && |slices| == |sources| && opt.AreSlices(slices, sources)
    requires forall e :: 0 <= e < |sources| ==> ValidInput(sources[e])
    ensures forall e :: 0 <= e < |slices| ==> Uniform(slices[e])
  {
    forall e | 0 <= e < |slices|
      ensures Uniform(slices[e])
    {
      opt.EachSlice(slices, sources, e);
      if sources[e].FromStore? {
        opt.ExchangeSliceUniform(slices[e], sources[e].volumes);
      }
    }
  }

  /** Without a failure, what is sent is the payout, for every budget and setting. */
  lemma PayoutIsSent(s: Sender, groups: seq<seq<Stat>>, total: int, setting: Setting, opens: seq<bool>, saveDB: bool,
                     mode: Mode, net: Network)
    requires |setting.balances| == |groups| == |opens| && setting.cycleLen > 0 && StepRewarded(groups)
    requires SentBy(s, VolumeDispatch(groups, total, setting), opens, saveDB, mode, net).ok
    ensures
      var d := SentBy(s, VolumeDispatch(groups, total, setting), opens, saveDB, mode, net);
      && Sum(d.sended) == Payout(VolumeDispatch(groups, total, setting))
      && Sum(Recorded(d.records)) == if saveDB then Sum(d.sended) else 0
  {
    var after := VolumeDispatch(groups, total, setting);
    if after.Some? {
      forall g | 0 <= g < |groups|
        ensures Payable(after.value[g])
      {
        RewardedPayable(groups[g], VolumeParts(groups, total, setting)[g]);
      }
      DispatchSends(s, after.value, opens, saveDB, mode, net);
    }
  }

  /** The runner's volume path, which always dispatches in dry mode, from stored windows to what the output files list:
      with output files that open, one step reward for each step with volume is sent, except units of exchanges without
      traders, exactly when no step has volume, or the parts can be formed and every exchange with traders is assigned
      something. */
  lemma RunnerSendsBusySteps(opt: VolumeOption, exchanges: seq<VolumeSource>, slices: seq<seq<Stat>>, setting: Setting,
                             s: Sender, opens: seq<bool>, saveDB: bool, mode: Mode, net: Network)
    requires opt.StepsChecked() && opt.stepCount > 0 && opt.stepReward > 0
    requires opt.totalValue == opt.stepReward * opt.Steps()
    requires |exchanges| == |slices| == |setting.balances| == |opens| > 0 && setting.cycleLen > 0
    requires forall e :: 0 <= e < |exchanges| ==> ValidSource(exchanges[e])
    requires opt.AreExchangeSlices(slices, exchanges)
    requires mode.dryRun && forall g :: 0 <= g < |opens| ==> opens[g]
    ensures
      var busy := BusyCount(opt, exchanges);
      var total := opt.stepReward * busy;
      var d := SentBy(s, VolumeDispatch(slices, total, setting), opens, saveDB, mode, net);
      && d.ok && d.sender == s
      && (Sum(d.sended) == total - UnclaimedUnits(slices, total, setting) <==>
          busy == 0 || (PartsForm(slices, setting) && AllAssigned(slices, total, setting)))
  {
    var total := opt.stepReward * BusyCount(opt, exchanges);
    var after := VolumeDispatch(slices, total, setting);
    if after.Some? {
      DryDispatchSucceeds(s, after.value, opens, saveDB, mode, net);
    }
    VolumePathPaysBusySteps(opt, exchanges, slices, setting);
    opt.StepsCoverRange();
    MulDivBack(opt.stepReward, opt.Steps());
    SlicesStepRewarded(opt, exchanges, slices);
    PayoutIsSent(s, slices, total, setting, opens, saveDB, mode, net);
  }
}
