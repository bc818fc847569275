/** A payout run: nonces, dust, output lines and totals (distributer/sendtx.go, distributer/dispatchrewards.go).

    Signing and sending are requests that succeed or fail; a transaction is identified by what was broadcast. */
module SendRun {
  import opened Wrappers
  import opened Seqs
  import opened Sums

  datatype Payment = Payment(account: nat, reward: int)

  /** What the outside answers to one attempt to send: the pending nonce if it could be read, and whether signing and
      sending succeeded. */
  datatype Reply = Reply(pending: Option<nat>, signed: bool, accepted: bool)

  /** The outside, by number of attempts made so far. */
  type Network = nat -> Reply

  datatype Broadcast = Broadcast(nonce: nat, payment: Payment)

  datatype Line = Line(payment: Payment, tx: Option<Broadcast>)

  datatype Mode = Mode(dryRun: bool, dustThreshold: int)

  datatype Result = Dust | Dry | Sent(tx: Broadcast) | Failed

  /** The sender: its next nonce, what it has broadcast, how often it has tried. */
  datatype Sender = Sender(nonce: nat, broadcasts: seq<Broadcast>, attempts: nat)

  /** `sendRewardsTransaction`. */
  function Attempt(s: Sender, p: Payment, mode: Mode, net: Network): (Sender, Result)
  {
    if p.reward < mode.dustThreshold then (s, Dust)
    else if mode.dryRun then (s, Dry)
    else
      var reply := net(s.attempts);
      var nonce := if reply.pending.Some? && reply.pending.value > s.nonce then reply.pending.value else s.nonce;
      if !reply.signed || !reply.accepted then (Sender(nonce, s.broadcasts, s.attempts + 1), Failed)
      else
        var tx := Broadcast(nonce, p);
        (Sender(nonce + 1, s.broadcasts + [tx], s.attempts + 1), Sent(tx))
  }

  /** One list sent so far: the sender, the rewards counted as sent, the dust among them, the lines written, and whether
      no transaction failed. */
  datatype Progress = Progress(sender: Sender, sended: int, dust: int, lines: seq<Line>, ok: bool)

  function Next(g: Progress, p: Payment, mode: Mode, net: Network): Progress
  {
    if !g.ok || p.reward <= 0 then g
    else
      var (s, r) := Attempt(g.sender, p, mode, net);
      match r
      case Failed => g.(sender := s, ok := false)
      case Sent(tx) => g.(sender := s, sended := g.sended + p.reward, lines := g.lines + [Line(p, Some(tx))])
      case Dry => g.(sender := s, sended := g.sended + p.reward, lines := g.lines + [Line(p, None)])
      case Dust =>
        g.(sender := s, sended := g.sended + p.reward, dust := g.dust + p.reward,
           lines := g.lines + if mode.dryRun then [Line(p, None)] else [])
  }

  function SendList(s: Sender, ps: seq<Payment>, mode: Mode, net: Network): Progress
  {
    if |ps| == 0 then Progress(s, 0, 0, [], true)
    else Next(SendList(s, ps[..|ps| - 1], mode, net), ps[|ps| - 1], mode, net)
  }

  datatype Scaling = Scaling(numerator: Option<int>, denominator: Option<int>)

  function Scaled(p: Payment, sc: Scaling): Payment
    requires sc.denominator != Some(0)
  {
    if sc.numerator.None? then p
    else
      var product := p.reward * sc.numerator.value;
      p.(reward := if sc.denominator.Some? then product / sc.denominator.value else product)
  }

  function ScaledAll(ps: seq<Payment>, sc: Scaling): (r: seq<Payment>)
    requires sc.denominator != Some(0)
    ensures |r| == |ps|
  {
    seq(|ps|, i requires 0 <= i < |ps| => Scaled(ps[i], sc))
  }

  function Amounts(ps: seq<Payment>): (r: seq<int>)
    ensures |r| == |ps|
  {
    seq(|ps|, i requires 0 <= i < |ps| => ps[i].reward)
  }

  /** An input file: unreadable, or a list of payments, with the sender's balance at the time it is checked and whether
      its output file can be opened. */
  datatype InputFile = Unreadable | Readable(payments: seq<Payment>, balance: nat, opens: bool)

  /** The run over some files: the sender, the total value last computed, the lines of each file, what was sent in all,
      whether it is still going. */
  datatype Run = Run(sender: Sender, totalValue: Option<int>, outputs: seq<seq<Line>>, sended: int, ok: bool)

  function SendFile(r: Run, f: InputFile, sc: Scaling, mode: Mode, net: Network): Run
    requires sc.denominator != Some(0)
  {
    if !r.ok then r
    else if f.Unreadable? then r.(ok := false)
    else
      var ps := ScaledAll(f.payments, sc);
      var total := if |ps| == 0 then r.totalValue else Some(Sum(Amounts(ps)));
      if |ps| > 0 && !mode.dryRun && f.balance < Sum(Amounts(ps)) then r.(totalValue := total, ok := false)
      else if !f.opens then r.(totalValue := total, ok := false)
      else
        var g := SendList(r.sender, ps, mode, net);
        Run(g.sender, total, r.outputs + [g.lines], r.sended + g.sended, g.ok)
  }

  function SendFiles(s: Sender, fs: seq<InputFile>, sc: Scaling, mode: Mode, net: Network): Run
    requires sc.denominator != Some(0)
  {
    if |fs| == 0 then Run(s, None, [], 0, true)
    else SendFile(SendFiles(s, fs[..|fs| - 1], sc, mode, net), fs[|fs| - 1], sc, mode, net)
  }

  class Payer {
    const mode: Mode
    const scaling: Scaling
    var nonce: nat
    var broadcasts: seq<Broadcast>
    var attempts: nat
    var totalValue: Option<int>

    constructor (mode: Mode, scaling: Scaling, nonce: nat)
      ensures this.mode == mode && this.scaling == scaling
      ensures State() == Sender(nonce, [], 0) && totalValue == None
    {
      this.mode, this.scaling, this.nonce := mode, scaling, nonce;
      broadcasts, attempts, totalValue := [], 0, None;
    }

    function State(): Sender
      reads this
    {
      Sender(nonce, broadcasts, attempts)
    }

    method SendRewardsTransaction(p: Payment, net: Network) returns (r: Result)
      modifies this
      ensures (State(), r) == Attempt(old(State()), p, mode, net) && totalValue == old(totalValue)
    {
      if p.reward < mode.dustThreshold {
        return Dust;
      }
      if mode.dryRun {
        return Dry;
      }
      var reply := net(attempts);
      attempts := attempts + 1;
      if reply.pending.Some? && reply.pending.value > nonce {
        nonce := reply.pending.value;
      }
      if !reply.signed {
        return Failed;
      }
      if !reply.accepted {
        return Failed;
      }
      var tx := Broadcast(nonce, p);
      broadcasts := broadcasts + [tx];
      nonce := nonce + 1;
      r := Sent(tx);
    }

    /** The loop shared by `sendRewardsFromFile` and `sendRewards`. */
    method SendPayments(ps: seq<Payment>, net: Network)
      returns (rewardsSended: int, totalDust: int, lines: seq<Line>, ok: bool)
      modifies this
      ensures Progress(State(), rewardsSended, totalDust, lines, ok) == SendList(old(State()), ps, mode, net)
      ensures totalValue == old(totalValue)
    {
      rewardsSended, totalDust, lines, ok := 0, 0, [], true;
      ghost var s0 := State();
      for i := 0 to |ps|
        invariant ok && Progress(State(), rewardsSended, totalDust, lines, ok) == SendList(s0, ps[..i], mode, net)
        invariant totalValue == old(totalValue)
      {
        assert ps[..i + 1][..i] == ps[..i];
        var p := ps[i];
        if p.reward <= 0 {
          continue;
        }
        var r := SendRewardsTransaction(p, net);
        if r.Failed? {
          FailureLasts(s0, ps, i + 1, mode, net);
          ok := false;
          return;
        }
        if r.Dust? {
          totalDust := totalDust + p.reward;
        }
        rewardsSended := rewardsSended + p.reward;
        if mode.dryRun || r.Sent? {
          lines := lines + [Line(p, if r.Sent? then Some(r.tx) else None)];
        }
      }
      assert ps[..|ps|] == ps;
    }

    /** `SendRewardsFromFile`: nothing happens unless there is one input and one output file for each exchange, or for
        each other when no exchange is named. */
    method SendRewardsFromFiles(exchangeCount: nat, outputCount: nat, fs: seq<InputFile>, net: Network)
      returns (outputs: seq<seq<Line>>, sended: int, ok: bool)
      requires scaling.denominator != Some(0) && totalValue == None
      modifies this
      ensures Run(State(), totalValue, outputs, sended, ok) ==
              if |fs| == outputCount && (exchangeCount == 0 || |fs| == exchangeCount) then
                SendFiles(old(State()), fs, scaling, mode, net)
              else Run(old(State()), None, [], 0, false)
    {
      if exchangeCount != 0 {
        if |fs| != exchangeCount {
          return [], 0, false;
        }
        if outputCount != exchangeCount {
          return [], 0, false;
        }
      } else if |fs| != outputCount {
        return [], 0, false;
      }
      outputs, sended, ok := SendInTurn(fs, net);
    }

    /** File after file, up to the first failure. */
    method SendInTurn(fs: seq<InputFile>, net: Network) returns (outputs: seq<seq<Line>>, sended: int, ok: bool)
      requires scaling.denominator != Some(0) && totalValue == None
      modifies this
      ensures Run(State(), totalValue, outputs, sended, ok) == SendFiles(old(State()), fs, scaling, mode, net)
    {
      outputs, sended, ok := [], 0, true;
      ghost var s0 := State();
      for i := 0 to |fs|
        invariant Run(State(), totalValue, outputs, sended, ok) == SendFiles(s0, fs[..i], scaling, mode, net)
      {
        assert fs[..i + 1][..i] == fs[..i];
        if !ok {
          continue;
        }
        if fs[i].Unreadable? {
          ok := false;
          continue;
        }
        var ps := ScaledAll(fs[i].payments, scaling);
        if |ps| > 0 {
          var total := AddUpRewards(ps);
          totalValue := Some(total);
          if !mode.dryRun && fs[i].balance < total {
            ok := false;
            continue;
          }
        }
        if !fs[i].opens {
          ok := false;
          continue;
        }
        var rewardsSended, _, lines, fileOk := SendPayments(ps, net);
        outputs, sended, ok := outputs + [lines], sended + rewardsSended, fileOk;
      }
      assert fs[..|fs|] == fs;
    }
  }

  /** `CalcTotalReward`. */
  method AddUpRewards(ps: seq<Payment>) returns (sum: int)
    ensures sum == Sum(Amounts(ps))
  {
    sum := 0;
    for i := 0 to |ps|
      invariant sum == Sum(Amounts(ps)[..i])
    {
      assert Amounts(ps)[..i + 1] == Amounts(ps)[..i] + [ps[i].reward];
      SumAppend(Amounts(ps)[..i], ps[i].reward);
      sum := sum + ps[i].reward;
    }
    assert Amounts(ps)[..|ps|] == Amounts(ps);
  }

  /** After a failed transaction nothing more is sent. */
  lemma {:induction false} FailureLasts(s: Sender, ps: seq<Payment>, i: nat, mode: Mode, net: Network)
    requires i <= |ps| && !SendList(s, ps[..i], mode, net).ok
    ensures SendList(s, ps, mode, net) == SendList(s, ps[..i], mode, net)
  {
    if i == |ps| {
      assert ps[..i] == ps;
    } else {
      assert ps[..|ps| - 1][..i] == ps[..i];
      FailureLasts(s, ps[..|ps| - 1], i, mode, net);
    }
  }

  // ----- single steps -----

  /** `n` is the larger of the count and the pending nonce, if that is known. */
  predicate IsLarger(n: nat, count: nat, pending: Option<nat>)
  {
    n >= count && (pending.Some? ==> n >= pending.value) && (n == count || pending == Some(n))
  }

  /** The outcome of an attempt: dust exactly below the threshold; otherwise, outside a dry run, one request, failed
      exactly when it is not signed or not accepted. A transaction carries the larger of the sender's count and the
      pending nonce reported, and the count goes on from there. */
  lemma AttemptIs(s: Sender, p: Payment, mode: Mode, net: Network)
    ensures
      var (s', r) := Attempt(s, p, mode, net);
      var reply := net(s.attempts);
      && (r.Dust? <==> p.reward < mode.dustThreshold)
      && (r.Dry? <==> p.reward >= mode.dustThreshold && mode.dryRun)
      && (r.Dust? || r.Dry? ==> s' == s)
      && (r.Failed? <==> p.reward >= mode.dustThreshold && !mode.dryRun && !(reply.signed && reply.accepted))
      && (r.Failed? ==> s'.broadcasts == s.broadcasts && IsLarger(s'.nonce, s.nonce, reply.pending))
      && (r.Failed? || r.Sent? ==> s'.attempts == s.attempts + 1)
      && (r.Sent? ==>
            && r.tx.payment == p && s'.broadcasts == s.broadcasts + [r.tx] && s'.nonce == r.tx.nonce + 1
            && IsLarger(r.tx.nonce, s.nonce, reply.pending))
  {
  }

  /** A reward is scaled by the numerator and divided by the denominator, rounded so that the remainder is not
      negative; nothing else of the payment changes. */
  lemma ScaledIs(p: Payment, sc: Scaling)
    requires sc.denominator != Some(0)
    ensures Scaled(p, sc).account == p.account
    ensures sc.numerator.None? ==> Scaled(p, sc).reward == p.reward
    ensures sc.numerator.Some? && sc.denominator.None? ==> Scaled(p, sc).reward == p.reward * sc.numerator.value
    ensures sc.numerator.Some? && sc.denominator.Some? ==>
              var product, d := p.reward * sc.numerator.value, sc.denominator.value;
              0 <= product - d * Scaled(p, sc).reward < if d < 0 then -d else d
  {
    if sc.numerator.Some? && sc.denominator.Some? {
      EuclideanQuotient(p.reward * sc.numerator.value, sc.denominator.value);
    }
  }

  lemma EuclideanQuotient(n: int, d: int)
    requires d != 0
    ensures 0 <= n - d * (n / d) < if d < 0 then -d else d
  {
    assert n == d * (n / d) + n % d;
  }

  /** A file is sent only when it can be read, its total is covered by the balance, unless it is empty or in a dry run,
      and its output file can be opened; the total is set before the balance is looked at. */
  lemma FileIs(r: Run, f: InputFile, sc: Scaling, mode: Mode, net: Network)
    requires sc.denominator != Some(0) && r.ok
    ensures f.Unreadable? ==> SendFile(r, f, sc, mode, net) == r.(ok := false)
    ensures f.Readable? ==>
              var r', ps := SendFile(r, f, sc, mode, net), ScaledAll(f.payments, sc);
              && (|ps| > 0 ==> r'.totalValue == Some(Sum(Amounts(ps))))
              && (|ps| == 0 ==> r'.totalValue == r.totalValue)
              && ((|ps| > 0 && !mode.dryRun && f.balance < Sum(Amounts(ps))) || !f.opens ==>
                    !r'.ok && r'.sender == r.sender && r'.outputs == r.outputs && r'.sended == r.sended)
              && (!(|ps| > 0 && !mode.dryRun && f.balance < Sum(Amounts(ps))) && f.opens ==>
                    var g := SendList(r.sender, ps, mode, net);
                    r'.sender == g.sender && r'.outputs == r.outputs + [g.lines] && r'.sended == r.sended + g.sended &&
                    (r'.ok <==> g.ok))
  {
  }

  /** The payments a list puts to the network: positive ones that are no dust, in order. */
  function Due(ps: seq<Payment>, threshold: int): seq<Payment>
  {
    if |ps| == 0 then []
    else
      var p := ps[|ps| - 1];
      Due(ps[..|ps| - 1], threshold) + if p.reward > 0 && p.reward >= threshold then [p] else []
  }

  /** Positive payments below the threshold. */
  function DustOf(ps: seq<Payment>, threshold: int): int
  {
    if |ps| == 0 then 0
    else
      var p := ps[|ps| - 1];
      DustOf(ps[..|ps| - 1], threshold) + if 0 < p.reward < threshold then p.reward else 0
  }

  /** A list that meets no failure broadcasts exactly the payments that are due, in order, and counts the dust apart. */
  lemma {:induction false} ListSendsDue(s: Sender, ps: seq<Payment>, mode: Mode, net: Network)
    requires !mode.dryRun && SendList(s, ps, mode, net).ok
    ensures
      var g := SendList(s, ps, mode, net);
      && s.broadcasts <= g.sender.broadcasts
      && PaymentsOf(g.sender.broadcasts[|s.broadcasts|..]) == Due(ps, mode.dustThreshold)
      && g.dust == DustOf(ps, mode.dustThreshold)
  {
    if |ps| == 0 {
      assert s.broadcasts[|s.broadcasts|..] == [];
    } else {
      var n := |ps| - 1;
      var g := SendList(s, ps[..n], mode, net);
      ListSendsDue(s, ps[..n], mode, net);
      NextSendsDue(s.broadcasts, g, ps[n], mode, net);
    }
  }

  lemma NextSendsDue(start: seq<Broadcast>, g: Progress, p: Payment, mode: Mode, net: Network)
    requires !mode.dryRun && start <= g.sender.broadcasts && g.ok && Next(g, p, mode, net).ok
    ensures
      var g' := Next(g, p, mode, net);
      && start <= g'.sender.broadcasts
      && PaymentsOf(g'.sender.broadcasts[|start|..]) ==
         PaymentsOf(g.sender.broadcasts[|start|..]) +
         (if p.reward > 0 && p.reward >= mode.dustThreshold then [p] else [])
      && g'.dust == g.dust + if 0 < p.reward < mode.dustThreshold then p.reward else 0
  {
    if p.reward > 0 && p.reward >= mode.dustThreshold {
      var tx := Attempt(g.sender, p, mode, net).1.tx;
      assert (g.sender.broadcasts + [tx])[|start|..] == g.sender.broadcasts[|start|..] + [tx];
    }
  }

  // ----- nonces -----

  /** Broadcast nonces strictly increase and lie below the next nonce. */
  predicate NoncesIncrease(s: Sender)
  {
    && (forall i, j :: 0 <= i < j < |s.broadcasts| ==> s.broadcasts[i].nonce < s.broadcasts[j].nonce)
    && forall i :: 0 <= i < |s.broadcasts| ==> s.broadcasts[i].nonce < s.nonce
  }

  lemma NextNonces(g: Progress, p: Payment, mode: Mode, net: Network)
    requires NoncesIncrease(g.sender)
    ensures
      var s := Next(g, p, mode, net).sender;
      NoncesIncrease(s) && g.sender.broadcasts <= s.broadcasts && g.sender.nonce <= s.nonce
  {
  }

  lemma {:induction false} ListNonces(s: Sender, ps: seq<Payment>, mode: Mode, net: Network)
    requires NoncesIncrease(s)
    ensures NoncesIncrease(SendList(s, ps, mode, net).sender)
    ensures s.broadcasts <= SendList(s, ps, mode, net).sender.broadcasts
    ensures s.nonce <= SendList(s, ps, mode, net).sender.nonce
  {
    if |ps| > 0 {
      ListNonces(s, ps[..|ps| - 1], mode, net);
      NextNonces(SendList(s, ps[..|ps| - 1], mode, net), ps[|ps| - 1], mode, net);
    }
  }

  /** The count the sender has when it makes its `j`-th broadcast since `s`. */
  function CountAt(s: Sender, broadcasts: seq<Broadcast>, j: nat): nat
    requires |s.broadcasts| <= j <= |broadcasts|
  {
    if j == |s.broadcasts| then s.nonce else broadcasts[j - 1].nonce + 1
  }

  /** The `j`-th broadcast carries the larger of two numbers: the one after the broadcast before, or the sender's first,
      and the pending nonce reported at that attempt. */
  ghost predicate NumberedAt(s: Sender, broadcasts: seq<Broadcast>, j: nat, net: Network)
    requires |s.broadcasts| <= j < |broadcasts|
  {
    IsLarger(broadcasts[j].nonce, CountAt(s, broadcasts, j), net(s.attempts + j - |s.broadcasts|).pending)
  }

  /** All broadcasts since `s` are numbered so. */
  ghost predicate Numbered(s: Sender, broadcasts: seq<Broadcast>, net: Network)
  {
    s.broadcasts <= broadcasts &&
    forall j :: |s.broadcasts| <= j < |broadcasts| ==> NumberedAt(s, broadcasts, j, net)
  }

  lemma NumberedStays(s: Sender, broadcasts: seq<Broadcast>, tx: Broadcast, j: nat, net: Network)
    requires |s.broadcasts| <= j < |broadcasts| && NumberedAt(s, broadcasts, j, net)
    ensures NumberedAt(s, broadcasts + [tx], j, net)
  {
    assert (broadcasts + [tx])[j] == broadcasts[j];
    assert j > |s.broadcasts| ==> (broadcasts + [tx])[j - 1] == broadcasts[j - 1];
  }

  /** Without a failure so far, the sender's count and number of attempts follow from its broadcasts. */
  ghost predicate UpToDate(s: Sender, s': Sender)
  {
    && s.broadcasts <= s'.broadcasts && s'.attempts == s.attempts + |s'.broadcasts| - |s.broadcasts|
    && s'.nonce == CountAt(s, s'.broadcasts, |s'.broadcasts|)
  }

  lemma NextNumbered(s: Sender, g: Progress, p: Payment, mode: Mode, net: Network)
    requires Numbered(s, g.sender.broadcasts, net) && (g.ok ==> UpToDate(s, g.sender))
    ensures
      var g' := Next(g, p, mode, net);
      Numbered(s, g'.sender.broadcasts, net) && (g'.ok ==> UpToDate(s, g'.sender))
  {
    if Asks(g, p, mode) {
      var r := Attempt(g.sender, p, mode, net).1;
      AttemptIs(g.sender, p, mode, net);
      if r.Sent? {
        OneMoreNumbered(s, g.sender.broadcasts, r.tx, net);
      }
    }
  }

  lemma OneMoreNumbered(s: Sender, broadcasts: seq<Broadcast>, tx: Broadcast, net: Network)
    requires Numbered(s, broadcasts, net)
    requires IsLarger(tx.nonce, CountAt(s, broadcasts, |broadcasts|),
                      net(s.attempts + |broadcasts| - |s.broadcasts|).pending)
    ensures Numbered(s, broadcasts + [tx], net)
    ensures CountAt(s, broadcasts + [tx], |broadcasts| + 1) == tx.nonce + 1
  {
    forall j | |s.broadcasts| <= j < |broadcasts| + 1
      ensures NumberedAt(s, broadcasts + [tx], j, net)
    {
      if j < |broadcasts| {
        NumberedStays(s, broadcasts, tx, j, net);
      } else {
        LastNumbered(s, broadcasts, tx, net);
      }
    }
  }

  lemma LastNumbered(s: Sender, broadcasts: seq<Broadcast>, tx: Broadcast, net: Network)
    requires s.broadcasts <= broadcasts
    requires IsLarger(tx.nonce, CountAt(s, broadcasts, |broadcasts|),
                      net(s.attempts + |broadcasts| - |s.broadcasts|).pending)
    ensures NumberedAt(s, broadcasts + [tx], |broadcasts|, net)
  {
    AppendInit(broadcasts, tx);
    assert |broadcasts| > |s.broadcasts| ==> (broadcasts + [tx])[|broadcasts| - 1] == broadcasts[|broadcasts| - 1];
  }

  lemma {:induction false} ListNumbered(s: Sender, g: Progress, ps: seq<Payment>, mode: Mode, net: Network)
    requires Numbered(s, g.sender.broadcasts, net) && UpToDate(s, g.sender)
    ensures
      var g' := SendList(g.sender, ps, mode, net);
      Numbered(s, g'.sender.broadcasts, net) && (g'.ok ==> UpToDate(s, g'.sender))
  {
    if |ps| > 0 {
      var n := |ps| - 1;
      ListNumbered(s, g, ps[..n], mode, net);
      NextNumbered(s, SendList(g.sender, ps[..n], mode, net), ps[n], mode, net);
    }
  }

  /** Over a whole run, whatever is reported, every broadcast is numbered by the larger of the sender's count at that
      attempt and the report. */
  lemma {:induction false} RunNumbered(s: Sender, fs: seq<InputFile>, sc: Scaling, mode: Mode, net: Network)
    requires sc.denominator != Some(0)
    ensures
      var r := SendFiles(s, fs, sc, mode, net);
      Numbered(s, r.sender.broadcasts, net) && (r.ok ==> UpToDate(s, r.sender))
  {
    if |fs| > 0 {
      var n := |fs| - 1;
      RunNumbered(s, fs[..n], sc, mode, net);
      FileNumbered(s, SendFiles(s, fs[..n], sc, mode, net), fs[n], sc, mode, net);
    }
  }

  lemma FileNumbered(s: Sender, r: Run, f: InputFile, sc: Scaling, mode: Mode, net: Network)
    requires sc.denominator != Some(0)
    requires Numbered(s, r.sender.broadcasts, net) && (r.ok ==> UpToDate(s, r.sender))
    ensures
      var r' := SendFile(r, f, sc, mode, net);
      Numbered(s, r'.sender.broadcasts, net) && (r'.ok ==> UpToDate(s, r'.sender))
  {
    if Sends(r, f, sc, mode) {
      ListNumbered(s, Progress(r.sender, 0, 0, [], true), ScaledAll(f.payments, sc), mode, net);
    }
  }

  /** The payment is put to the network. */
  predicate Asks(g: Progress, p: Payment, mode: Mode)
  {
    g.ok && p.reward > 0 && p.reward >= mode.dustThreshold && !mode.dryRun
  }

  /** The reply to this attempt is ahead of the sender's own count at this moment. */
  predicate SeesAhead(g: Progress, p: Payment, mode: Mode, net: Network)
  {
    var pending := net(g.sender.attempts).pending;
    Asks(g, p, mode) && pending.Some? && pending.value > g.sender.nonce
  }

  /** No attempt of the list sees a report ahead of the sender's count at that attempt. */
  ghost predicate NeverAhead(s: Sender, ps: seq<Payment>, mode: Mode, net: Network)
  {
    forall i :: 0 <= i < |ps| ==> !SeesAhead(SendList(s, ps[..i], mode, net), ps[i], mode, net)
  }

  /** Nonces that were used for no broadcast, from a fixed origin on. */
  function Unused(s: Sender): int
  {
    s.nonce - |s.broadcasts|
  }

  lemma NextUnused(g: Progress, p: Payment, mode: Mode, net: Network)
    ensures Unused(Next(g, p, mode, net).sender) >= Unused(g.sender)
    ensures Unused(Next(g, p, mode, net).sender) == Unused(g.sender) <==> !SeesAhead(g, p, mode, net)
  {
  }

  lemma NeverAheadInit(s: Sender, ps: seq<Payment>, mode: Mode, net: Network)
    requires |ps| > 0
    ensures
      var n := |ps| - 1;
      NeverAhead(s, ps, mode, net) <==>
      NeverAhead(s, ps[..n], mode, net) && !SeesAhead(SendList(s, ps[..n], mode, net), ps[n], mode, net)
  {
    var n := |ps| - 1;
    forall i | 0 <= i < n
      ensures ps[..n][..i] == ps[..i] && ps[..n][i] == ps[i]
    {
      TakeTake(ps, n, i);
    }
  }

  lemma {:induction false} ListUnused(s: Sender, ps: seq<Payment>, mode: Mode, net: Network)
    ensures Unused(SendList(s, ps, mode, net).sender) >= Unused(s)
    ensures Unused(SendList(s, ps, mode, net).sender) == Unused(s) <==> NeverAhead(s, ps, mode, net)
  {
    if |ps| > 0 {
      var n := |ps| - 1;
      ListUnused(s, ps[..n], mode, net);
      NextUnused(SendList(s, ps[..n], mode, net), ps[n], mode, net);
      NeverAheadInit(s, ps, mode, net);
    }
  }

  /** The broadcasts after those of `s` are numbered one by one from its next nonce on, and the next nonce follows. */
  ghost predicate Consecutive(s: Sender, s': Sender)
  {
    && s.broadcasts <= s'.broadcasts && Unused(s') == Unused(s)
    && forall i :: |s.broadcasts| <= i < |s'.broadcasts| ==> s'.broadcasts[i].nonce == s.nonce + i - |s.broadcasts|
  }

  lemma NextConsecutive(s: Sender, g: Progress, p: Payment, mode: Mode, net: Network)
    requires Consecutive(s, g.sender) && !SeesAhead(g, p, mode, net)
    ensures Consecutive(s, Next(g, p, mode, net).sender)
  {
  }

  lemma {:induction false} ListConsecutive(s: Sender, ps: seq<Payment>, mode: Mode, net: Network)
    requires NeverAhead(s, ps, mode, net)
    ensures Consecutive(s, SendList(s, ps, mode, net).sender)
  {
    if |ps| > 0 {
      var n := |ps| - 1;
      NeverAheadInit(s, ps, mode, net);
      ListConsecutive(s, ps[..n], mode, net);
      NextConsecutive(s, SendList(s, ps[..n], mode, net), ps[n], mode, net);
    }
  }

  /** The sender leaves no gap, before its next nonce included, exactly when it never sees a report ahead of its own
      count, which grows with each broadcast; a failed transaction uses no nonce up. */
  lemma ListLeavesNoGap(s: Sender, ps: seq<Payment>, mode: Mode, net: Network)
    ensures Consecutive(s, SendList(s, ps, mode, net).sender) <==> NeverAhead(s, ps, mode, net)
  {
    ListUnused(s, ps, mode, net);
    if NeverAhead(s, ps, mode, net) {
      ListConsecutive(s, ps, mode, net);
    }
  }

  /** A node that accepts everything and counts the sender's own pending transactions. */
  function CountingNode(nonce: nat): Network
  {
    (k: nat) =>
      var pending: nat := nonce + k;
      Reply(Some(pending), true, true)
  }

  /** Such a node is never ahead: it reports one more after each broadcast, and so does the sender's count. */
  lemma {:induction false} CountingNodeNeverAhead(nonce: nat, ps: seq<Payment>, mode: Mode)
    ensures NeverAhead(Sender(nonce, [], 0), ps, mode, CountingNode(nonce))
    ensures
      var s := SendList(Sender(nonce, [], 0), ps, mode, CountingNode(nonce)).sender;
      s.nonce == nonce + s.attempts && s.attempts == |s.broadcasts|
  {
    if |ps| > 0 {
      CountingNodeNeverAhead(nonce, ps[..|ps| - 1], mode);
      NeverAheadInit(Sender(nonce, [], 0), ps, mode, CountingNode(nonce));
    }
  }

  /** The file's payments are put to the network, as far as the first failure. */
  predicate Sends(r: Run, f: InputFile, sc: Scaling, mode: Mode)
    requires sc.denominator != Some(0)
  {
    r.ok && f.Readable? && f.opens &&
    (|f.payments| == 0 || mode.dryRun || f.balance >= Sum(Amounts(ScaledAll(f.payments, sc))))
  }

  ghost predicate FileNeverAhead(r: Run, f: InputFile, sc: Scaling, mode: Mode, net: Network)
    requires sc.denominator != Some(0)
  {
    Sends(r, f, sc, mode) ==> NeverAhead(r.sender, ScaledAll(f.payments, sc), mode, net)
  }

  /** No attempt of the whole run sees a report ahead of the sender's count at that attempt. */
  ghost predicate RunNeverAhead(s: Sender, fs: seq<InputFile>, sc: Scaling, mode: Mode, net: Network)
    requires sc.denominator != Some(0)
  {
    |fs| == 0 ||
    var n := |fs| - 1;
    && RunNeverAhead(s, fs[..n], sc, mode, net)
    && FileNeverAhead(SendFiles(s, fs[..n], sc, mode, net), fs[n], sc, mode, net)
  }

  /** Sending keeps the numbering exactly when `never` holds, and otherwise leaves nonces out. */
  ghost predicate GapLaw(s: Sender, s': Sender, never: bool)
  {
    && Unused(s') >= Unused(s) && (Unused(s') == Unused(s) <==> never)
    && (never ==> Consecutive(s, s'))
  }

  lemma GapLawThrough(s: Sender, s': Sender, s'': Sender, first: bool, second: bool)
    requires GapLaw(s, s', first) && GapLaw(s', s'', second)
    ensures GapLaw(s, s'', first && second)
  {
  }

  lemma FileGapLaw(r: Run, f: InputFile, sc: Scaling, mode: Mode, net: Network)
    requires sc.denominator != Some(0)
    ensures GapLaw(r.sender, SendFile(r, f, sc, mode, net).sender, FileNeverAhead(r, f, sc, mode, net))
  {
    if Sends(r, f, sc, mode) {
      ListUnused(r.sender, ScaledAll(f.payments, sc), mode, net);
      ListLeavesNoGap(r.sender, ScaledAll(f.payments, sc), mode, net);
    }
  }

  lemma {:induction false} RunGapLaw(s: Sender, fs: seq<InputFile>, sc: Scaling, mode: Mode, net: Network)
    requires sc.denominator != Some(0)
    ensures GapLaw(s, SendFiles(s, fs, sc, mode, net).sender, RunNeverAhead(s, fs, sc, mode, net))
  {
    if |fs| > 0 {
      var n := |fs| - 1;
      var before := SendFiles(s, fs[..n], sc, mode, net);
      RunGapLaw(s, fs[..n], sc, mode, net);
      FileGapLaw(before, fs[n], sc, mode, net);
      GapLawThrough(s, before.sender, SendFiles(s, fs, sc, mode, net).sender,
                    RunNeverAhead(s, fs[..n], sc, mode, net), FileNeverAhead(before, fs[n], sc, mode, net));
    }
  }

  /** The same over all files of a run: nonces are used one by one, across files, exactly when no attempt sees a report
      ahead of the count the sender has at that attempt. */
  lemma RunLeavesNoGap(s: Sender, fs: seq<InputFile>, sc: Scaling, mode: Mode, net: Network)
    requires sc.denominator != Some(0)
    ensures Consecutive(s, SendFiles(s, fs, sc, mode, net).sender) <==> RunNeverAhead(s, fs, sc, mode, net)
  {
    RunGapLaw(s, fs, sc, mode, net);
  }

  /** Over a whole run, whatever pending nonces are reported, no nonce is broadcast twice: they strictly increase across
      all files. */
  lemma {:induction false} RunNonces(s: Sender, fs: seq<InputFile>, sc: Scaling, mode: Mode, net: Network)
    requires NoncesIncrease(s) && sc.denominator != Some(0)
    ensures NoncesIncrease(SendFiles(s, fs, sc, mode, net).sender)
    ensures s.broadcasts <= SendFiles(s, fs, sc, mode, net).sender.broadcasts
  {
    if |fs| > 0 {
      var before, f := SendFiles(s, fs[..|fs| - 1], sc, mode, net), fs[|fs| - 1];
      RunNonces(s, fs[..|fs| - 1], sc, mode, net);
      if f.Readable? {
        ListNonces(before.sender, ScaledAll(f.payments, sc), mode, net);
      }
    }
  }

  // ----- lines and totals -----

  function LinesFor(txs: seq<Broadcast>): (r: seq<Line>)
    ensures |r| == |txs|
  {
    seq(|txs|, i requires 0 <= i < |txs| => Line(txs[i].payment, Some(txs[i])))
  }

  function PaymentsOf(txs: seq<Broadcast>): (r: seq<Payment>)
    ensures |r| == |txs|
  {
    seq(|txs|, i requires 0 <= i < |txs| => txs[i].payment)
  }

  /** The lines are those of the broadcasts after `start`; what is counted as sent is their rewards plus the dust. */
  ghost predicate Matched(start: seq<Broadcast>, g: Progress)
  {
    && start <= g.sender.broadcasts
    && g.lines == LinesFor(g.sender.broadcasts[|start|..])
    && g.sended == Sum(Amounts(PaymentsOf(g.sender.broadcasts[|start|..]))) + g.dust
  }

  lemma SentMatched(start: seq<Broadcast>, g: Progress, g': Progress, tx: Broadcast)
    requires Matched(start, g)
    requires g'.sender.broadcasts == g.sender.broadcasts + [tx] && g'.dust == g.dust
    requires g'.lines == g.lines + [Line(tx.payment, Some(tx))] && g'.sended == g.sended + tx.payment.reward
    ensures Matched(start, g')
  {
    OneMoreBroadcast(start, g.sender.broadcasts, tx);
  }

  lemma NextMatched(start: seq<Broadcast>, g: Progress, p: Payment, mode: Mode, net: Network)
    requires !mode.dryRun && Matched(start, g)
    ensures Matched(start, Next(g, p, mode, net))
  {
    if g.ok && p.reward > 0 {
      var (s, r) := Attempt(g.sender, p, mode, net);
      if r.Sent? {
        SentMatched(start, g, Next(g, p, mode, net), r.tx);
      }
    }
  }

  /** Outside a dry run, each line written belongs to one broadcast and each broadcast to one line, in order, and what
      is counted as sent is what was broadcast plus the dust. */
  lemma {:induction false} LinesMatchBroadcasts(s: Sender, ps: seq<Payment>, mode: Mode, net: Network)
    requires !mode.dryRun
    ensures Matched(s.broadcasts, SendList(s, ps, mode, net))
  {
    if |ps| == 0 {
      assert s.broadcasts[|s.broadcasts|..] == [];
    } else {
      LinesMatchBroadcasts(s, ps[..|ps| - 1], mode, net);
      NextMatched(s.broadcasts, SendList(s, ps[..|ps| - 1], mode, net), ps[|ps| - 1], mode, net);
    }
  }

  lemma OneMoreBroadcast(start: seq<Broadcast>, old_: seq<Broadcast>, tx: Broadcast)
    requires start <= old_
    ensures LinesFor((old_ + [tx])[|start|..]) == LinesFor(old_[|start|..]) + [Line(tx.payment, Some(tx))]
    ensures Sum(Amounts(PaymentsOf((old_ + [tx])[|start|..]))) ==
            Sum(Amounts(PaymentsOf(old_[|start|..]))) + tx.payment.reward
  {
    var recent := old_[|start|..];
    assert (old_ + [tx])[|start|..] == recent + [tx];
    assert PaymentsOf(recent + [tx]) == PaymentsOf(recent) + [tx.payment];
    AmountsAppend(PaymentsOf(recent), tx.payment);
  }

  /** The payments that are not passed over. */
  function Positive(ps: seq<Payment>): seq<Payment>
  {
    if |ps| == 0 then []
    else Positive(ps[..|ps| - 1]) + if ps[|ps| - 1].reward > 0 then [ps[|ps| - 1]] else []
  }

  function DryLines(ps: seq<Payment>): (r: seq<Line>)
    ensures |r| == |ps|
  {
    seq(|ps|, i requires 0 <= i < |ps| => Line(ps[i], None))
  }

  /** A dry run touches neither the nonce nor the network, never fails, and writes one line for each positive payment,
      dust included. */
  lemma {:induction false} DryRunIsPure(s: Sender, ps: seq<Payment>, mode: Mode, net: Network)
    requires mode.dryRun
    ensures SendList(s, ps, mode, net).sender == s && SendList(s, ps, mode, net).ok
    ensures SendList(s, ps, mode, net).lines == DryLines(Positive(ps))
  {
    if |ps| > 0 {
      DryRunIsPure(s, ps[..|ps| - 1], mode, net);
    }
  }

  /** Without a failure, every positive payment counts as sent, as often as it is listed. */
  lemma {:induction false} SuccessSendsPositive(s: Sender, ps: seq<Payment>, mode: Mode, net: Network)
    requires SendList(s, ps, mode, net).ok
    ensures SendList(s, ps, mode, net).sended == Sum(Amounts(Positive(ps)))
  {
    if |ps| > 0 {
      var init, last := ps[..|ps| - 1], ps[|ps| - 1];
      SuccessSendsPositive(s, init, mode, net);
      AmountsAppend(Positive(init), last);
      assert Positive(init) + [] == Positive(init);
    }
  }

  predicate NoneNegative(ps: seq<Payment>)
  {
    forall i :: 0 <= i < |ps| ==> ps[i].reward >= 0
  }

  lemma AmountsAppend(ps: seq<Payment>, p: Payment)
    ensures Sum(Amounts(ps + [p])) == Sum(Amounts(ps)) + p.reward
  {
    assert Amounts(ps + [p]) == Amounts(ps) + [p.reward];
    SumAppend(Amounts(ps), p.reward);
  }

  /** The positive payments add up to the whole list's sum exactly when no payment is negative. */
  lemma {:induction false} PositivePart(ps: seq<Payment>)
    ensures Sum(Amounts(Positive(ps))) >= Sum(Amounts(ps))
    ensures Sum(Amounts(Positive(ps))) == Sum(Amounts(ps)) <==> NoneNegative(ps)
  {
    if |ps| > 0 {
      var init, last := ps[..|ps| - 1], ps[|ps| - 1];
      PositivePart(init);
      assert ps == init + [last];
      AmountsAppend(init, last);
      AmountsAppend(Positive(init), last);
      assert NoneNegative(ps) <==> NoneNegative(init) && last.reward >= 0;
      assert Positive(init) + [] == Positive(init);
    }
  }

  /** A non-empty file that is sent without a failure adds exactly its total value to what was sent, if and only if no
      scaled reward is negative. */
  lemma FileSendsTotalIff(r: Run, f: InputFile, sc: Scaling, mode: Mode, net: Network)
    requires sc.denominator != Some(0) && r.ok && f.Readable? && |f.payments| > 0
    requires SendFile(r, f, sc, mode, net).ok
    ensures SendFile(r, f, sc, mode, net).totalValue.Some?
    ensures SendFile(r, f, sc, mode, net).sended - r.sended == SendFile(r, f, sc, mode, net).totalValue.value <==>
            forall i :: 0 <= i < |f.payments| ==> Scaled(f.payments[i], sc).reward >= 0
  {
    var ps := ScaledAll(f.payments, sc);
    SuccessSendsPositive(r.sender, ps, mode, net);
    PositivePart(ps);
    assert forall i :: 0 <= i < |ps| ==> ps[i] == Scaled(f.payments[i], sc);
  }

  /** Scaling by -1, which the command accepts, breaks it: a file of one reward is sent without a failure, its total
      value is negative, and nothing is sent. */
  lemma NegativeScaling(s: Sender, mode: Mode, net: Network)
    ensures
      var f := Readable([Payment(1, 5)], 0, true);
      var r := SendFile(Run(s, None, [], 0, true), f, Scaling(Some(-1), None), mode, net);
      r.ok && r.sended == 0 && r.totalValue == Some(-5) && r.sender == s
  {
    var ps := ScaledAll([Payment(1, 5)], Scaling(Some(-1), None));
    assert ps[0] == Payment(1, -5) && ps[..0] == [];
    assert SendList(s, ps[..0], mode, net) == Progress(s, 0, 0, [], true);
    assert Amounts(ps) == [] + [-5];
    SumAppend([], -5);
  }

  /** All lines of a run, file after file. */
  function AllLines(outputs: seq<seq<Line>>): seq<Line>
  {
    if |outputs| == 0 then [] else AllLines(outputs[..|outputs| - 1]) + outputs[|outputs| - 1]
  }

  lemma FileLinesMatch(start: seq<Broadcast>, before: Run, f: InputFile, sc: Scaling, mode: Mode, net: Network)
    requires !mode.dryRun && sc.denominator != Some(0) && start <= before.sender.broadcasts
    requires AllLines(before.outputs) == LinesFor(before.sender.broadcasts[|start|..])
    ensures
      var r := SendFile(before, f, sc, mode, net);
      start <= r.sender.broadcasts && AllLines(r.outputs) == LinesFor(r.sender.broadcasts[|start|..])
  {
    if before.ok && f.Readable? && f.opens {
      var ps := ScaledAll(f.payments, sc);
      LinesMatchBroadcasts(before.sender, ps, mode, net);
      var g := SendList(before.sender, ps, mode, net);
      AppendLines(start, before.sender.broadcasts, g.sender.broadcasts);
      assert (before.outputs + [g.lines])[..|before.outputs|] == before.outputs;
    }
  }

  lemma AppendLines(a: seq<Broadcast>, b: seq<Broadcast>, c: seq<Broadcast>)
    requires a <= b <= c
    ensures LinesFor(c[|a|..]) == LinesFor(b[|a|..]) + LinesFor(c[|b|..])
  {
    assert c[|a|..] == b[|a|..] + c[|b|..];
  }

  /** Over a whole run outside dry mode, failed or not: the output files together list exactly the broadcasts, in
      order. */
  lemma {:induction false} RunLinesMatchBroadcasts(s: Sender, fs: seq<InputFile>, sc: Scaling, mode: Mode, net: Network)
    requires !mode.dryRun && sc.denominator != Some(0)
    ensures
      var r := SendFiles(s, fs, sc, mode, net);
      && s.broadcasts <= r.sender.broadcasts
      && AllLines(r.outputs) == LinesFor(r.sender.broadcasts[|s.broadcasts|..])
  {
    if |fs| > 0 {
      RunLinesMatchBroadcasts(s, fs[..|fs| - 1], sc, mode, net);
      FileLinesMatch(s.broadcasts, SendFiles(s, fs[..|fs| - 1], sc, mode, net), fs[|fs| - 1], sc, mode, net);
    }
  }
}
