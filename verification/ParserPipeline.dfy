/** The concurrent parsers as an interleaved step system (syncer/parse.go, `doSync` and `doSyncWork` in
    syncer/sync.go).

    Each worker has a feeding goroutine, a message channel, a parser goroutine and the tasks the parser spawns. One step
    is one action of one goroutine; a wait group is its counter, and `Add` and `go` are separate steps. */
module ParserPipeline {
  import opened Wrappers
  import opened Sums

  const MAX_PARSE_BLOCKS: nat := 1000
  const MESSAGE_CHAN_SIZE: nat := 100

  /** A task: not announced yet, added to the wait group but not started, running, or done. */
  datatype Phase = Idle | Reserved | Running | Finished

  /** The tasks of one received message: parse the block, list its transactions, parse each transaction. */
  datatype Job = Job(block: Phase, list: Phase, added: bool, txs: seq<Phase>)

  datatype Feed = Starting | Spawning | Feeding | SentNil | Closed | Ended

  datatype Parser = Absent | Receiving | AddBlock | GoBlock | AddList | GoList | BatchCheck | BatchWait | FinalWait |
                    DeferDone | Exited

  /** A block to parse: its height and its number of transactions. */
  datatype Message = Message(height: nat, txs: nat)

  /** The worker is to hand over the blocks of `plan`, of which it has sent the first `sent`; `jobs` has one entry for
      each message received. A nil message is `None`. */
  datatype Worker = Worker(plan: seq<Message>, feed: Feed, chan: seq<Option<Message>>, sent: nat,
                           parser: Parser, count: nat, wg2: int, jobs: seq<Job>)

  // ----- tasks -----

  function Unfinished(p: Phase): int
  {
    if p == Reserved || p == Running then 1 else 0
  }

  function UnfinishedTxs(txs: seq<Phase>): (r: seq<int>)
    ensures |r| == |txs|
  {
    seq(|txs|, t requires 0 <= t < |txs| => Unfinished(txs[t]))
  }

  /** The tasks of a job that are announced but not done. */
  function Weight(j: Job): int
  {
    Unfinished(j.block) + Unfinished(j.list) + Sum(UnfinishedTxs(j.txs))
  }

  predicate AllAre(txs: seq<Phase>, p: Phase)
  {
    forall t :: 0 <= t < |txs| ==> txs[t] == p
  }

  predicate NoneIs(txs: seq<Phase>, p: Phase)
  {
    forall t :: 0 <= t < |txs| ==> txs[t] != p
  }

  predicate JobOk(j: Job, onlySyncAccount: bool)
  {
    && (j.list == Idle || j.list == Reserved ==> !j.added)
    && (!j.added ==> AllAre(j.txs, Idle) && j.list != Finished)
    && (j.added ==> NoneIs(j.txs, Idle))
    && (j.list == Finished ==> NoneIs(j.txs, Reserved))
    && (onlySyncAccount ==> j.block == Idle)
  }

  predicate BlockLaunched(j: Job, onlySyncAccount: bool)
  {
    onlySyncAccount || j.block == Running || j.block == Finished
  }

  predicate Launched(j: Job, onlySyncAccount: bool)
  {
    BlockLaunched(j, onlySyncAccount) && (j.list == Running || j.list == Finished)
  }

  /** Everything the message asked for has been done. */
  predicate Done(j: Job, onlySyncAccount: bool)
  {
    (onlySyncAccount || j.block == Finished) && j.list == Finished && AllAre(j.txs, Finished)
  }

  /** One action of a spawned task, changing the parser's wait group by `d`. */
  predicate TaskStep(j: Job, j': Job, d: int)
  {
    || (j.block == Running && j' == j.(block := Finished) && d == -1)
    || (j.list == Running && !j.added && j' == j.(added := true, txs := seq(|j.txs|, _ => Reserved)) && d == |j.txs|)
    || (j.list == Running && j.added && d == 0 &&
        exists t :: 0 <= t < |j.txs| && j.txs[t] == Reserved && NoneIs(j.txs[..t], Reserved) &&
                    j' == j.(txs := j.txs[t := Running]))
    || (j.list == Running && j.added && NoneIs(j.txs, Reserved) && j' == j.(list := Finished) && d == -1)
    || (d == -1 && exists t :: 0 <= t < |j.txs| && j.txs[t] == Running && j' == j.(txs := j.txs[t := Finished]))
  }

  lemma {:induction false} SumUnfinished(txs: seq<Phase>, p: Phase)
    requires AllAre(txs, p)
    ensures Sum(UnfinishedTxs(txs)) == Unfinished(p) * |txs|
  {
    if |txs| > 0 {
      SumUnfinished(txs[..|txs| - 1], p);
      assert UnfinishedTxs(txs)[..|txs| - 1] == UnfinishedTxs(txs[..|txs| - 1]);
    }
  }

  lemma SetTx(txs: seq<Phase>, t: nat, p: Phase)
    requires t < |txs|
    ensures Sum(UnfinishedTxs(txs[t := p])) == Sum(UnfinishedTxs(txs)) - Unfinished(txs[t]) + Unfinished(p)
  {
    SumUpdate(UnfinishedTxs(txs), t, Unfinished(p));
    assert UnfinishedTxs(txs[t := p]) == UnfinishedTxs(txs)[t := Unfinished(p)];
  }

  lemma TaskStepWeight(j: Job, j': Job, d: int, onlySyncAccount: bool)
    requires JobOk(j, onlySyncAccount) && TaskStep(j, j', d)
    ensures |j'.txs| == |j.txs| && Weight(j') == Weight(j) + d
  {
    if j.list == Running && !j.added && j' == j.(added := true, txs := seq(|j.txs|, _ => Reserved)) && d == |j.txs| {
      SumUnfinished(j.txs, Idle);
      SumUnfinished(j'.txs, Reserved);
    } else if t :| 0 <= t < |j.txs| && j' == j.(txs := j.txs[t := Running]) && j.txs[t] == Reserved && d == 0 {
      SetTx(j.txs, t, Running);
    } else if t :| 0 <= t < |j.txs| && j' == j.(txs := j.txs[t := Finished]) && j.txs[t] == Running && d == -1 {
      SetTx(j.txs, t, Finished);
    }
  }

  /** A task step keeps the job in order and changes its weight by exactly what it adds to the wait group; a job that
      is done takes no further step. */
  lemma TaskStepKeeps(j: Job, j': Job, d: int, onlySyncAccount: bool)
    requires JobOk(j, onlySyncAccount) && TaskStep(j, j', d)
    ensures JobOk(j', onlySyncAccount) && |j'.txs| == |j.txs| && Weight(j') == Weight(j) + d
    ensures Launched(j, onlySyncAccount) ==> Launched(j', onlySyncAccount)
    ensures BlockLaunched(j, onlySyncAccount) ==> BlockLaunched(j', onlySyncAccount)
    ensures j.block == Idle || j.block == Reserved ==> j'.block == j.block
    ensures j.list == Idle || j.list == Reserved ==> j'.list == j.list
    ensures !Done(j, onlySyncAccount)
  {
    TaskStepWeight(j, j', d, onlySyncAccount);
  }

  /** A launched job without open tasks is done. */
  lemma NoWeightDone(j: Job, onlySyncAccount: bool)
    requires JobOk(j, onlySyncAccount) && Launched(j, onlySyncAccount) && Weight(j) <= 0
    ensures Done(j, onlySyncAccount)
  {
    SumNonNegative(UnfinishedTxs(j.txs));
    forall t | 0 <= t < |j.txs|
      ensures j.txs[t] == Finished
    {
      ElementAtMostSum(UnfinishedTxs(j.txs), t);
      assert UnfinishedTxs(j.txs)[t] == Unfinished(j.txs[t]);
    }
  }

  // ----- one worker -----

  function Weights(jobs: seq<Job>): (r: seq<int>)
    ensures |r| == |jobs|
  {
    seq(|jobs|, i requires 0 <= i < |jobs| => Weight(jobs[i]))
  }

  /** The feeding goroutine: the nil message follows the last block, then the channel is closed and the claim given
      back. */
  predicate FeedStep(w: Worker, w': Worker, d: int)
  {
    || (w.feed == Starting && d == 1 && w' == w.(feed := Spawning))
    || (w.feed == Spawning && d == 0 && w' == w.(feed := Feeding, parser := Receiving))
    || (w.feed == Feeding && d == 0 && |w.chan| < MESSAGE_CHAN_SIZE && w.sent < |w.plan| &&
        w' == w.(chan := w.chan + [Some(w.plan[w.sent])], sent := w.sent + 1))
    || (w.feed == Feeding && d == 0 && |w.chan| < MESSAGE_CHAN_SIZE && w.sent == |w.plan| &&
        w' == w.(feed := SentNil, chan := w.chan + [None]))
    || (w.feed == SentNil && d == 0 && w' == w.(feed := Closed))
    || (w.feed == Closed && d == -1 && w' == w.(feed := Ended))
  }

  function NewJob(n: nat): Job
  {
    Job(Idle, Idle, false, seq(n, _ => Idle))
  }

  predicate ReceiveStep(w: Worker, w': Worker, onlySyncAccount: bool)
  {
    && w.parser == Receiving && |w.chan| > 0
    && match w.chan[0]
       case None => w' == w.(chan := w.chan[1..], parser := FinalWait)
       case Some(m) => w' == w.(chan := w.chan[1..], count := w.count + 1, jobs := w.jobs + [NewJob(m.txs)],
                                parser := if onlySyncAccount then AddList else AddBlock)
  }

  predicate LaunchStep(w: Worker, w': Worker)
  {
    && |w.jobs| > 0
    && var last := |w.jobs| - 1;
       var j := w.jobs[last];
       || (w.parser == AddBlock &&
           w' == w.(parser := GoBlock, wg2 := w.wg2 + 1, jobs := w.jobs[last := j.(block := Reserved)]))
       || (w.parser == GoBlock && w' == w.(parser := AddList, jobs := w.jobs[last := j.(block := Running)]))
       || (w.parser == AddList &&
           w' == w.(parser := GoList, wg2 := w.wg2 + 1, jobs := w.jobs[last := j.(list := Reserved)]))
       || (w.parser == GoList && w' == w.(parser := BatchCheck, jobs := w.jobs[last := j.(list := Running)]))
  }

  /** `Wait` lets the parser pass only when the counter is zero. */
  predicate WaitStep(w: Worker, w': Worker, d: int)
  {
    || (w.parser == BatchCheck && d == 0 && w.count == MAX_PARSE_BLOCKS && w' == w.(count := 0, parser := BatchWait))
    || (w.parser == BatchCheck && d == 0 && w.count != MAX_PARSE_BLOCKS && w' == w.(parser := Receiving))
    || (w.parser == BatchWait && d == 0 && w.wg2 == 0 && w' == w.(parser := Receiving))
    || (w.parser == FinalWait && d == 0 && w.wg2 == 0 && w' == w.(parser := DeferDone))
    || (w.parser == DeferDone && d == -1 && w' == w.(parser := Exited))
  }

  ghost predicate SpawnedStep(w: Worker, w': Worker)
  {
    exists i, j', d :: 0 <= i < |w.jobs| && TaskStep(w.jobs[i], j', d) &&
                       w' == w.(wg2 := w.wg2 + d, jobs := w.jobs[i := j'])
  }

  /** One action of one of the worker's goroutines, changing the shared wait group by `d`. */
  ghost predicate WorkerStep(w: Worker, w': Worker, d: int, onlySyncAccount: bool)
  {
    || FeedStep(w, w', d)
    || (ReceiveStep(w, w', onlySyncAccount) && d == 0)
    || (LaunchStep(w, w') && d == 0)
    || WaitStep(w, w', d)
    || (SpawnedStep(w, w') && d == 0)
  }

  function SomeOf(sent: seq<Message>): (r: seq<Option<Message>>)
    ensures |r| == |sent|
  {
    seq(|sent|, i requires 0 <= i < |sent| => Some(sent[i]))
  }

  predicate FeedOver(w: Worker)
  {
    w.feed == SentNil || w.feed == Closed || w.feed == Ended
  }

  predicate NilReceived(w: Worker)
  {
    w.parser == FinalWait || w.parser == DeferDone || w.parser == Exited
  }

  /** Messages of batches whose wait is over. */
  function Settled(w: Worker): int
  {
    |w.jobs| - if w.parser == BatchWait then MAX_PARSE_BLOCKS else w.count
  }

  /** The channel holds what was sent and not received, then the nil if it was sent and not received. */
  predicate ChannelInv(w: Worker)
  {
    && |w.jobs| <= w.sent <= |w.plan| && |w.chan| <= MESSAGE_CHAN_SIZE
    && w.chan == SomeOf(w.plan[|w.jobs|..w.sent]) + (if FeedOver(w) && !NilReceived(w) then [None] else [])
    && (FeedOver(w) ==> w.sent == |w.plan|)
    && (NilReceived(w) ==> FeedOver(w) && |w.jobs| == w.sent)
    && (w.parser == Absent <==> w.feed == Starting || w.feed == Spawning)
    && (w.parser == Absent ==> w.sent == 0)
    && forall i :: 0 <= i < |w.jobs| ==> |w.jobs[i].txs| == w.plan[i].txs
  }

  predicate Launching(p: Parser)
  {
    p == AddBlock || p == GoBlock || p == AddList || p == GoList
  }

  /** How far the message being launched is. */
  predicate LastJobInv(w: Worker, onlySyncAccount: bool)
  {
    Launching(w.parser) ==>
      && |w.jobs| > 0
      && var j := w.jobs[|w.jobs| - 1];
         match w.parser
         case AddBlock => !onlySyncAccount && j.block == Idle && j.list == Idle
         case GoBlock => !onlySyncAccount && j.block == Reserved && j.list == Idle
         case AddList => BlockLaunched(j, onlySyncAccount) && j.list == Idle
         case _ => BlockLaunched(j, onlySyncAccount) && j.list == Reserved
  }

  predicate JobsInv(w: Worker, onlySyncAccount: bool)
  {
    && (forall i :: 0 <= i < |w.jobs| ==> JobOk(w.jobs[i], onlySyncAccount))
    && (forall i :: 0 <= i < |w.jobs| && (i < |w.jobs| - 1 || !Launching(w.parser)) ==>
          Launched(w.jobs[i], onlySyncAccount))
    && LastJobInv(w, onlySyncAccount)
    && w.wg2 == Sum(Weights(w.jobs))
  }

  predicate BatchInv(w: Worker, onlySyncAccount: bool)
  {
    && w.count <= MAX_PARSE_BLOCKS
    && (w.parser == Receiving || NilReceived(w) || w.parser == Absent ==> w.count < MAX_PARSE_BLOCKS)
    && (w.parser == BatchWait ==> w.count == 0)
    && (w.parser == BatchCheck || Launching(w.parser) ==> w.count > 0)
    && 0 <= Settled(w) && Settled(w) % MAX_PARSE_BLOCKS == 0
    && (forall i :: 0 <= i < Settled(w) ==> Done(w.jobs[i], onlySyncAccount))
    && (w.parser == DeferDone || w.parser == Exited ==>
          forall i :: 0 <= i < |w.jobs| ==> Done(w.jobs[i], onlySyncAccount))
  }

  predicate WorkerInv(w: Worker, onlySyncAccount: bool)
  {
    ChannelInv(w) && JobsInv(w, onlySyncAccount) && BatchInv(w, onlySyncAccount)
  }

  /** The worker's claims on the shared wait group: its feeding goroutine and its parser. */
  function Claims(w: Worker): int
  {
    (if w.feed == Ended then 0 else 1) + if w.feed == Starting || w.parser == Exited then 0 else 1
  }

  /** `Wait` on the parser's wait group returns only when every task announced so far is done. */
  lemma ZeroCounterMeansDone(w: Worker, onlySyncAccount: bool)
    requires JobsInv(w, onlySyncAccount) && !Launching(w.parser) && w.wg2 == 0
    ensures forall i :: 0 <= i < |w.jobs| ==> Done(w.jobs[i], onlySyncAccount)
  {
    WeightsNonNegative(w.jobs);
    forall i | 0 <= i < |w.jobs|
      ensures Done(w.jobs[i], onlySyncAccount)
    {
      ElementAtMostSum(Weights(w.jobs), i);
      NoWeightDone(w.jobs[i], onlySyncAccount);
    }
  }

  lemma WeightsNonNegative(jobs: seq<Job>)
    ensures forall i :: 0 <= i < |jobs| ==> Weights(jobs)[i] >= 0
  {
    forall i | 0 <= i < |jobs|
      ensures Weight(jobs[i]) >= 0
    {
      SumNonNegative(UnfinishedTxs(jobs[i].txs));
    }
  }

  lemma OneMoreSent(plan: seq<Message>, from: nat, to: nat)
    requires from <= to < |plan|
    ensures SomeOf(plan[from..to + 1]) == SomeOf(plan[from..to]) + [Some(plan[to])]
  {
    assert plan[from..to + 1] == plan[from..to] + [plan[to]];
  }

  lemma FeedKeepsChannel(w: Worker, w': Worker, d: int)
    requires ChannelInv(w) && FeedStep(w, w', d)
    ensures ChannelInv(w')
  {
    if w.feed == Feeding && w'.feed == Feeding {
      OneMoreSent(w.plan, |w.jobs|, w.sent);
    }
  }

  /** Steps that leave the jobs and the counter alone. */
  lemma SameJobs(w: Worker, w': Worker, onlySyncAccount: bool)
    requires JobsInv(w, onlySyncAccount) && w'.jobs == w.jobs && w'.wg2 == w.wg2
    requires w'.parser == w.parser || (!Launching(w.parser) && !Launching(w'.parser))
    ensures JobsInv(w', onlySyncAccount)
  {
  }

  lemma SameBatch(w: Worker, w': Worker, onlySyncAccount: bool)
    requires BatchInv(w, onlySyncAccount) && w'.jobs == w.jobs && w'.count == w.count
    requires w'.parser == w.parser || (w.parser == Absent && w'.parser == Receiving)
    ensures BatchInv(w', onlySyncAccount)
  {
  }

  lemma FeedKeepsRest(w: Worker, w': Worker, d: int, onlySyncAccount: bool)
    requires WorkerInv(w, onlySyncAccount) && FeedStep(w, w', d)
    ensures JobsInv(w', onlySyncAccount) && BatchInv(w', onlySyncAccount)
  {
    FeedKeepsParser(w, w', d);
    SameJobs(w, w', onlySyncAccount);
    SameBatch(w, w', onlySyncAccount);
  }

  lemma FeedKeepsParser(w: Worker, w': Worker, d: int)
    requires ChannelInv(w) && FeedStep(w, w', d)
    ensures w'.jobs == w.jobs && w'.count == w.count && w'.wg2 == w.wg2
    ensures w'.parser == w.parser || (w.parser == Absent && w'.parser == Receiving)
  {
  }

  lemma FeedKeepsClaims(w: Worker, w': Worker, d: int)
    requires ChannelInv(w) && FeedStep(w, w', d)
    ensures Claims(w') == Claims(w) + d
  {
  }

  lemma SomeOfTail(sent: seq<Message>)
    requires |sent| > 0
    ensures SomeOf(sent)[1..] == SomeOf(sent[1..])
  {
    forall i | 0 <= i < |sent| - 1
      ensures SomeOf(sent)[1..][i] == SomeOf(sent[1..])[i]
    {
      assert sent[1..][i] == sent[i + 1];
    }
  }

  /** The first message of the channel is the one the plan has next. */
  lemma FirstOfChannel(w: Worker)
    requires ChannelInv(w) && |w.chan| > 0 && w.chan[0].Some?
    ensures |w.jobs| < w.sent && w.chan[0] == Some(w.plan[|w.jobs|])
    ensures w.chan[1..] == SomeOf(w.plan[|w.jobs| + 1..w.sent]) + if FeedOver(w) && !NilReceived(w) then [None] else []
  {
    var waiting := w.plan[|w.jobs|..w.sent];
    assert forall i :: 0 <= i < |waiting| ==> w.chan[i] == SomeOf(waiting)[i];
    assert |waiting| > 0 && w.chan[0] == Some(waiting[0]);
    assert w.plan[|w.jobs| + 1..w.sent] == waiting[1..];
    SomeOfTail(waiting);
  }

  lemma NilOfChannel(w: Worker)
    requires ChannelInv(w) && |w.chan| > 0 && w.chan[0].None?
    ensures FeedOver(w) && |w.jobs| == w.sent && w.chan[1..] == []
  {
    if |w.jobs| < w.sent {
      assert false;
    }
  }

  lemma ReceiveKeepsChannel(w: Worker, w': Worker, onlySyncAccount: bool)
    requires ChannelInv(w) && ReceiveStep(w, w', onlySyncAccount)
    ensures ChannelInv(w')
  {
    if w.chan[0].Some? {
      FirstOfChannel(w);
    } else {
      NilOfChannel(w);
    }
  }

  lemma NewJobIs(n: nat, onlySyncAccount: bool)
    ensures JobOk(NewJob(n), onlySyncAccount) && Weight(NewJob(n)) == 0 && JobLeft(NewJob(n)) == 2 * n + 3
  {
    SumUnfinished(NewJob(n).txs, Idle);
    SumTxsLeft(NewJob(n).txs, Idle);
  }

  lemma AddJob(jobs: seq<Job>, j: Job)
    ensures Sum(Weights(jobs + [j])) == Sum(Weights(jobs)) + Weight(j)
  {
    assert Weights(jobs + [j]) == Weights(jobs) + [Weight(j)];
    SumAppend(Weights(jobs), Weight(j));
  }

  lemma OneMoreOk(jobs: seq<Job>, j: Job, onlySyncAccount: bool)
    requires JobOk(j, onlySyncAccount) && forall i :: 0 <= i < |jobs| ==> JobOk(jobs[i], onlySyncAccount)
    requires forall i :: 0 <= i < |jobs| ==> Launched(jobs[i], onlySyncAccount)
    ensures forall i :: 0 <= i < |jobs + [j]| ==> JobOk((jobs + [j])[i], onlySyncAccount)
    ensures forall i :: 0 <= i < |jobs| ==> Launched((jobs + [j])[i], onlySyncAccount)
  {
  }

  lemma ReceiveKeepsJobs(w: Worker, w': Worker, onlySyncAccount: bool)
    requires JobsInv(w, onlySyncAccount) && ReceiveStep(w, w', onlySyncAccount)
    ensures JobsInv(w', onlySyncAccount)
  {
    if w.chan[0].Some? {
      var j := NewJob(w.chan[0].value.txs);
      NewJobIs(w.chan[0].value.txs, onlySyncAccount);
      AddJob(w.jobs, j);
      OneMoreOk(w.jobs, j, onlySyncAccount);
      assert w'.jobs == w.jobs + [j] && w'.jobs[|w.jobs|] == j;
    } else {
      SameJobs(w, w', onlySyncAccount);
    }
  }

  lemma ReceiveKeepsBatch(w: Worker, w': Worker, onlySyncAccount: bool)
    requires BatchInv(w, onlySyncAccount) && ReceiveStep(w, w', onlySyncAccount)
    ensures BatchInv(w', onlySyncAccount)
  {
    assert Settled(w') == Settled(w);
    assert forall i :: 0 <= i < Settled(w') ==> w'.jobs[i] == w.jobs[i];
  }

  lemma SetWeight(jobs: seq<Job>, i: nat, j: Job)
    requires i < |jobs|
    ensures Sum(Weights(jobs[i := j])) == Sum(Weights(jobs)) - Weight(jobs[i]) + Weight(j)
  {
    SumUpdate(Weights(jobs), i, Weight(j));
    assert Weights(jobs[i := j]) == Weights(jobs)[i := Weight(j)];
  }

  /** What a launching step does to the last job and to the counter. */
  lemma LaunchedJob(w: Worker, w': Worker, onlySyncAccount: bool)
    requires LastJobInv(w, onlySyncAccount) && LaunchStep(w, w')
    ensures
      var last := |w.jobs| - 1;
      var j, j' := w.jobs[last], w'.jobs[last];
      && w'.jobs == w.jobs[last := j'] && j'.txs == j.txs && j'.added == j.added
      && Weight(j') == Weight(j) + (w'.wg2 - w.wg2)
      && JobLeft(j') == JobLeft(j) && StageLeft(w') < StageLeft(w)
      && w'.plan == w.plan && w'.sent == w.sent && w'.chan == w.chan && w'.count == w.count && w'.feed == w.feed
  {
  }

  lemma LaunchKeepsLast(w: Worker, w': Worker, onlySyncAccount: bool)
    requires LastJobInv(w, onlySyncAccount) && LaunchStep(w, w') && JobOk(w.jobs[|w.jobs| - 1], onlySyncAccount)
    ensures |w'.jobs| == |w.jobs| && JobOk(w'.jobs[|w.jobs| - 1], onlySyncAccount) && LastJobInv(w', onlySyncAccount)
    ensures !Launching(w'.parser) ==> Launched(w'.jobs[|w.jobs| - 1], onlySyncAccount)
  {
  }

  lemma LaunchKeepsJobs(w: Worker, w': Worker, onlySyncAccount: bool)
    requires JobsInv(w, onlySyncAccount) && LaunchStep(w, w')
    ensures JobsInv(w', onlySyncAccount)
  {
    var last := |w.jobs| - 1;
    LaunchedJob(w, w', onlySyncAccount);
    LaunchKeepsLast(w, w', onlySyncAccount);
    SetWeight(w.jobs, last, w'.jobs[last]);
    assert forall i :: 0 <= i < last ==> w'.jobs[i] == w.jobs[i];
  }

  lemma LaunchKeepsBatch(w: Worker, w': Worker, onlySyncAccount: bool)
    requires BatchInv(w, onlySyncAccount) && LaunchStep(w, w')
    ensures BatchInv(w', onlySyncAccount)
  {
    var last := |w.jobs| - 1;
    assert forall i :: 0 <= i < last ==> w'.jobs[i] == w.jobs[i];
    assert Settled(w') == Settled(w) && Settled(w) <= last;
  }

  lemma LaunchKeepsChannel(w: Worker, w': Worker)
    requires ChannelInv(w) && LaunchStep(w, w')
    ensures ChannelInv(w')
  {
    assert forall i :: 0 <= i < |w.jobs| ==> w'.jobs[i].txs == w.jobs[i].txs;
  }

  lemma WaitKeepsChannel(w: Worker, w': Worker, d: int)
    requires ChannelInv(w) && WaitStep(w, w', d)
    ensures ChannelInv(w') && Claims(w') == Claims(w) + d
  {
    assert w'.jobs == w.jobs && w'.chan == w.chan && w'.sent == w.sent && w'.feed == w.feed;
  }

  lemma WaitKeepsJobs(w: Worker, w': Worker, d: int, onlySyncAccount: bool)
    requires JobsInv(w, onlySyncAccount) && WaitStep(w, w', d)
    ensures JobsInv(w', onlySyncAccount)
  {
    SameJobs(w, w', onlySyncAccount);
  }

  lemma WaitKeepsBatch(w: Worker, w': Worker, d: int, onlySyncAccount: bool)
    requires BatchInv(w, onlySyncAccount) && WaitStep(w, w', d)
    requires (w.parser == BatchWait || w.parser == FinalWait) && w.wg2 == 0 ==>
               forall i :: 0 <= i < |w.jobs| ==> Done(w.jobs[i], onlySyncAccount)
    ensures BatchInv(w', onlySyncAccount)
  {
    assert w'.jobs == w.jobs;
  }

  lemma SpawnedKeepsJobs(w: Worker, w': Worker, i: nat, j': Job, d: int, onlySyncAccount: bool)
    requires JobsInv(w, onlySyncAccount) && i < |w.jobs| && TaskStep(w.jobs[i], j', d)
    requires w' == w.(wg2 := w.wg2 + d, jobs := w.jobs[i := j'])
    ensures JobsInv(w', onlySyncAccount)
  {
    TaskStepKeeps(w.jobs[i], j', d, onlySyncAccount);
    SetWeight(w.jobs, i, j');
  }

  lemma SpawnedKeepsRest(w: Worker, w': Worker, i: nat, j': Job, d: int, onlySyncAccount: bool)
    requires ChannelInv(w) && BatchInv(w, onlySyncAccount)
    requires i < |w.jobs| && JobOk(w.jobs[i], onlySyncAccount) && TaskStep(w.jobs[i], j', d)
    requires w' == w.(wg2 := w.wg2 + d, jobs := w.jobs[i := j'])
    ensures ChannelInv(w') && BatchInv(w', onlySyncAccount)
  {
    TaskStepKeeps(w.jobs[i], j', d, onlySyncAccount);
    assert Settled(w') == Settled(w) <= i;
  }

  lemma SameClaims(w: Worker, w': Worker)
    requires w'.feed == w.feed && (w.parser == Exited <==> w'.parser == Exited)
    ensures Claims(w') == Claims(w)
  {
  }

  lemma ReceiveKeeps(w: Worker, w': Worker, onlySyncAccount: bool)
    requires WorkerInv(w, onlySyncAccount) && ReceiveStep(w, w', onlySyncAccount)
    ensures WorkerInv(w', onlySyncAccount) && Claims(w') == Claims(w)
  {
    ReceiveKeepsChannel(w, w', onlySyncAccount);
    ReceiveKeepsJobs(w, w', onlySyncAccount);
    ReceiveKeepsBatch(w, w', onlySyncAccount);
    SameClaims(w, w');
  }

  lemma LaunchKeeps(w: Worker, w': Worker, onlySyncAccount: bool)
    requires WorkerInv(w, onlySyncAccount) && LaunchStep(w, w')
    ensures WorkerInv(w', onlySyncAccount) && Claims(w') == Claims(w)
  {
    LaunchKeepsChannel(w, w');
    LaunchKeepsJobs(w, w', onlySyncAccount);
    LaunchKeepsBatch(w, w', onlySyncAccount);
    SameClaims(w, w');
  }

  lemma WaitKeeps(w: Worker, w': Worker, d: int, onlySyncAccount: bool)
    requires WorkerInv(w, onlySyncAccount) && WaitStep(w, w', d)
    ensures WorkerInv(w', onlySyncAccount) && Claims(w') == Claims(w) + d
  {
    WaitKeepsChannel(w, w', d);
    WaitKeepsJobs(w, w', d, onlySyncAccount);
    if (w.parser == BatchWait || w.parser == FinalWait) && w.wg2 == 0 {
      ZeroCounterMeansDone(w, onlySyncAccount);
    }
    WaitKeepsBatch(w, w', d, onlySyncAccount);
  }

  lemma SpawnedKeeps(w: Worker, w': Worker, onlySyncAccount: bool)
    requires WorkerInv(w, onlySyncAccount) && SpawnedStep(w, w')
    ensures WorkerInv(w', onlySyncAccount) && Claims(w') == Claims(w)
  {
    var i, j', d :| 0 <= i < |w.jobs| && TaskStep(w.jobs[i], j', d) &&
                    w' == w.(wg2 := w.wg2 + d, jobs := w.jobs[i := j']);
    SpawnedKeepsJobs(w, w', i, j', d, onlySyncAccount);
    SpawnedKeepsRest(w, w', i, j', d, onlySyncAccount);
    SameClaims(w, w');
  }

  /** Every step of every goroutine keeps the worker in order and changes the shared wait group by exactly what it
      changes the worker's claims by. */
  lemma WorkerStepKeeps(w: Worker, w': Worker, d: int, onlySyncAccount: bool)
    requires WorkerInv(w, onlySyncAccount) && WorkerStep(w, w', d, onlySyncAccount)
    ensures WorkerInv(w', onlySyncAccount) && Claims(w') == Claims(w) + d
  {
    if FeedStep(w, w', d) {
      FeedKeepsChannel(w, w', d);
      FeedKeepsRest(w, w', d, onlySyncAccount);
      FeedKeepsClaims(w, w', d);
    } else if ReceiveStep(w, w', onlySyncAccount) && d == 0 {
      ReceiveKeeps(w, w', onlySyncAccount);
    } else if LaunchStep(w, w') && d == 0 {
      LaunchKeeps(w, w', onlySyncAccount);
    } else if WaitStep(w, w', d) {
      WaitKeeps(w, w', d, onlySyncAccount);
    } else {
      SpawnedKeeps(w, w', onlySyncAccount);
    }
  }

  // ----- all workers -----

  /** The workers, their shared wait group, and whether `doSyncWork` has returned from waiting on it. */
  datatype System = System(workers: seq<Worker>, wg: int, returned: bool)

  function NewWorker(plan: seq<Message>): Worker
  {
    Worker(plan, Starting, [], 0, Absent, 0, 0, [])
  }

  predicate Init(s: System)
  {
    && s.wg == |s.workers| && !s.returned
    && forall i :: 0 <= i < |s.workers| ==> s.workers[i] == NewWorker(s.workers[i].plan)
  }

  ghost predicate Step(s: System, s': System, onlySyncAccount: bool)
  {
    || (s.wg == 0 && !s.returned && s' == s.(returned := true))
    || exists i, w', d :: 0 <= i < |s.workers| && WorkerStep(s.workers[i], w', d, onlySyncAccount) &&
                          s' == s.(workers := s.workers[i := w'], wg := s.wg + d)
  }

  function AllClaims(ws: seq<Worker>): (r: seq<int>)
    ensures |r| == |ws|
  {
    seq(|ws|, i requires 0 <= i < |ws| => Claims(ws[i]))
  }

  predicate SystemInv(s: System, onlySyncAccount: bool)
  {
    && (forall i :: 0 <= i < |s.workers| ==> WorkerInv(s.workers[i], onlySyncAccount))
    && s.wg == Sum(AllClaims(s.workers))
    && (s.returned ==> s.wg == 0)
  }

  ghost predicate Run(run: seq<System>, onlySyncAccount: bool)
  {
    |run| > 0 && Init(run[0]) && forall n :: 0 <= n < |run| - 1 ==> Step(run[n], run[n + 1], onlySyncAccount)
  }

  lemma {:induction false} SumClaimsAtStart(ws: seq<Worker>)
    requires forall i :: 0 <= i < |ws| ==> ws[i] == NewWorker(ws[i].plan)
    ensures Sum(AllClaims(ws)) == |ws|
  {
    if |ws| > 0 {
      SumClaimsAtStart(ws[..|ws| - 1]);
      assert AllClaims(ws)[..|ws| - 1] == AllClaims(ws[..|ws| - 1]);
    }
  }

  lemma NoClaimsLeft(ws: seq<Worker>)
    requires Sum(AllClaims(ws)) == 0
    ensures forall i :: 0 <= i < |ws| ==> Claims(ws[i]) == 0
  {
    forall i | 0 <= i < |ws|
      ensures Claims(ws[i]) == 0
    {
      ElementAtMostSum(AllClaims(ws), i);
      assert AllClaims(ws)[i] == Claims(ws[i]);
    }
  }

  lemma SetClaims(ws: seq<Worker>, i: nat, w': Worker)
    requires i < |ws|
    ensures Sum(AllClaims(ws[i := w'])) == Sum(AllClaims(ws)) - Claims(ws[i]) + Claims(w')
  {
    SumUpdate(AllClaims(ws), i, Claims(w'));
    assert AllClaims(ws[i := w']) == AllClaims(ws)[i := Claims(w')];
  }

  lemma WorkerStepKeepsSystem(s: System, i: nat, w': Worker, d: int, onlySyncAccount: bool)
    requires SystemInv(s, onlySyncAccount) && i < |s.workers| && WorkerStep(s.workers[i], w', d, onlySyncAccount)
    ensures SystemInv(s.(workers := s.workers[i := w'], wg := s.wg + d), onlySyncAccount)
  {
    var ws := s.workers;
    WorkerStepKeeps(ws[i], w', d, onlySyncAccount);
    SetClaims(ws, i, w');
    if s.returned {
      NoClaimsLeft(ws);
      EndedIsStill(ws[i], w', d, onlySyncAccount);
    }
  }

  lemma DoneIsStill(j: Job, onlySyncAccount: bool)
    requires JobOk(j, onlySyncAccount) && Done(j, onlySyncAccount)
    ensures forall j', d :: !TaskStep(j, j', d)
  {
  }

  /** A worker without claims is over: nothing of it moves any more. */
  lemma EndedIsStill(w: Worker, w': Worker, d: int, onlySyncAccount: bool)
    requires WorkerInv(w, onlySyncAccount) && Claims(w) == 0
    ensures !WorkerStep(w, w', d, onlySyncAccount)
  {
    forall i | 0 <= i < |w.jobs|
      ensures forall j', d' :: !TaskStep(w.jobs[i], j', d')
    {
      DoneIsStill(w.jobs[i], onlySyncAccount);
    }
  }

  lemma StepKeeps(s: System, s': System, onlySyncAccount: bool)
    requires SystemInv(s, onlySyncAccount) && Step(s, s', onlySyncAccount)
    ensures SystemInv(s', onlySyncAccount)
  {
    if !(s.wg == 0 && !s.returned && s' == s.(returned := true)) {
      var i, w', d :| 0 <= i < |s.workers| && WorkerStep(s.workers[i], w', d, onlySyncAccount) &&
                      s' == s.(workers := s.workers[i := w'], wg := s.wg + d);
      WorkerStepKeepsSystem(s, i, w', d, onlySyncAccount);
    }
  }

  lemma NewWorkerInv(plan: seq<Message>, onlySyncAccount: bool)
    ensures WorkerInv(NewWorker(plan), onlySyncAccount)
  {
    assert Weights([]) == [];
  }

  lemma InitInv(s: System, onlySyncAccount: bool)
    requires Init(s)
    ensures SystemInv(s, onlySyncAccount)
  {
    SumClaimsAtStart(s.workers);
    forall i | 0 <= i < |s.workers|
      ensures WorkerInv(s.workers[i], onlySyncAccount)
    {
      NewWorkerInv(s.workers[i].plan, onlySyncAccount);
    }
  }

  lemma {:induction false} RunInv(run: seq<System>, n: nat, onlySyncAccount: bool)
    requires Run(run, onlySyncAccount) && n < |run|
    ensures SystemInv(run[n], onlySyncAccount)
  {
    if n == 0 {
      InitInv(run[0], onlySyncAccount);
    } else {
      RunInv(run, n - 1, onlySyncAccount);
      StepKeeps(run[n - 1], run[n], onlySyncAccount);
    }
  }

  function Batch(i: nat): nat
  {
    i / MAX_PARSE_BLOCKS
  }

  lemma UnfinishedAreRecent(w: Worker, onlySyncAccount: bool)
    requires BatchInv(w, onlySyncAccount)
    ensures forall i :: 0 <= i < |w.jobs| && !Done(w.jobs[i], onlySyncAccount) ==> |w.jobs| - i <= MAX_PARSE_BLOCKS
    ensures forall i :: 0 <= i < |w.jobs| && Batch(i) < Batch(|w.jobs| - 1) ==> Done(w.jobs[i], onlySyncAccount)
  {
    assert |w.jobs| - MAX_PARSE_BLOCKS <= Settled(w) <= |w.jobs|;
    forall i | Settled(w) <= i < |w.jobs|
      ensures Batch(i) == Batch(|w.jobs| - 1)
    {
      SameBatchOf(Settled(w), i);
      SameBatchOf(Settled(w), |w.jobs| - 1);
    }
  }

  lemma SameBatchOf(settled: nat, i: nat)
    requires settled % MAX_PARSE_BLOCKS == 0 && settled <= i < settled + MAX_PARSE_BLOCKS
    ensures Batch(i) == settled / MAX_PARSE_BLOCKS
  {
  }

  /** In every interleaving, each parser's counter equals its unfinished tasks, so it is never negative; at most 1000
      received messages are unfinished, and by the time a message has been received, every message of an earlier batch
      of 1000 is completely parsed. */
  lemma ThrottledInEveryRun(run: seq<System>, n: nat, k: nat, onlySyncAccount: bool)
    requires Run(run, onlySyncAccount) && n < |run| && k < |run[n].workers|
    ensures
      var w := run[n].workers[k];
      && w.wg2 == Sum(Weights(w.jobs)) && w.wg2 >= 0
      && |w.chan| <= 100
      && (forall i :: 0 <= i < |w.jobs| && !Done(w.jobs[i], onlySyncAccount) ==> |w.jobs| - i <= 1000)
      && forall i :: 0 <= i < |w.jobs| && i / 1000 < (|w.jobs| - 1) / 1000 ==> Done(w.jobs[i], onlySyncAccount)
  {
    RunInv(run, n, onlySyncAccount);
    var w := run[n].workers[k];
    WeightsNonNegative(w.jobs);
    SumNonNegative(Weights(w.jobs));
    UnfinishedAreRecent(w, onlySyncAccount);
    assert forall i: nat :: i < |w.jobs| ==> Batch(i) == i / 1000;
  }

  lemma WorkerKeepsPlan(w: Worker, w': Worker, d: int, onlySyncAccount: bool)
    requires WorkerStep(w, w', d, onlySyncAccount)
    ensures w'.plan == w.plan
  {
  }

  predicate SamePlans(ws: seq<Worker>, ws': seq<Worker>)
  {
    |ws'| == |ws| && forall k :: 0 <= k < |ws| ==> ws'[k].plan == ws[k].plan
  }

  lemma {:induction false} PlansKept(run: seq<System>, n: nat, onlySyncAccount: bool)
    requires Run(run, onlySyncAccount) && n < |run|
    ensures SamePlans(run[0].workers, run[n].workers)
  {
    if n > 0 {
      PlansKept(run, n - 1, onlySyncAccount);
      var s, s' := run[n - 1], run[n];
      assert Step(s, s', onlySyncAccount);
      if i, w', d :| 0 <= i < |s.workers| && WorkerStep(s.workers[i], w', d, onlySyncAccount) &&
                     s' == s.(workers := s.workers[i := w'], wg := s.wg + d) {
        WorkerKeepsPlan(s.workers[i], w', d, onlySyncAccount);
      }
    }
  }

  /** `doSyncWork` returns only after every worker has sent its nil and every block it had to hand over has been parsed
      completely: its block record, its transaction list and each of its transactions. */
  lemma ReturnsOnlyWhenDrained(run: seq<System>, n: nat, onlySyncAccount: bool)
    requires Run(run, onlySyncAccount) && n < |run| && run[n].returned
    ensures SamePlans(run[0].workers, run[n].workers)
    ensures forall k :: 0 <= k < |run[n].workers| ==>
              var w := run[n].workers[k];
              && w.feed == Ended && w.parser == Exited && w.chan == [] && |w.jobs| == |w.plan|
              && forall i :: 0 <= i < |w.plan| ==> |w.jobs[i].txs| == w.plan[i].txs && Done(w.jobs[i], onlySyncAccount)
  {
    PlansKept(run, n, onlySyncAccount);
    RunInv(run, n, onlySyncAccount);
    NoClaimsLeft(run[n].workers);
  }

  // ----- no deadlock -----

  lemma FirstReserved(txs: seq<Phase>) returns (t: nat)
    requires !NoneIs(txs, Reserved)
    ensures t < |txs| && txs[t] == Reserved && NoneIs(txs[..t], Reserved)
  {
    t := 0;
    while txs[t] != Reserved
      invariant t < |txs| && NoneIs(txs[..t], Reserved)
      invariant exists k :: t <= k < |txs| && txs[k] == Reserved
      decreases |txs| - t
    {
      t := t + 1;
    }
  }

  lemma OpenJobSteps(j: Job, onlySyncAccount: bool) returns (j': Job, d: int)
    requires JobOk(j, onlySyncAccount) && Launched(j, onlySyncAccount) && Weight(j) > 0
    ensures TaskStep(j, j', d) && j' != j
  {
    if j.block == Running {
      j', d := j.(block := Finished), -1;
    } else if j.list == Running && !j.added {
      j', d := j.(added := true, txs := seq(|j.txs|, _ => Reserved)), |j.txs|;
    } else if !NoneIs(j.txs, Reserved) {
      var t := FirstReserved(j.txs);
      j', d := j.(txs := j.txs[t := Running]), 0;
    } else if j.list == Running {
      j', d := j.(list := Finished), -1;
    } else {
      if AllAre(j.txs, Finished) {
        SumUnfinished(j.txs, Finished);
      }
      var t :| 0 <= t < |j.txs| && j.txs[t] != Finished;
      j', d := j.(txs := j.txs[t := Finished]), -1;
    }
  }

  lemma OpenJobMoves(w: Worker, i: nat, onlySyncAccount: bool) returns (w': Worker)
    requires JobsInv(w, onlySyncAccount) && i < |w.jobs| && Weight(w.jobs[i]) > 0 && !Launching(w.parser)
    ensures SpawnedStep(w, w') && w' != w
  {
    var j', d := OpenJobSteps(w.jobs[i], onlySyncAccount);
    w' := w.(wg2 := w.wg2 + d, jobs := w.jobs[i := j']);
    assert w'.jobs[i] == j';
  }

  /** A waiting parser is never stuck: either its counter is zero or one of its tasks can go on. */
  lemma WaitingMoves(w: Worker, onlySyncAccount: bool) returns (w': Worker)
    requires WorkerInv(w, onlySyncAccount) && (w.parser == BatchWait || w.parser == FinalWait)
    ensures WorkerStep(w, w', 0, onlySyncAccount) && w' != w
  {
    if w.wg2 == 0 {
      w' := w.(parser := if w.parser == BatchWait then Receiving else DeferDone);
    } else if i :| 0 <= i < |w.jobs| && Weight(w.jobs[i]) > 0 {
      w' := OpenJobMoves(w, i, onlySyncAccount);
    } else {
      WeightsNonNegative(w.jobs);
      forall i | 0 <= i < |w.jobs|
        ensures Weights(w.jobs)[i] == 0
      {
        assert Weights(w.jobs)[i] == Weight(w.jobs[i]);
      }
      SumZeros(Weights(w.jobs));
      w' := w;
    }
  }

  /** A worker with a claim on the shared wait group can always take a step. */
  lemma ClaimMoves(w: Worker, onlySyncAccount: bool) returns (w': Worker, d: int)
    requires WorkerInv(w, onlySyncAccount) && Claims(w) > 0
    ensures WorkerStep(w, w', d, onlySyncAccount) && w' != w
  {
    d := 0;
    match w.feed
    case Starting =>
      w', d := w.(feed := Spawning), 1;
    case Spawning =>
      w' := w.(feed := Feeding, parser := Receiving);
    case SentNil =>
      w' := w.(feed := Closed);
    case Closed =>
      w', d := w.(feed := Ended), -1;
    case _ =>
      w', d := ParserMoves(w, onlySyncAccount);
  }

  lemma LaunchMoves(w: Worker, onlySyncAccount: bool) returns (w': Worker)
    requires LastJobInv(w, onlySyncAccount) && Launching(w.parser)
    ensures LaunchStep(w, w') && w' != w
  {
    var last := |w.jobs| - 1;
    var j := w.jobs[last];
    if w.parser == AddBlock {
      w' := w.(parser := GoBlock, wg2 := w.wg2 + 1, jobs := w.jobs[last := j.(block := Reserved)]);
    } else if w.parser == GoBlock {
      w' := w.(parser := AddList, jobs := w.jobs[last := j.(block := Running)]);
    } else if w.parser == AddList {
      w' := w.(parser := GoList, wg2 := w.wg2 + 1, jobs := w.jobs[last := j.(list := Reserved)]);
    } else {
      w' := w.(parser := BatchCheck, jobs := w.jobs[last := j.(list := Running)]);
    }
  }

  lemma ReceivingMoves(w: Worker, onlySyncAccount: bool) returns (w': Worker)
    requires ChannelInv(w) && w.parser == Receiving && w.feed != Ended
    requires w.feed == Feeding || |w.chan| > 0
    ensures WorkerStep(w, w', 0, onlySyncAccount) && w' != w
  {
    if |w.chan| == 0 {
      w' := if w.sent < |w.plan| then w.(chan := w.chan + [Some(w.plan[w.sent])], sent := w.sent + 1)
            else w.(feed := SentNil, chan := w.chan + [None]);
      assert FeedStep(w, w', 0);
    } else {
      w' := ReceivingTakes(w, onlySyncAccount);
    }
  }

  lemma ReceivingTakes(w: Worker, onlySyncAccount: bool) returns (w': Worker)
    requires w.parser == Receiving && |w.chan| > 0
    ensures ReceiveStep(w, w', onlySyncAccount) && w' != w
  {
    if w.chan[0].None? {
      w' := w.(chan := w.chan[1..], parser := FinalWait);
    } else {
      w' := w.(chan := w.chan[1..], count := w.count + 1, jobs := w.jobs + [NewJob(w.chan[0].value.txs)],
               parser := if onlySyncAccount then AddList else AddBlock);
    }
  }

  lemma ParserMoves(w: Worker, onlySyncAccount: bool) returns (w': Worker, d: int)
    requires WorkerInv(w, onlySyncAccount) && (w.feed == Feeding || (w.feed == Ended && w.parser != Exited))
    ensures WorkerStep(w, w', d, onlySyncAccount) && w' != w
  {
    d := 0;
    match w.parser
    case Receiving =>
      if w.feed == Feeding {
        w' := ReceivingMoves(w, onlySyncAccount);
      } else {
        w' := ReceivingTakes(w, onlySyncAccount);
      }
    case BatchCheck =>
      w' := if w.count == MAX_PARSE_BLOCKS then w.(count := 0, parser := BatchWait) else w.(parser := Receiving);
    case BatchWait =>
      w' := WaitingMoves(w, onlySyncAccount);
    case FinalWait =>
      w' := WaitingMoves(w, onlySyncAccount);
    case DeferDone =>
      w', d := w.(parser := Exited), -1;
    case _ =>
      w' := LaunchMoves(w, onlySyncAccount);
  }

  ghost predicate CanMove(s: System, onlySyncAccount: bool)
  {
    exists s' :: Step(s, s', onlySyncAccount)
  }

  lemma SomeClaim(ws: seq<Worker>) returns (i: nat)
    requires Sum(AllClaims(ws)) != 0
    ensures i < |ws| && Claims(ws[i]) > 0
  {
    if forall k :: 0 <= k < |ws| ==> AllClaims(ws)[k] == 0 {
      SumZeros(AllClaims(ws));
    }
    i :| 0 <= i < |ws| && AllClaims(ws)[i] != 0;
  }

  /** No deadlock: in every interleaving, something can move exactly as long as `doSyncWork` has not returned. */
  lemma NeverStuck(run: seq<System>, onlySyncAccount: bool)
    requires Run(run, onlySyncAccount)
    ensures CanMove(run[|run| - 1], onlySyncAccount) <==> !run[|run| - 1].returned
  {
    var s := run[|run| - 1];
    RunInv(run, |run| - 1, onlySyncAccount);
    if s.returned {
      ReturnedIsStill(s, onlySyncAccount);
    } else if s.wg == 0 {
      assert Step(s, s.(returned := true), onlySyncAccount);
    } else {
      var i := SomeClaim(s.workers);
      var w', d := ClaimMoves(s.workers[i], onlySyncAccount);
      assert Step(s, s.(workers := s.workers[i := w'], wg := s.wg + d), onlySyncAccount);
    }
  }

  lemma ReturnedIsStill(s: System, onlySyncAccount: bool)
    requires SystemInv(s, onlySyncAccount) && s.returned
    ensures !CanMove(s, onlySyncAccount)
  {
    NoClaimsLeft(s.workers);
    forall i, w', d | 0 <= i < |s.workers|
      ensures !WorkerStep(s.workers[i], w', d, onlySyncAccount)
    {
      EndedIsStill(s.workers[i], w', d, onlySyncAccount);
    }
  }

  // ----- termination -----

  function FeedRank(f: Feed): nat
  {
    match f
    case Starting => 5
    case Spawning => 4
    case Feeding => 3
    case SentNil => 2
    case Closed => 1
    case Ended => 0
  }

  function ParserRank(p: Parser): nat
  {
    match p
    case AddBlock => 9
    case GoBlock => 8
    case AddList => 7
    case GoList => 6
    case BatchCheck => 5
    case BatchWait => 4
    case Absent => 3
    case Receiving => 3
    case FinalWait => 2
    case DeferDone => 1
    case Exited => 0
  }

  /** Actions left to a transaction's task, counting its launch. */
  function TxLeft(p: Phase): int
  {
    if p == Finished then 0 else if p == Running then 1 else 2
  }

  function TxsLeft(txs: seq<Phase>): (r: seq<int>)
    ensures |r| == |txs|
  {
    seq(|txs|, t requires 0 <= t < |txs| => TxLeft(txs[t]))
  }

  /** Actions left to a message's tasks. */
  function JobLeft(j: Job): int
  {
    (if j.block == Finished then 0 else 1) + (if j.added then 0 else 1) + (if j.list == Finished then 0 else 1) +
    Sum(TxsLeft(j.txs))
  }

  function JobsLeft(jobs: seq<Job>): (r: seq<int>)
    ensures |r| == |jobs|
  {
    seq(|jobs|, i requires 0 <= i < |jobs| => JobLeft(jobs[i]))
  }

  /** Actions that a message still to be received stands for at most. */
  function Costs(plan: seq<Message>): (r: seq<int>)
    ensures |r| == |plan|
  {
    seq(|plan|, i requires 0 <= i < |plan| => 2 * plan[i].txs + 10)
  }

  /** A bound on the actions left to a worker's goroutines. */
  function WorkLeft(w: Worker): int
    requires |w.jobs| <= |w.plan|
  {
    FeedRank(w.feed) + ParserRank(w.parser) + (|w.plan| - w.sent) +
    Sum(Costs(w.plan[|w.jobs|..])) + Sum(JobsLeft(w.jobs))
  }

  lemma SetTxLeft(txs: seq<Phase>, t: nat, p: Phase)
    requires t < |txs|
    ensures Sum(TxsLeft(txs[t := p])) == Sum(TxsLeft(txs)) - TxLeft(txs[t]) + TxLeft(p)
  {
    SumUpdate(TxsLeft(txs), t, TxLeft(p));
    assert TxsLeft(txs[t := p]) == TxsLeft(txs)[t := TxLeft(p)];
  }

  lemma {:induction false} SumTxsLeft(txs: seq<Phase>, p: Phase)
    requires AllAre(txs, p)
    ensures Sum(TxsLeft(txs)) == TxLeft(p) * |txs|
  {
    if |txs| > 0 {
      SumTxsLeft(txs[..|txs| - 1], p);
      assert TxsLeft(txs)[..|txs| - 1] == TxsLeft(txs[..|txs| - 1]);
    }
  }

  lemma TaskStepWorks(j: Job, j': Job, d: int, onlySyncAccount: bool)
    requires JobOk(j, onlySyncAccount) && TaskStep(j, j', d)
    ensures JobLeft(j') < JobLeft(j)
  {
    if j.list == Running && !j.added && j' == j.(added := true, txs := seq(|j.txs|, _ => Reserved)) && d == |j.txs| {
      SumTxsLeft(j.txs, Idle);
      SumTxsLeft(j'.txs, Reserved);
    } else if t :| 0 <= t < |j.txs| && j' == j.(txs := j.txs[t := Running]) && j.txs[t] == Reserved && d == 0 {
      SetTxLeft(j.txs, t, Running);
    } else if t :| 0 <= t < |j.txs| && j' == j.(txs := j.txs[t := Finished]) && j.txs[t] == Running && d == -1 {
      SetTxLeft(j.txs, t, Finished);
    }
  }

  lemma SetJobLeft(jobs: seq<Job>, i: nat, j: Job)
    requires i < |jobs|
    ensures Sum(JobsLeft(jobs[i := j])) == Sum(JobsLeft(jobs)) - JobLeft(jobs[i]) + JobLeft(j)
  {
    SumUpdate(JobsLeft(jobs), i, JobLeft(j));
    assert JobsLeft(jobs[i := j]) == JobsLeft(jobs)[i := JobLeft(j)];
  }

  lemma MessageWorks(w: Worker, w': Worker, onlySyncAccount: bool)
    requires |w.jobs| < |w.plan| && w'.plan == w.plan && StageLeft(w') <= StageLeft(w) + 6
    requires w'.jobs == w.jobs + [NewJob(w.plan[|w.jobs|].txs)]
    ensures WorkLeft(w') < WorkLeft(w)
  {
    OneMoreJob(w.plan, w.jobs);
    NewJobIs(w.plan[|w.jobs|].txs, onlySyncAccount);
  }

  lemma ReceiveWorks(w: Worker, w': Worker, onlySyncAccount: bool)
    requires ChannelInv(w) && ReceiveStep(w, w', onlySyncAccount)
    ensures |w'.jobs| <= |w'.plan| && WorkLeft(w') < WorkLeft(w)
  {
    if w.chan[0].Some? {
      FirstOfChannel(w);
      MessageWorks(w, w', onlySyncAccount);
    } else {
      StageDecides(w, w');
    }
  }

  /** Receiving a message turns its cost into a job. */
  lemma OneMoreJob(plan: seq<Message>, jobs: seq<Job>)
    requires |jobs| < |plan|
    ensures
      var j := NewJob(plan[|jobs|].txs);
      && Sum(JobsLeft(jobs + [j])) == Sum(JobsLeft(jobs)) + JobLeft(j)
      && Sum(Costs(plan[|jobs|..])) == Sum(Costs(plan[|jobs| + 1..])) + 2 * plan[|jobs|].txs + 10
  {
    var n := |jobs|;
    var j := NewJob(plan[n].txs);
    assert JobsLeft(jobs + [j]) == JobsLeft(jobs) + [JobLeft(j)];
    SumAppend(JobsLeft(jobs), JobLeft(j));
    SumSplit(Costs(plan[n..]), 0);
    assert Costs(plan[n..])[1..] == Costs(plan[n + 1..]);
  }

  lemma LaunchWorks(w: Worker, w': Worker, onlySyncAccount: bool)
    requires |w.jobs| <= |w.plan| && LastJobInv(w, onlySyncAccount) && LaunchStep(w, w')
    ensures |w'.jobs| <= |w'.plan| && WorkLeft(w') < WorkLeft(w)
  {
    var last := |w.jobs| - 1;
    LaunchedJob(w, w', onlySyncAccount);
    SetJobLeft(w.jobs, last, w'.jobs[last]);
  }

  lemma SpawnedWorks(w: Worker, w': Worker, onlySyncAccount: bool)
    requires JobsInv(w, onlySyncAccount) && |w.jobs| <= |w.plan| && SpawnedStep(w, w')
    ensures |w'.jobs| <= |w'.plan| && WorkLeft(w') < WorkLeft(w)
  {
    var i, j', d :| 0 <= i < |w.jobs| && TaskStep(w.jobs[i], j', d) &&
                    w' == w.(wg2 := w.wg2 + d, jobs := w.jobs[i := j']);
    TaskStepWorks(w.jobs[i], j', d, onlySyncAccount);
    SetJobLeft(w.jobs, i, j');
  }

  /** What a step that leaves the jobs alone uses up. */
  function StageLeft(w: Worker): int
  {
    FeedRank(w.feed) + ParserRank(w.parser) - w.sent
  }

  lemma StageDecides(w: Worker, w': Worker)
    requires |w.jobs| <= |w.plan| && w'.jobs == w.jobs && w'.plan == w.plan && StageLeft(w') < StageLeft(w)
    ensures |w'.jobs| <= |w'.plan| && WorkLeft(w') < WorkLeft(w)
  {
  }

  lemma FeedStage(w: Worker, w': Worker, d: int)
    requires ChannelInv(w) && FeedStep(w, w', d)
    ensures w'.jobs == w.jobs && w'.plan == w.plan && StageLeft(w') < StageLeft(w)
  {
  }

  lemma WaitStage(w: Worker, w': Worker, d: int)
    requires WaitStep(w, w', d)
    ensures w'.jobs == w.jobs && w'.plan == w.plan && StageLeft(w') < StageLeft(w)
  {
  }

  /** Every action of every goroutine uses up work. */
  lemma WorkerStepWorks(w: Worker, w': Worker, d: int, onlySyncAccount: bool)
    requires WorkerInv(w, onlySyncAccount) && WorkerStep(w, w', d, onlySyncAccount)
    ensures |w'.jobs| <= |w'.plan| && WorkLeft(w') < WorkLeft(w)
  {
    if FeedStep(w, w', d) {
      FeedStage(w, w', d);
      StageDecides(w, w');
    } else if WaitStep(w, w', d) {
      WaitStage(w, w', d);
      StageDecides(w, w');
    } else if ReceiveStep(w, w', onlySyncAccount) {
      ReceiveWorks(w, w', onlySyncAccount);
    } else if LaunchStep(w, w') {
      LaunchWorks(w, w', onlySyncAccount);
    } else {
      SpawnedWorks(w, w', onlySyncAccount);
    }
  }

  predicate Bounded(ws: seq<Worker>)
  {
    forall i :: 0 <= i < |ws| ==> |ws[i].jobs| <= |ws[i].plan|
  }

  function AllWork(ws: seq<Worker>): (r: seq<int>)
    requires Bounded(ws)
    ensures |r| == |ws|
  {
    seq(|ws|, i requires 0 <= i < |ws| => WorkLeft(ws[i]))
  }

  function SystemWork(s: System): int
    requires Bounded(s.workers)
  {
    Sum(AllWork(s.workers)) + if s.returned then 0 else 1
  }

  lemma SystemBounded(s: System, onlySyncAccount: bool)
    requires SystemInv(s, onlySyncAccount)
    ensures Bounded(s.workers) && SystemWork(s) >= 0
  {
    forall i | 0 <= i < |s.workers|
      ensures |s.workers[i].jobs| <= |s.workers[i].plan| && WorkLeft(s.workers[i]) >= 0
    {
      WorkNonNegative(s.workers[i], onlySyncAccount);
    }
    SumNonNegative(AllWork(s.workers));
  }

  lemma WorkNonNegative(w: Worker, onlySyncAccount: bool)
    requires WorkerInv(w, onlySyncAccount)
    ensures |w.jobs| <= |w.plan| && WorkLeft(w) >= 0
  {
    SumNonNegative(Costs(w.plan[|w.jobs|..]));
    forall i | 0 <= i < |w.jobs|
      ensures JobLeft(w.jobs[i]) >= 0
    {
      SumNonNegative(TxsLeft(w.jobs[i].txs));
    }
    SumNonNegative(JobsLeft(w.jobs));
  }

  lemma WorkerMoveWorks(ws: seq<Worker>, i: nat, w': Worker)
    requires Bounded(ws) && i < |ws| && |w'.jobs| <= |w'.plan| && WorkLeft(w') < WorkLeft(ws[i])
    ensures Bounded(ws[i := w']) && Sum(AllWork(ws[i := w'])) < Sum(AllWork(ws))
  {
    SumUpdate(AllWork(ws), i, WorkLeft(w'));
    assert AllWork(ws[i := w']) == AllWork(ws)[i := WorkLeft(w')];
  }

  lemma StepWorks(s: System, s': System, onlySyncAccount: bool)
    requires SystemInv(s, onlySyncAccount) && Step(s, s', onlySyncAccount)
    ensures Bounded(s.workers) && Bounded(s'.workers) && SystemWork(s') < SystemWork(s)
  {
    SystemBounded(s, onlySyncAccount);
    if !(s.wg == 0 && !s.returned && s' == s.(returned := true)) {
      var i, w', d :| 0 <= i < |s.workers| && WorkerStep(s.workers[i], w', d, onlySyncAccount) &&
                      s' == s.(workers := s.workers[i := w'], wg := s.wg + d);
      WorkerStepWorks(s.workers[i], w', d, onlySyncAccount);
      WorkerMoveWorks(s.workers, i, w');
    }
  }

  lemma RunBounded(run: seq<System>, n: nat, onlySyncAccount: bool)
    requires Run(run, onlySyncAccount) && n < |run|
    ensures Bounded(run[n].workers) && SystemWork(run[n]) >= 0
  {
    RunInv(run, n, onlySyncAccount);
    SystemBounded(run[n], onlySyncAccount);
  }

  lemma RunStepWorks(run: seq<System>, n: nat, onlySyncAccount: bool)
    requires Run(run, onlySyncAccount) && 0 < n < |run|
    ensures Bounded(run[n - 1].workers) && Bounded(run[n].workers) && SystemWork(run[n]) < SystemWork(run[n - 1])
  {
    RunInv(run, n - 1, onlySyncAccount);
    StepWorks(run[n - 1], run[n], onlySyncAccount);
  }

  /** The sync terminates: no interleaving has more steps than the work it started with, so whatever the scheduler does,
      a point is reached at which nothing can move any more, and there `doSyncWork` has returned. */
  lemma {:induction false} EveryRunEnds(run: seq<System>, n: nat, onlySyncAccount: bool)
    requires Run(run, onlySyncAccount) && n < |run|
    ensures Bounded(run[0].workers) && Bounded(run[n].workers)
    ensures n + SystemWork(run[n]) <= SystemWork(run[0]) && SystemWork(run[n]) >= 0
  {
    RunBounded(run, n, onlySyncAccount);
    if n > 0 {
      EveryRunEnds(run, n - 1, onlySyncAccount);
      RunStepWorks(run, n, onlySyncAccount);
    }
  }

  /** The bound in terms of the blocks: a constant for each worker and each block, and two steps for each
      transaction. */
  lemma WorkAtStart(plan: seq<Message>)
    ensures WorkLeft(NewWorker(plan)) == 8 + |plan| + Sum(Costs(plan))
  {
    assert plan[0..] == plan;
    assert JobsLeft([]) == [];
  }
}
