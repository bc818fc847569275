/** Settling only on complete data: the endless worker, its parsers and the sync record in one step system, from handing
    over a block to the wait for a cycle's end. */
module Settlement {
  import opened Wrappers
  import opened ParserPipeline
  import opened SyncRun
  import Stability

  /** The chain head, the head the worker last asked for, the stored sync record, and the worker with its parser and
      tasks. Its plan is as much of the chain as it comes to hand over. */
  datatype State = State(head: nat, latest: nat, record: nat, worker: Worker)

  predicate Ascending(heights: seq<nat>)
  {
    forall i, j :: 0 <= i < j < |heights| ==> heights[i] < heights[j]
  }

  predicate Start(s: State, head: nat, record: nat, plan: seq<Message>)
  {
    s == State(head, 0, record, NewWorker(plan))
  }

  /** A height is handed over only when the latest head confirms it. */
  predicate MayFollow(s: State, w': Worker, syncStable: nat)
  {
    var w := s.worker;
    w'.sent == w.sent || (w.sent < |w.plan| && w.plan[w.sent].height + syncStable <= s.latest)
  }

  /** The task that parses the block of job `i` is running: the record may be written for it. */
  predicate ParsesBlock(w: Worker, i: nat)
  {
    i < |w.jobs| && i < |w.plan| && w.jobs[i].block == Running
  }

  /** The chain grows; the worker asks for the head; the worker, its parser or one of its tasks moves; a task that
      parses a block writes the record. */
  ghost predicate Move(s: State, s': State, syncStable: nat)
  {
    || (s'.head >= s.head && s' == s.(head := s'.head))
    || s' == s.(latest := s.head)
    || (MayFollow(s, s'.worker, syncStable) && s' == s.(worker := s'.worker) &&
        exists d :: WorkerStep(s.worker, s'.worker, d, false))
    || exists i: nat :: ParsesBlock(s.worker, i) && s' == s.(record := s.worker.plan[i].height)
  }

  ghost predicate History(run: seq<State>, head: nat, record: nat, plan: seq<Message>, syncStable: nat)
  {
    |run| > 0 && Start(run[0], head, record, plan) &&
    forall n :: 0 <= n < |run| - 1 ==> Move(run[n], run[n + 1], syncStable)
  }

  // ----- what every run keeps -----

  /** The record is the one found at the start, or the height of a block received. */
  ghost predicate RecordOk(s: State, record: nat)
  {
    s.record == record ||
    exists i :: 0 <= i < |s.worker.jobs| && i < |s.worker.plan| && s.worker.plan[i].height == s.record
  }

  ghost predicate Inv(s: State, record: nat, plan: seq<Message>)
  {
    s.worker.plan == plan && WorkerInv(s.worker, false) && RecordOk(s, record)
  }

  /** What a step leaves alone: the plan, the jobs, the blocks that are parsed; a message sent is the plan's next. */
  lemma JobsStay(w: Worker, w': Worker, d: int)
    requires WorkerInv(w, false) && WorkerStep(w, w', d, false)
    ensures |w.jobs| <= |w'.jobs| && w'.plan == w.plan
    ensures forall i :: 0 <= i < |w.jobs| && w.jobs[i].block == Finished ==> w'.jobs[i].block == Finished
    ensures w'.sent == w.sent || (w'.sent == w.sent + 1 && w.sent < |w.plan| && w'.jobs == w.jobs)
  {
    if LaunchStep(w, w') {
      LaunchStays(w, w');
    } else if SpawnedStep(w, w') {
      SpawnedStays(w, w');
    } else if ReceiveStep(w, w', false) {
      ReceiveStays(w, w');
    } else {
      FeedOrWaitStays(w, w', d);
    }
  }

  lemma FeedOrWaitStays(w: Worker, w': Worker, d: int)
    requires FeedStep(w, w', d) || WaitStep(w, w', d)
    ensures w'.plan == w.plan && w'.jobs == w.jobs
    ensures w'.sent == w.sent || (w'.sent == w.sent + 1 && w.sent < |w.plan|)
  {
  }

  lemma ReceiveStays(w: Worker, w': Worker)
    requires ReceiveStep(w, w', false)
    ensures w'.plan == w.plan && w'.sent == w.sent && |w.jobs| <= |w'.jobs|
    ensures forall i :: 0 <= i < |w.jobs| ==> w'.jobs[i] == w.jobs[i]
  {
  }

  lemma LaunchStays(w: Worker, w': Worker)
    requires LastJobInv(w, false) && LaunchStep(w, w')
    ensures |w'.jobs| == |w.jobs| && w'.plan == w.plan && w'.sent == w.sent
    ensures forall i :: 0 <= i < |w.jobs| && w.jobs[i].block == Finished ==> w'.jobs[i].block == Finished
  {
    LaunchedJob(w, w', false);
    assert w.jobs[|w.jobs| - 1].block == Finished ==> w'.jobs[|w.jobs| - 1].block == Finished;
  }

  lemma SpawnedStays(w: Worker, w': Worker)
    requires SpawnedStep(w, w')
    ensures |w'.jobs| == |w.jobs| && w'.plan == w.plan && w'.sent == w.sent
    ensures forall i :: 0 <= i < |w.jobs| && w.jobs[i].block == Finished ==> w'.jobs[i].block == Finished
  {
    var i, j', d :| 0 <= i < |w.jobs| && TaskStep(w.jobs[i], j', d) &&
                    w' == w.(wg2 := w.wg2 + d, jobs := w.jobs[i := j']);
    assert forall k :: 0 <= k < |w.jobs| && k != i ==> w'.jobs[k] == w.jobs[k];
  }

  lemma RecordStays(s: State, s': State, record: nat)
    requires RecordOk(s, record) && s'.record == s.record
    requires s'.worker.plan == s.worker.plan && |s.worker.jobs| <= |s'.worker.jobs|
    ensures RecordOk(s', record)
  {
  }

  lemma MoveKeeps(s: State, s': State, record: nat, plan: seq<Message>, syncStable: nat)
    requires Inv(s, record, plan) && Move(s, s', syncStable)
    ensures Inv(s', record, plan)
  {
    if d :| s' == s.(worker := s'.worker) && WorkerStep(s.worker, s'.worker, d, false) {
      WorkerStepKeeps(s.worker, s'.worker, d, false);
      JobsStay(s.worker, s'.worker, d);
      RecordStays(s, s', record);
    } else if i: nat :| ParsesBlock(s.worker, i) && s' == s.(record := s.worker.plan[i].height) {
      assert s'.worker.plan[i].height == s'.record;
    }
  }

  lemma {:induction false} HistoryInv(run: seq<State>, n: nat, head: nat, record: nat, plan: seq<Message>,
                                      syncStable: nat)
    requires History(run, head, record, plan, syncStable) && n < |run|
    ensures Inv(run[n], record, plan)
  {
    if n == 0 {
      NewWorkerInv(plan, false);
    } else {
      HistoryInv(run, n - 1, head, record, plan, syncStable);
      MoveKeeps(run[n - 1], run[n], record, plan, syncStable);
    }
  }

  // ----- confirmation -----

  ghost function InFlight(w: Worker): set<nat>
  {
    set i | 0 <= i < w.sent && i < |w.plan| && !(i < |w.jobs| && w.jobs[i].block == Finished) :: w.plan[i].height
  }

  /** What the step system of `Stability` sees of the state. */
  ghost function Seen(s: State): Stability.State
  {
    var w := s.worker;
    Stability.State(s.head, s.latest, if 0 < w.sent <= |w.plan| then w.plan[w.sent - 1].height + 1 else 0,
                    InFlight(w), s.record)
  }

  /** A change of the worker that keeps its plan and its parsed blocks, and hands over at most the next message. */
  lemma ChangeSeen(s: State, s': State, syncStable: nat)
    requires Ascending(Heights(s.worker.plan)) && |s.worker.jobs| <= s.worker.sent <= |s.worker.plan|
    requires s' == s.(worker := s'.worker) && s'.worker.plan == s.worker.plan && MayFollow(s, s'.worker, syncStable)
    requires s'.worker.sent == s.worker.sent ==> InFlight(s'.worker) <= InFlight(s.worker)
    requires s'.worker.sent != s.worker.sent ==>
               s'.worker.sent == s.worker.sent + 1 && s.worker.sent < |s.worker.plan| &&
               InFlight(s'.worker) == InFlight(s.worker) + {s.worker.plan[s.worker.sent].height}
    ensures Stability.Step(Seen(s), Seen(s'), syncStable)
  {
    var w, w' := s.worker, s'.worker;
    if w'.sent == w.sent {
      assert Seen(s') == Seen(s).(inFlight := InFlight(w'));
    } else {
      NextHigher(w);
      assert Seen(s') == Seen(s).(height := w.plan[w.sent].height + 1, inFlight := InFlight(w'));
    }
  }

  lemma WorkerSeen(s: State, s': State, d: int, syncStable: nat)
    requires WorkerInv(s.worker, false) && Ascending(Heights(s.worker.plan))
    requires WorkerStep(s.worker, s'.worker, d, false) && MayFollow(s, s'.worker, syncStable)
    requires s' == s.(worker := s'.worker)
    ensures Stability.Step(Seen(s), Seen(s'), syncStable)
  {
    var w, w' := s.worker, s'.worker;
    JobsStay(w, w', d);
    SentBounded(w, w', d);
    if w'.sent == w.sent {
      OthersSeen(w, w');
    } else {
      SentSeen(w, w');
    }
    ChangeSeen(s, s', syncStable);
  }

  lemma SentBounded(w: Worker, w': Worker, d: int)
    requires WorkerInv(w, false) && WorkerStep(w, w', d, false)
    ensures |w.jobs| <= w.sent <= |w.plan|
  {
  }

  lemma NextHigher(w: Worker)
    requires w.sent < |w.plan| && Ascending(Heights(w.plan))
    ensures w.sent > 0 ==> w.plan[w.sent - 1].height < w.plan[w.sent].height
  {
    assert w.sent > 0 ==> Heights(w.plan)[w.sent - 1] < Heights(w.plan)[w.sent];
  }

  lemma OthersSeen(w: Worker, w': Worker)
    requires w'.sent == w.sent && w'.plan == w.plan && |w.jobs| <= |w'.jobs|
    requires forall i :: 0 <= i < |w.jobs| && w.jobs[i].block == Finished ==> w'.jobs[i].block == Finished
    ensures InFlight(w') <= InFlight(w)
  {
  }

  lemma SentSeen(w: Worker, w': Worker)
    requires |w.jobs| <= w.sent < |w.plan| && w'.sent == w.sent + 1 && w'.plan == w.plan && w'.jobs == w.jobs
    ensures InFlight(w') == InFlight(w) + {w.plan[w.sent].height}
  {
    forall h | h in InFlight(w) + {w.plan[w.sent].height}
      ensures h in InFlight(w')
    {
      if h in InFlight(w) {
        var i :| 0 <= i < w.sent && !(i < |w.jobs| && w.jobs[i].block == Finished) && w.plan[i].height == h;
        assert i < w'.sent;
      }
    }
  }

  lemma RecordSeen(s: State, i: nat, syncStable: nat)
    requires ChannelInv(s.worker) && ParsesBlock(s.worker, i)
    ensures Stability.Step(Seen(s), Seen(s.(record := s.worker.plan[i].height)), syncStable)
  {
    assert s.worker.plan[i].height in InFlight(s.worker);
    assert Seen(s.(record := s.worker.plan[i].height)) == Seen(s).(record := s.worker.plan[i].height);
  }

  lemma HeadSeen(s: State, s': State, syncStable: nat)
    requires (s'.head >= s.head && s' == s.(head := s'.head)) || s' == s.(latest := s.head)
    ensures Stability.Step(Seen(s), Seen(s'), syncStable)
  {
    assert Seen(s') == Seen(s).(head := s'.head, latest := s'.latest);
  }

  lemma MoveSeen(s: State, s': State, record: nat, plan: seq<Message>, syncStable: nat)
    requires Inv(s, record, plan) && Ascending(Heights(plan)) && Move(s, s', syncStable)
    ensures Stability.Step(Seen(s), Seen(s'), syncStable)
  {
    if (s'.head >= s.head && s' == s.(head := s'.head)) || s' == s.(latest := s.head) {
      HeadSeen(s, s', syncStable);
    } else if i: nat :| ParsesBlock(s.worker, i) && s' == s.(record := s.worker.plan[i].height) {
      RecordSeen(s, i, syncStable);
    } else {
      var d :| WorkerStep(s.worker, s'.worker, d, false);
      WorkerSeen(s, s', d, syncStable);
    }
  }

  ghost function AllSeen(run: seq<State>): (r: seq<Stability.State>)
    ensures |r| == |run|
  {
    seq(|run|, n requires 0 <= n < |run| => Seen(run[n]))
  }

  /** Every run of the joint system is one of `Stability`: whatever is proved of the record there holds here. */
  lemma HistoryIsRun(run: seq<State>, head: nat, record: nat, plan: seq<Message>, syncStable: nat)
    requires History(run, head, record, plan, syncStable) && Ascending(Heights(plan))
    ensures Stability.Run(AllSeen(run), head, record, syncStable)
  {
    assert InFlight(NewWorker(plan)) == {};
    forall n | 0 <= n < |run| - 1
      ensures Stability.Step(AllSeen(run)[n], AllSeen(run)[n + 1], syncStable)
    {
      HistoryInv(run, n, head, record, plan, syncStable);
      MoveSeen(run[n], run[n + 1], record, plan, syncStable);
    }
  }

  // ----- completeness -----

  /** Every block below a height is completely parsed. */
  predicate Parsed(w: Worker, below: nat)
  {
    forall i :: 0 <= i < |w.plan| && w.plan[i].height < below ==> i < |w.jobs| && Done(w.jobs[i], false)
  }

  /** At this point of the run, if a wait for the cycle's end is over, every block below that end is parsed. */
  ghost predicate CompleteAt(run: seq<State>, n: nat, cycleEnd: nat, plan: seq<Message>, dist: nat, syncStable: nat,
                             head: nat, record: nat)
  {
    (History(run, head, record, plan, syncStable) && n < |run| &&
     Stability.WaitEnds(run[n].record, cycleEnd, dist)) ==> Parsed(run[n].worker, cycleEnd)
  }

  /** That holds in every run over these heights, whatever transactions their blocks have. */
  ghost predicate AlwaysComplete(heights: seq<nat>, dist: nat, syncStable: nat, head: nat, record: nat)
  {
    forall plan, run, n: nat, cycleEnd: nat :: Heights(plan) == heights ==>
      CompleteAt(run, n, cycleEnd, plan, dist, syncStable, head, record)
  }

  /** Blocks of one batch are at most `dist` heights apart. */
  predicate BatchesWithin(heights: seq<nat>, dist: nat)
  {
    forall i: nat, j: nat :: i < j < |heights| && Batch(i) == Batch(j) ==> heights[j] <= heights[i] + dist
  }

  /** The record found at the start ends no wait beyond the first block. */
  predicate RecordBelow(heights: seq<nat>, dist: nat, record: nat)
  {
    |heights| > 0 ==> record <= heights[0] + dist
  }

  lemma BatchMonotone(i: nat, j: nat)
    requires i <= j
    ensures Batch(i) <= Batch(j)
  {
  }

  lemma LowerFirst(heights: seq<nat>, i: nat, j: nat)
    requires Ascending(heights) && i < |heights| && j < |heights| && heights[i] < heights[j]
    ensures i < j
  {
  }

  /** With the record at block `j`, blocks more than `dist` heights below it are in earlier batches. */
  lemma FarBelowParsed(w: Worker, heights: seq<nat>, dist: nat, i: nat, j: nat)
    requires WorkerInv(w, false) && Heights(w.plan) == heights && Ascending(heights) && BatchesWithin(heights, dist)
    requires i < |heights| && j < |w.jobs| && heights[i] + dist < heights[j]
    ensures i < |w.jobs| && Done(w.jobs[i], false)
  {
    LowerFirst(heights, i, j);
    UnfinishedAreRecent(w, false);
    BatchMonotone(i, j);
    BatchMonotone(j, |w.jobs| - 1);
  }

  lemma CompleteNow(run: seq<State>, n: nat, cycleEnd: nat, plan: seq<Message>, dist: nat, syncStable: nat,
                    head: nat, record: nat)
    requires Ascending(Heights(plan)) && BatchesWithin(Heights(plan), dist) && RecordBelow(Heights(plan), dist, record)
    ensures CompleteAt(run, n, cycleEnd, plan, dist, syncStable, head, record)
  {
    if History(run, head, record, plan, syncStable) && n < |run| &&
       Stability.WaitEnds(run[n].record, cycleEnd, dist) {
      HistoryInv(run, n, head, record, plan, syncStable);
      var w, heights := run[n].worker, Heights(plan);
      forall i | 0 <= i < |plan| && plan[i].height < cycleEnd
        ensures i < |w.jobs| && Done(w.jobs[i], false)
      {
        assert heights[i] == plan[i].height && heights[0] <= heights[i];
        if j :| 0 <= j < |w.jobs| && j < |plan| && run[n].record == plan[j].height {
          assert heights[j] == plan[j].height;
          FarBelowParsed(w, heights, dist, i, j);
        }
      }
    }
  }

  // ----- runs that are too fast -----

  lemma Extend(run: seq<State>, s: State, head: nat, record: nat, plan: seq<Message>, syncStable: nat)
    requires History(run, head, record, plan, syncStable) && Move(run[|run| - 1], s, syncStable)
    ensures History(run + [s], head, record, plan, syncStable)
  {
  }

  /** Some run ends in this state. */
  ghost predicate Reachable(s: State, head: nat, record: nat, plan: seq<Message>, syncStable: nat)
  {
    exists run :: History(run, head, record, plan, syncStable) && run[|run| - 1] == s
  }

  lemma Reach(s: State, s': State, head: nat, record: nat, plan: seq<Message>, syncStable: nat)
    requires Reachable(s, head, record, plan, syncStable) && Move(s, s', syncStable)
    ensures Reachable(s', head, record, plan, syncStable)
  {
    var run :| History(run, head, record, plan, syncStable) && run[|run| - 1] == s;
    Extend(run, s', head, record, plan, syncStable);
    assert (run + [s'])[|run + [s']| - 1] == s';
  }

  lemma ReachWorker(s: State, w': Worker, d: int, head: nat, record: nat, plan: seq<Message>, syncStable: nat)
    requires Reachable(s, head, record, plan, syncStable)
    requires WorkerStep(s.worker, w', d, false) && MayFollow(s, w', syncStable)
    ensures Reachable(s.(worker := w'), head, record, plan, syncStable)
  {
    Reach(s, s.(worker := w'), head, record, plan, syncStable);
  }

  /** The worker feeds and its parser receives; the channel is empty. */
  function Receiver(plan: seq<Message>, count: nat, wg2: int, jobs: seq<Job>): Worker
  {
    Worker(plan, Feeding, [], |jobs|, Receiving, count, wg2, jobs)
  }

  const RUNNING: Job := Job(Running, Running, false, [])
  const FINISHED: Job := Job(Finished, Finished, true, [])

  predicate Empty(plan: seq<Message>)
  {
    forall i :: 0 <= i < |plan| ==> plan[i].txs == 0
  }

  /** All heights of the plan are confirmed. */
  predicate Confirms(s: State, plan: seq<Message>, syncStable: nat)
  {
    forall i :: 0 <= i < |plan| ==> plan[i].height + syncStable <= s.latest
  }

  /** The worker's own steps, one after the other. */
  lemma LaunchAll(s: State, jobs: seq<Job>, head: nat, record: nat, plan: seq<Message>, syncStable: nat)
    requires Reachable(s, head, record, plan, syncStable)
    requires s.worker.parser == AddBlock && s.worker.jobs == jobs + [NewJob(0)]
    ensures
      var w' := s.worker.(parser := BatchCheck, wg2 := s.worker.wg2 + 2, jobs := jobs + [RUNNING]);
      Reachable(s.(worker := w'), head, record, plan, syncStable)
  {
    var w := s.worker;
    var w1 := w.(parser := GoBlock, wg2 := w.wg2 + 1, jobs := jobs + [NewJob(0).(block := Reserved)]);
    ReplaceLast(jobs, NewJob(0), NewJob(0).(block := Reserved));
    assert LaunchStep(w, w1);
    ReachWorker(s, w1, 0, head, record, plan, syncStable);
    var w2 := w1.(parser := AddList, jobs := jobs + [NewJob(0).(block := Running)]);
    ReplaceLast(jobs, NewJob(0).(block := Reserved), NewJob(0).(block := Running));
    assert LaunchStep(w1, w2);
    ReachWorker(s.(worker := w1), w2, 0, head, record, plan, syncStable);
    LaunchList(s.(worker := w2), jobs, head, record, plan, syncStable);
  }

  lemma LaunchList(s: State, jobs: seq<Job>, head: nat, record: nat, plan: seq<Message>, syncStable: nat)
    requires Reachable(s, head, record, plan, syncStable)
    requires s.worker.parser == AddList && s.worker.jobs == jobs + [NewJob(0).(block := Running)]
    ensures
      var w' := s.worker.(parser := BatchCheck, wg2 := s.worker.wg2 + 1, jobs := jobs + [RUNNING]);
      Reachable(s.(worker := w'), head, record, plan, syncStable)
  {
    var w := s.worker;
    var j := NewJob(0).(block := Running);
    var w1 := w.(parser := GoList, wg2 := w.wg2 + 1, jobs := jobs + [j.(list := Reserved)]);
    ReplaceLast(jobs, j, j.(list := Reserved));
    assert LaunchStep(w, w1);
    ReachWorker(s, w1, 0, head, record, plan, syncStable);
    var w2 := w1.(parser := BatchCheck, jobs := jobs + [RUNNING]);
    assert j.(list := Running) == RUNNING;
    ReplaceLast(jobs, j.(list := Reserved), RUNNING);
    assert LaunchStep(w1, w2);
    ReachWorker(s.(worker := w1), w2, 0, head, record, plan, syncStable);
  }

  lemma ReplaceLast(jobs: seq<Job>, j: Job, j': Job)
    ensures (jobs + [j])[|jobs| := j'] == jobs + [j'] && (jobs + [j])[|jobs|] == j
  {
  }

  /** A message is sent, received and launched, and none of its tasks has done anything yet. */
  lemma Launch(s: State, count: nat, wg2: int, jobs: seq<Job>, head: nat, record: nat, plan: seq<Message>,
               syncStable: nat) returns (s': State)
    requires Empty(plan) && |jobs| < |plan| && Confirms(s, plan, syncStable)
    requires s.worker == Receiver(plan, count, wg2, jobs) && Reachable(s, head, record, plan, syncStable)
    ensures s' == s.(worker := Receiver(plan, count + 1, wg2 + 2, jobs + [RUNNING]).(parser := BatchCheck))
    ensures Reachable(s', head, record, plan, syncStable)
  {
    var k := |jobs|;
    var w1 := s.worker.(chan := [Some(plan[k])], sent := k + 1);
    assert FeedStep(s.worker, w1, 0);
    ReachWorker(s, w1, 0, head, record, plan, syncStable);
    var w2 := w1.(chan := [], count := count + 1, jobs := jobs + [NewJob(0)], parser := AddBlock);
    assert ReceiveStep(w1, w2, false);
    ReachWorker(s.(worker := w1), w2, 0, head, record, plan, syncStable);
    LaunchAll(s.(worker := w2), jobs, head, record, plan, syncStable);
    s' := s.(worker := Receiver(plan, count + 1, wg2 + 2, jobs + [RUNNING]).(parser := BatchCheck));
  }

  lemma TaskOfLast(w: Worker, jobs: seq<Job>, j: Job, j': Job, d: int) returns (w': Worker)
    requires w.jobs == jobs + [j] && TaskStep(j, j', d)
    ensures w' == w.(wg2 := w.wg2 + d, jobs := jobs + [j']) && SpawnedStep(w, w')
  {
    ReplaceLast(jobs, j, j');
    w' := w.(wg2 := w.wg2 + d, jobs := w.jobs[|jobs| := j']);
  }

  /** The tasks of the last message run to their end. */
  lemma Finish(s: State, jobs: seq<Job>, head: nat, record: nat, plan: seq<Message>, syncStable: nat)
    returns (s': State)
    requires s.worker.jobs == jobs + [RUNNING] && Reachable(s, head, record, plan, syncStable)
    ensures s' == s.(worker := s.worker.(wg2 := s.worker.wg2 - 2, jobs := jobs + [FINISHED]))
    ensures Reachable(s', head, record, plan, syncStable)
  {
    var j1 := RUNNING.(block := Finished);
    var w1 := TaskOfLast(s.worker, jobs, RUNNING, j1, -1);
    ReachWorker(s, w1, 0, head, record, plan, syncStable);
    var j2 := j1.(added := true);
    assert seq(|j1.txs|, _ => Reserved) == [];
    var w2 := TaskOfLast(w1, jobs, j1, j2, 0);
    ReachWorker(s.(worker := w1), w2, 0, head, record, plan, syncStable);
    var w3 := TaskOfLast(w2, jobs, j2, FINISHED, -1);
    ReachWorker(s.(worker := w2), w3, 0, head, record, plan, syncStable);
    s' := s.(worker := w3);
  }

  /** After a launch the parser goes on, waiting first when the batch is full and everything in it is done. */
  lemma GoOn(s: State, head: nat, record: nat, plan: seq<Message>, syncStable: nat) returns (s': State)
    requires s.worker.parser == BatchCheck && Reachable(s, head, record, plan, syncStable)
    requires s.worker.count <= MAX_PARSE_BLOCKS && (s.worker.count == MAX_PARSE_BLOCKS ==> s.worker.wg2 == 0)
    ensures s' == s.(worker := s.worker.(parser := Receiving, count := s.worker.count % MAX_PARSE_BLOCKS))
    ensures Reachable(s', head, record, plan, syncStable)
  {
    var w := s.worker;
    if w.count == MAX_PARSE_BLOCKS {
      var w1 := w.(parser := BatchWait, count := 0);
      ReachWorker(s, w1, 0, head, record, plan, syncStable);
      ReachWorker(s.(worker := w1), w1.(parser := Receiving), 0, head, record, plan, syncStable);
      s' := s.(worker := w1.(parser := Receiving));
    } else {
      ReachWorker(s, w.(parser := Receiving), 0, head, record, plan, syncStable);
      s' := s.(worker := w.(parser := Receiving));
    }
  }

  function Times(n: nat, j: Job): (r: seq<Job>)
    ensures |r| == n
  {
    if n == 0 then [] else Times(n - 1, j) + [j]
  }

  lemma ReachStart(head: nat, record: nat, plan: seq<Message>, syncStable: nat, top: nat) returns (s: State)
    requires top >= head
    ensures s == State(top, top, record, Receiver(plan, 0, 0, []))
    ensures Reachable(s, head, record, plan, syncStable)
  {
    var s0 := State(head, 0, record, NewWorker(plan));
    assert History([s0], head, record, plan, syncStable);
    var s1 := s0.(head := top);
    Reach(s0, s1, head, record, plan, syncStable);
    var s2 := s1.(latest := top);
    Reach(s1, s2, head, record, plan, syncStable);
    var w1 := s2.worker.(feed := Spawning);
    ReachWorker(s2, w1, 1, head, record, plan, syncStable);
    ReachWorker(s2.(worker := w1), w1.(feed := Feeding, parser := Receiving), 0, head, record, plan, syncStable);
    s := s2.(worker := w1.(feed := Feeding, parser := Receiving));
  }

  lemma NextCount(k: nat)
    requires k > 0
    ensures ((k - 1) % MAX_PARSE_BLOCKS + 1) % MAX_PARSE_BLOCKS == k % MAX_PARSE_BLOCKS
    ensures (k - 1) % MAX_PARSE_BLOCKS + 1 <= MAX_PARSE_BLOCKS
  {
  }

  /** The first `k` messages are parsed one after the other. */
  lemma {:induction false} ReachParsed(head: nat, record: nat, plan: seq<Message>, syncStable: nat, top: nat, k: nat)
    returns (s: State)
    requires top >= head && Empty(plan) && k <= |plan|
    requires forall i :: 0 <= i < |plan| ==> plan[i].height + syncStable <= top
    ensures s == State(top, top, record, Receiver(plan, k % MAX_PARSE_BLOCKS, 0, Times(k, FINISHED)))
    ensures Reachable(s, head, record, plan, syncStable)
  {
    if k == 0 {
      s := ReachStart(head, record, plan, syncStable, top);
    } else {
      var count, jobs := (k - 1) % MAX_PARSE_BLOCKS, Times(k - 1, FINISHED);
      s := ReachParsed(head, record, plan, syncStable, top, k - 1);
      s := Launch(s, count, 0, jobs, head, record, plan, syncStable);
      s := Finish(s, jobs, head, record, plan, syncStable);
      s := GoOn(s, head, record, plan, syncStable);
      NextCount(k);
    }
  }

  /** From the start of a batch on, `m` more messages are launched and none of their tasks gets anywhere. */
  lemma {:induction false} ReachLaunched(head: nat, record: nat, plan: seq<Message>, syncStable: nat, top: nat, k: nat,
                                         m: nat) returns (s: State)
    requires top >= head && Empty(plan) && k + m <= |plan| && k % MAX_PARSE_BLOCKS == 0 && m < MAX_PARSE_BLOCKS
    requires forall i :: 0 <= i < |plan| ==> plan[i].height + syncStable <= top
    ensures s == State(top, top, record, Receiver(plan, m, 2 * m, Times(k, FINISHED) + Times(m, RUNNING)))
    ensures Reachable(s, head, record, plan, syncStable)
  {
    if m == 0 {
      s := ReachParsed(head, record, plan, syncStable, top, k);
      assert Times(k, FINISHED) + Times(0, RUNNING) == Times(k, FINISHED);
    } else {
      var jobs := Times(k, FINISHED) + Times(m - 1, RUNNING);
      s := ReachLaunched(head, record, plan, syncStable, top, k, m - 1);
      s := Launch(s, m - 1, 2 * (m - 1), jobs, head, record, plan, syncStable);
      s := GoOn(s, head, record, plan, syncStable);
      assert jobs + [RUNNING] == Times(k, FINISHED) + Times(m, RUNNING);
    }
  }

  lemma {:induction false} TimesAre(n: nat, j: Job, i: nat)
    requires i < n
    ensures Times(n, j)[i] == j
  {
    if i < n - 1 {
      TimesAre(n - 1, j, i);
    }
  }

  /** The record comes to stand at block `k + m` while the `m` blocks before it, and their transactions, are still being
      parsed. */
  lemma ReachRecord(head: nat, record: nat, plan: seq<Message>, syncStable: nat, top: nat, k: nat, m: nat)
    returns (s: State)
    requires top >= head && Empty(plan) && k + m < |plan| && k % MAX_PARSE_BLOCKS == 0 && m < MAX_PARSE_BLOCKS
    requires forall i :: 0 <= i < |plan| ==> plan[i].height + syncStable <= top
    ensures Reachable(s, head, record, plan, syncStable) && s.record == plan[k + m].height && s.worker.plan == plan
    ensures |s.worker.jobs| == k + m + 1 && forall i :: k <= i < k + m ==> !Done(s.worker.jobs[i], false)
  {
    var jobs := Times(k, FINISHED) + Times(m, RUNNING);
    s := ReachLaunched(head, record, plan, syncStable, top, k, m);
    s := Launch(s, m, 2 * m, jobs, head, record, plan, syncStable);
    assert ParsesBlock(s.worker, k + m);
    Reach(s, s.(record := plan[k + m].height), head, record, plan, syncStable);
    s := s.(record := plan[k + m].height);
    forall i | k <= i < k + m
      ensures s.worker.jobs[i] == RUNNING
    {
      TimesAre(m, RUNNING, i - k);
    }
  }

  function Plain(heights: seq<nat>): (plan: seq<Message>)
    ensures |plan| == |heights| && Empty(plan)
    ensures forall i :: 0 <= i < |plan| ==> plan[i].height == heights[i]
  {
    seq(|heights|, i requires 0 <= i < |heights| => Message(heights[i], 0))
  }

  function Top(heights: seq<nat>, head: nat, syncStable: nat): (top: nat)
    ensures top >= head && forall i :: 0 <= i < |heights| ==> heights[i] + syncStable <= top
  {
    if |heights| == 0 then head
    else
      var n := |heights| - 1;
      var top := Top(heights[..n], head, syncStable);
      if heights[n] + syncStable <= top then top else heights[n] + syncStable
  }

  /** Blocks of one batch that lie further apart make some wait end too early. */
  lemma TooFast(heights: seq<nat>, dist: nat, syncStable: nat, head: nat, record: nat, i: nat, j: nat)
    requires i < j < |heights| && Batch(i) == Batch(j) && heights[j] > heights[i] + dist
    ensures !AlwaysComplete(heights, dist, syncStable, head, record)
  {
    var plan, top := Plain(heights), Top(heights, head, syncStable);
    var k := Batch(j) * MAX_PARSE_BLOCKS;
    var s := ReachRecord(head, record, plan, syncStable, top, k, j - k);
    var run :| History(run, head, record, plan, syncStable) && run[|run| - 1] == s;
    var cycleEnd := heights[j] - dist;
    assert plan[i].height < cycleEnd && !Done(s.worker.jobs[i], false);
    assert Heights(plan) == heights;
    assert !CompleteAt(run, |run| - 1, cycleEnd, plan, dist, syncStable, head, record);
  }

  lemma StaleRecord(heights: seq<nat>, dist: nat, syncStable: nat, head: nat, record: nat)
    requires |heights| > 0 && record > heights[0] + dist
    ensures !AlwaysComplete(heights, dist, syncStable, head, record)
  {
    var plan := Plain(heights);
    var run := [State(head, 0, record, NewWorker(plan))];
    assert plan[0].height < record - dist;
    assert Heights(plan) == heights;
    assert !CompleteAt(run, 0, record - dist, plan, dist, syncStable, head, record);
  }

  /** The exact condition, for the heights the worker hands over: waits end only on complete data if and only if the
      record found at the start ends none beyond the first block, and no two blocks of one batch of the parser lie more
      than the distributer's depth apart. */
  lemma AlwaysCompleteIff(heights: seq<nat>, dist: nat, syncStable: nat, head: nat, record: nat)
    requires Ascending(heights)
    ensures AlwaysComplete(heights, dist, syncStable, head, record) <==>
            RecordBelow(heights, dist, record) && BatchesWithin(heights, dist)
  {
    if RecordBelow(heights, dist, record) && BatchesWithin(heights, dist) {
      forall plan, run, n: nat, cycleEnd: nat | Heights(plan) == heights
        ensures CompleteAt(run, n, cycleEnd, plan, dist, syncStable, head, record)
      {
        CompleteNow(run, n, cycleEnd, plan, dist, syncStable, head, record);
      }
    } else if !RecordBelow(heights, dist, record) {
      StaleRecord(heights, dist, syncStable, head, record);
    } else {
      var i: nat, j: nat :| i < j < |heights| && Batch(i) == Batch(j) && heights[j] > heights[i] + dist;
      TooFast(heights, dist, syncStable, head, record, i, j);
    }
  }

  /** Heights without a gap. */
  function From(start: nat, len: nat): (heights: seq<nat>)
    ensures |heights| == len && forall i :: 0 <= i < len ==> heights[i] == start + i
  {
    seq(len, i => start + i)
  }

  /** A worker that follows the chain block by block, for any length of time: the data are always complete if and only
      if the distributer's depth is at least one less than a batch, and the record found at the start lies at most that
      depth above the first block. */
  lemma FollowingCompleteIff(start: nat, dist: nat, syncStable: nat, head: nat, record: nat)
    ensures (forall len: nat :: AlwaysComplete(From(start, len), dist, syncStable, head, record)) <==>
            dist >= 999 && record <= start + dist
  {
    if dist >= MAX_PARSE_BLOCKS - 1 && record <= start + dist {
      forall len: nat
        ensures AlwaysComplete(From(start, len), dist, syncStable, head, record)
      {
        SmallBatches(start, len, dist);
        AlwaysCompleteIff(From(start, len), dist, syncStable, head, record);
      }
    } else {
      var heights := From(start, MAX_PARSE_BLOCKS);
      AlwaysCompleteIff(heights, dist, syncStable, head, record);
      assert Batch(0) == Batch(MAX_PARSE_BLOCKS - 1);
      assert heights[MAX_PARSE_BLOCKS - 1] == heights[0] + MAX_PARSE_BLOCKS - 1;
    }
  }

  lemma SmallBatches(start: nat, len: nat, dist: nat)
    requires dist >= MAX_PARSE_BLOCKS - 1
    ensures BatchesWithin(From(start, len), dist)
  {
    forall i: nat, j: nat | i < j < len && Batch(i) == Batch(j)
      ensures j - i < MAX_PARSE_BLOCKS
    {
    }
  }

  /** The configuration check can leave the distributer with a depth of 1. Then a cycle that ends at 51 is settled while
      block 50 and its trades are still being parsed. */
  lemma SettledTooEarly(syncStable: nat, head: nat)
    ensures !AlwaysComplete([50, 51, 52], 1, syncStable, head, 49)
  {
    assert Batch(0) == Batch(2);
    AlwaysCompleteIff([50, 51, 52], 1, syncStable, head, 49);
  }

  /** Complete and confirmed: when the condition holds and the record found at the start is confirmed, a cycle is
      settled only when all its blocks are completely parsed and lie both depths below the head. */
  lemma SettledCompleteAndConfirmed(configured: Stability.Depths, run: seq<State>, n: nat, head: nat, record: nat,
                                    plan: seq<Message>, cycleEnd: nat)
    requires History(run, head, record, plan, Stability.Moved(configured).sync) && n < |run|
    requires Ascending(Heights(plan)) && record + Stability.Moved(configured).sync <= head
    requires RecordBelow(Heights(plan), Stability.Moved(configured).dist, record)
    requires BatchesWithin(Heights(plan), Stability.Moved(configured).dist)
    requires Stability.WaitEnds(run[n].record, cycleEnd, Stability.Moved(configured).dist)
    ensures Parsed(run[n].worker, cycleEnd)
    ensures run[n].head >= cycleEnd + Stability.Moved(configured).dist + Stability.Moved(configured).sync
  {
    var checked := Stability.Moved(configured);
    CompleteNow(run, n, cycleEnd, plan, checked.dist, checked.sync, head, record);
    HistoryIsRun(run, head, record, plan, checked.sync);
    Stability.ConfirmedByBothDepths(configured, head, record, AllSeen(run), n, cycleEnd);
  }
}
