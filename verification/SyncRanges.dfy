/** How the syncer partitions the chain among workers and how a worker walks its part (syncer/sync.go).

    Heights are unbounded naturals; a failed request is retried by the source until it succeeds and is not modelled,
    except for requests for the chain head. */
module SyncRanges {
  import opened Wrappers
  import opened Seqs
  import opened Rewards

  const MIN_WORK_BLOCKS: nat := 100

  /** A half-open range of heights. */
  datatype Span = Span(start: nat, end: nat)

  /** Non-empty spans that follow each other from `start` to `end` without gap or overlap. */
  predicate Tiles(spans: seq<Span>, start: nat, end: nat)
  {
    && (|spans| == 0 ==> start == end)
    && (|spans| > 0 ==> spans[0].start == start && spans[|spans| - 1].end == end)
    && (forall i :: 0 <= i < |spans| ==> spans[i].start < spans[i].end)
    && forall i :: 0 <= i < |spans| - 1 ==> spans[i].end == spans[i + 1].start
  }

  lemma {:induction false} TilesOrdered(spans: seq<Span>, start: nat, end: nat, i: nat, j: nat)
    requires Tiles(spans, start, end) && i < j < |spans|
    ensures spans[i].end <= spans[j].start
  {
    if i < j - 1 {
      TilesOrdered(spans, start, end, i, j - 1);
    }
  }

  /** Every height of a tiled range lies in exactly one span. */
  lemma {:induction false} TilesPartition(spans: seq<Span>, start: nat, end: nat, h: nat)
    requires Tiles(spans, start, end) && start <= h < end
    ensures exists i :: 0 <= i < |spans| && spans[i].start <= h < spans[i].end
    ensures forall i, j :: 0 <= i < j < |spans| ==>
              !(spans[i].start <= h < spans[i].end && spans[j].start <= h < spans[j].end)
  {
    var i := 0;
    while i < |spans| && spans[i].end <= h
      invariant 0 <= i <= |spans|
      invariant i < |spans| ==> spans[i].start <= h
      invariant i == |spans| ==> end <= h
    {
      i := i + 1;
    }
    forall i, j | 0 <= i < j < |spans|
      ensures !(spans[i].start <= h < spans[i].end && spans[j].start <= h < spans[j].end)
    {
      TilesOrdered(spans, start, end, i, j);
    }
  }

  lemma StepBounds(count: nat, blockCount: nat)
    requires 0 < count <= blockCount
    ensures blockCount / count > 0
    ensures (count - 1) * (blockCount / count) < blockCount && count * (blockCount / count) <= blockCount
    ensures forall least: nat :: least * count <= blockCount ==> blockCount / count >= least
  {
    var step := blockCount / count;
    assert count * step <= blockCount < count * step + count;
    assert count * step == (count - 1) * step + step;
    forall least: nat | least * count <= blockCount
      ensures step >= least
    {
      if step < least {
        MulOrder(count, step, least);
      }
    }
  }

  class Syncer {
    const stable: nat
    var start: nat
    var end: nat
    var last: nat
    var workers: seq<Span>

    constructor (stable: nat, start: nat, end: nat)
      ensures this.stable == stable && this.start == start && this.end == end && workers == []
    {
      this.stable, this.start, this.end, this.last, this.workers := stable, start, end, 0, [];
    }

    /** Where to sync from and to; `recorded` is the stored sync record, `head` the chain head. */
    method GetStartAndLast(recorded: Option<nat>, minCreationHeight: nat, head: nat) returns (start: nat, last: nat)
      ensures this.start != 0 ==> start == this.start
      ensures this.start == 0 ==>
                start == if recorded.Some? && recorded.value != 0 then recorded.value + 1 else minCreationHeight
      ensures end != 0 ==> last == end
      ensures end == 0 && head > stable ==> last + stable == head
      ensures end == 0 && head <= stable ==> last == head
    {
      start, last := this.start, end;
      if this.start == 0 {
        if recorded.Some? {
          start := recorded.value;
          if start != 0 {
            start := start + 1;
          }
        }
        if start == 0 {
          start := minCreationHeight;
        }
      }
      if end == 0 {
        last := head;
        if last > stable {
          last := last - stable;
        }
      }
    }

    /** The worker ranges tile the range to sync, so that the endless worker, which starts at `last`, resumes exactly
        where they stop. No worker but a single one is given fewer than the minimum of blocks. */
    method DispatchWork(start: nat, last: nat, jobCount: nat)
      requires jobCount >= 1 && workers == []
      modifies this
      ensures end == old(end)
      ensures last <= start && end != 0 ==>
                workers == [] && this.start == old(this.start) && this.last == old(this.last)
      ensures !(last <= start && end != 0) ==> this.start == start && Tiles(workers, start, this.last)
      ensures !(last <= start && end != 0) && workers != [] ==> this.last == last
      ensures workers == [] <==> last <= start || (end == 0 && last - start < MIN_WORK_BLOCKS)
      ensures |workers| <= jobCount
      ensures workers != [] ==>
                var blocks := last - start;
                && |workers| == (if blocks < 100 then 1 else if blocks / 100 > jobCount then jobCount else blocks / 100)
                && forall i :: 0 <= i < |workers| - 1 ==> workers[i].end - workers[i].start == blocks / |workers|
      ensures |workers| > 1 ==> AtLeast(workers, MIN_WORK_BLOCKS)
    {
      if last <= start && end != 0 {
        return;
      }
      this.start, this.last := start, last;
      var blockCount := 1;
      if last > start {
        blockCount := last - start;
      }
      if blockCount < MIN_WORK_BLOCKS && end == 0 {
        this.last := start;
        return;
      }
      var workerCount, stepCount := PlanWork(blockCount, jobCount);
      var spans := Spans(start, last, workerCount, stepCount);
      assert forall i :: 0 <= i < |spans| - 1 ==> spans[..|spans| - 1][i] == spans[i];
      workers := workers + spans;
    }
  }

  /** How many workers, and how many blocks each. */
  method PlanWork(blockCount: nat, jobCount: nat) returns (workerCount: nat, stepCount: nat)
    requires blockCount >= 1 && jobCount >= 1
    ensures 1 <= workerCount <= jobCount && stepCount > 0
    ensures (workerCount - 1) * stepCount < blockCount && workerCount * stepCount <= blockCount
    ensures workerCount > 1 ==> stepCount >= MIN_WORK_BLOCKS
    ensures workerCount ==
            if blockCount < 100 then 1 else if blockCount / 100 > jobCount then jobCount else blockCount / 100
    ensures stepCount == blockCount / workerCount
  {
    workerCount := blockCount / MIN_WORK_BLOCKS;
    if workerCount > jobCount {
      workerCount := jobCount;
    } else if workerCount == 0 {
      workerCount := 1;
    }
    stepCount := blockCount / workerCount;
    StepBounds(workerCount, blockCount);
    assert workerCount > 1 ==> MIN_WORK_BLOCKS * workerCount <= blockCount;
  }

  /** The ranges of `stepCount` blocks each; the last one takes what is left. */
  method Spans(start: nat, last: nat, workerCount: nat, stepCount: nat) returns (spans: seq<Span>)
    requires workerCount > 0 && stepCount > 0
    requires start + (workerCount - 1) * stepCount < last && start + workerCount * stepCount <= last
    ensures Tiles(spans, start, last) && |spans| == workerCount
    ensures AtLeast(spans, stepCount) && EqualButLast(spans, stepCount)
  {
    spans := [];
    var wstart := start;
    assert 0 * stepCount == 0;
    for i := 0 to workerCount - 1
      invariant |spans| == i && wstart == start + i * stepCount
      invariant Tiles(spans, start, wstart) && AtLeast(spans, stepCount) && EqualSpans(spans, stepCount)
    {
      var wend := start + (i + 1) * stepCount;
      NextMultiple(i, stepCount);
      OneMoreSpan(spans, start, wstart, wend, stepCount);
      spans := spans + [Span(wstart, wend)];
      wstart := wend;
    }
    NextMultiple(workerCount - 1, stepCount);
    OneMoreSpan(spans, start, wstart, last, stepCount);
    spans := spans + [Span(wstart, last)];
  }

  predicate EqualSpans(spans: seq<Span>, count: nat)
  {
    forall i :: 0 <= i < |spans| ==> spans[i].end - spans[i].start == count
  }

  predicate EqualButLast(spans: seq<Span>, count: nat)
  {
    |spans| > 0 && EqualSpans(spans[..|spans| - 1], count)
  }

  predicate AtLeast(spans: seq<Span>, count: nat)
  {
    forall i :: 0 <= i < |spans| ==> spans[i].end - spans[i].start >= count
  }

  lemma OneMoreSpan(spans: seq<Span>, start: nat, wstart: nat, wend: nat, count: nat)
    requires Tiles(spans, start, wstart) && AtLeast(spans, count) && count > 0 && wstart + count <= wend
    ensures Tiles(spans + [Span(wstart, wend)], start, wend) && AtLeast(spans + [Span(wstart, wend)], count)
  {
  }

  lemma NextMultiple(i: nat, step: nat)
    ensures (i + 1) * step == i * step + step
  {
  }

  // ----- stored blocks -----

  datatype Block = Block(hash: nat, number: nat)

  ghost function Numbers(store: set<Block>): set<nat>
  {
    set b | b in store :: b.number
  }

  ghost predicate UniqueNumbers(store: set<Block>)
  {
    forall b, b' :: b in store && b' in store && b.number == b'.number ==> b == b'
  }

  ghost function InRange(store: set<Block>, from: nat, to: nat): set<Block>
  {
    set b | b in store && from <= b.number <= to
  }

  /** What a query limited to the length of the range may answer: distinct matching blocks, all of them unless there
      are more than the limit. */
  ghost predicate Reply(mblocks: seq<Block>, store: set<Block>, from: nat, to: nat)
    requires from <= to
  {
    && (forall i :: 0 <= i < |mblocks| ==> mblocks[i] in InRange(store, from, to))
    && (forall i, j :: 0 <= i < j < |mblocks| ==> mblocks[i] != mblocks[j])
    && |mblocks| <= to - from + 1
    && (|mblocks| < to - from + 1 ==> forall b :: b in InRange(store, from, to) ==> b in mblocks)
  }

  /** Heights of `[lo, hi)` without a stored block, in order. */
  function Missing(lo: nat, hi: nat, stored: set<nat>): seq<nat>
  {
    if hi <= lo then []
    else Missing(lo, hi - 1, stored) + if hi - 1 in stored then [] else [hi - 1]
  }

  lemma {:induction false} MissingConcat(lo: nat, mid: nat, hi: nat, stored: set<nat>)
    requires lo <= mid <= hi
    ensures Missing(lo, hi, stored) == Missing(lo, mid, stored) + Missing(mid, hi, stored)
  {
    if mid < hi {
      MissingConcat(lo, mid, hi - 1, stored);
    }
  }

  /** `Missing` lists exactly the missing heights, once each and in increasing order. */
  lemma MissingIs(lo: nat, hi: nat, stored: set<nat>)
    ensures forall h :: h in Missing(lo, hi, stored) <==> lo <= h < hi && h !in stored
    ensures Ascending(Missing(lo, hi, stored))
  {
    MissingMembers(lo, hi, stored);
    MissingAscending(lo, hi, stored);
  }

  predicate Ascending(s: seq<nat>)
  {
    forall i, j :: 0 <= i < j < |s| ==> s[i] < s[j]
  }

  lemma {:induction false} MissingMembers(lo: nat, hi: nat, stored: set<nat>)
    ensures forall h :: h in Missing(lo, hi, stored) <==> lo <= h < hi && h !in stored
  {
    if lo < hi {
      MissingMembers(lo, hi - 1, stored);
    }
  }

  lemma {:induction false} MissingAscending(lo: nat, hi: nat, stored: set<nat>)
    ensures Ascending(Missing(lo, hi, stored))
  {
    if lo < hi {
      MissingAscending(lo, hi - 1, stored);
      MissingMembers(lo, hi - 1, stored);
      var init := Missing(lo, hi - 1, stored);
      assert forall i :: 0 <= i < |init| ==> init[i] in init;
    }
  }

  lemma {:induction false} MissingNone(lo: nat, hi: nat, stored: set<nat>)
    requires forall h :: lo <= h < hi ==> h in stored
    ensures Missing(lo, hi, stored) == []
  {
    if lo < hi {
      MissingNone(lo, hi - 1, stored);
    }
  }

  lemma {:induction false} MissingDependsOnRange(lo: nat, hi: nat, stored: set<nat>, stored': set<nat>)
    requires forall h :: lo <= h < hi ==> (h in stored <==> h in stored')
    ensures Missing(lo, hi, stored) == Missing(lo, hi, stored')
  {
    if lo < hi {
      MissingDependsOnRange(lo, hi - 1, stored, stored');
    }
  }

  lemma {:induction false} DistinctBelow(numbers: set<nat>, lo: nat, hi: nat)
    requires lo <= hi && forall n :: n in numbers ==> lo <= n < hi
    ensures |numbers| <= hi - lo
    ensures |numbers| == hi - lo ==> forall n :: lo <= n < hi ==> n in numbers
  {
    if lo < hi {
      DistinctBelow(numbers - {hi - 1}, lo, hi - 1);
      if hi - 1 !in numbers {
        assert numbers - {hi - 1} == numbers;
      }
    } else {
      assert numbers == {};
    }
  }

  lemma {:induction false} CountNumbers(mblocks: seq<Block>)
    requires forall i, j :: 0 <= i < j < |mblocks| ==> mblocks[i].number != mblocks[j].number
    ensures |NumbersOf(mblocks)| == |mblocks|
  {
    if |mblocks| > 0 {
      var init, last := mblocks[..|mblocks| - 1], mblocks[|mblocks| - 1];
      CountNumbers(init);
      OneMoreNumber(init, last);
      InitLast(mblocks);
    }
  }

  function NumbersOf(mblocks: seq<Block>): set<nat>
  {
    set b | b in mblocks :: b.number
  }

  lemma OneMoreNumber(init: seq<Block>, last: Block)
    requires forall i :: 0 <= i < |init| ==> init[i].number != last.number
    ensures last.number !in NumbersOf(init) && NumbersOf(init + [last]) == NumbersOf(init) + {last.number}
  {
  }

  /** Pigeonhole: with unique block numbers, as many stored blocks as heights means that every height is stored, so
      skipping the chunk by count agrees with looking up each height. */
  lemma CountMeansComplete(mblocks: seq<Block>, store: set<Block>, from: nat, to: nat)
    requires from <= to && UniqueNumbers(store) && Reply(mblocks, store, from, to)
    requires |mblocks| == to - from + 1
    ensures forall h :: from <= h <= to ==> h in Numbers(store)
    ensures Missing(from, to + 1, Numbers(store)) == []
  {
    CountNumbers(mblocks);
    var numbers := NumbersOf(mblocks);
    DistinctBelow(numbers, from, to + 1);
    forall h | from <= h <= to
      ensures h in Numbers(store)
    {
      assert h in numbers;
    }
    MissingNone(from, to + 1, Numbers(store));
  }

  /** The query may fill its limit only when every height is stored. */
  ghost predicate CountIsRight(store: set<Block>, from: nat, to: nat)
    requires from <= to
  {
    |InRange(store, from, to)| < to - from + 1 || forall h :: from <= h <= to ==> h in Numbers(store)
  }

  lemma {:induction false} DistinctWithin(mblocks: seq<Block>, blocks: set<Block>)
    requires forall i :: 0 <= i < |mblocks| ==> mblocks[i] in blocks
    requires forall i, j :: 0 <= i < j < |mblocks| ==> mblocks[i] != mblocks[j]
    ensures |mblocks| <= |blocks|
  {
    if |mblocks| > 0 {
      DistinctWithin(mblocks[..|mblocks| - 1], blocks - {mblocks[|mblocks| - 1]});
    }
  }

  lemma {:induction false} Pick(blocks: set<Block>, n: nat) returns (mblocks: seq<Block>)
    requires n <= |blocks|
    ensures |mblocks| == n
    ensures forall i :: 0 <= i < n ==> mblocks[i] in blocks
    ensures forall i, j :: 0 <= i < j < n ==> mblocks[i] != mblocks[j]
  {
    mblocks := [];
    if n > 0 {
      var b :| b in blocks;
      var rest := Pick(blocks - {b}, n - 1);
      mblocks := rest + [b];
    }
  }

  lemma FullReplyIsComplete(mblocks: seq<Block>, store: set<Block>, from: nat, to: nat)
    requires from <= to && CountIsRight(store, from, to) && Reply(mblocks, store, from, to)
    requires |mblocks| == to - from + 1
    ensures Missing(from, to + 1, Numbers(store)) == []
  {
    DistinctWithin(mblocks, InRange(store, from, to));
    MissingNone(from, to + 1, Numbers(store));
  }

  /** The exact condition for skipping a chunk by count: no full reply hides a missing height if and only if fewer
      blocks match than the chunk has heights, or all its heights are stored. */
  lemma CountSkipIff(store: set<Block>, from: nat, to: nat)
    requires from <= to
    ensures (forall mblocks :: Reply(mblocks, store, from, to) && |mblocks| == to - from + 1 ==>
              Missing(from, to + 1, Numbers(store)) == []) <==> CountIsRight(store, from, to)
  {
    if CountIsRight(store, from, to) {
      forall mblocks | Reply(mblocks, store, from, to) && |mblocks| == to - from + 1
        ensures Missing(from, to + 1, Numbers(store)) == []
      {
        FullReplyIsComplete(mblocks, store, from, to);
      }
    } else {
      var mblocks := Pick(InRange(store, from, to), to - from + 1);
      assert Reply(mblocks, store, from, to);
      MissingMembers(from, to + 1, Numbers(store));
    }
  }

  /** Unique block numbers are enough, for every chunk. */
  lemma UniqueCountsRight(store: set<Block>, from: nat, to: nat)
    requires from <= to && UniqueNumbers(store)
    ensures CountIsRight(store, from, to)
  {
    if |InRange(store, from, to)| >= to - from + 1 {
      var mblocks := Pick(InRange(store, from, to), to - from + 1);
      CountMeansComplete(mblocks, store, from, to);
    }
  }

  /** Two stored blocks of one height hide a gap: the count is full although a height is missing. */
  lemma ForkHidesGap()
    ensures exists store: set<Block>, mblocks: seq<Block> ::
              Reply(mblocks, store, 1, 2) && |mblocks| == 2 && 2 !in Numbers(store)
  {
    var store := {Block(10, 1), Block(11, 1)};
    var mblocks := [Block(10, 1), Block(11, 1)];
    assert Reply(mblocks, store, 1, 2) && |mblocks| == 2 && 2 !in Numbers(store);
  }

  /** `getSynced`. */
  method GetSynced(mbs: seq<Block>, num: nat) returns (mb: Option<Block>)
    ensures mb.Some? ==> mb.value in mbs && mb.value.number == num
    ensures mb.None? ==> forall b :: b in mbs ==> b.number != num
  {
    for i := 0 to |mbs|
      invariant forall k :: 0 <= k < i ==> mbs[k].number != num
    {
      if mbs[i].number == num {
        return Some(mbs[i]);
      }
    }
    return None;
  }

  /** `FindBlocksInRange`: any answer `Reply` allows. */
  method FindBlocksInRange(store: set<Block>, from: nat, to: nat) returns (mblocks: seq<Block>)
    requires from <= to
    ensures Reply(mblocks, store, from, to)
  {
    mblocks := [];
    var rest := set b | b in store && from <= b.number <= to;
    while rest != {} && |mblocks| < to - from + 1
      invariant rest <= InRange(store, from, to)
      invariant forall b :: b in InRange(store, from, to) <==> b in rest || b in mblocks
      invariant forall i :: 0 <= i < |mblocks| ==> mblocks[i] !in rest
      invariant forall i, j :: 0 <= i < j < |mblocks| ==> mblocks[i] != mblocks[j]
      invariant |mblocks| <= to - from + 1
      decreases rest
    {
      var b :| b in rest;
      mblocks, rest := mblocks + [b], rest - {b};
    }
  }

  /** The heights that need not be parsed. */
  function Kept(store: set<Block>, overwrite: bool): set<nat>
  {
    if overwrite then {} else set b | b in store :: b.number
  }

  /** The heights a worker must parse. */
  function Wanted(lo: nat, hi: nat, store: set<Block>, overwrite: bool): seq<nat>
  {
    Missing(lo, hi, Kept(store, overwrite))
  }

  lemma WantedConcat(lo: nat, mid: nat, hi: nat, store: set<Block>, overwrite: bool)
    requires lo <= mid <= hi
    ensures Wanted(lo, hi, store, overwrite) == Wanted(lo, mid, store, overwrite) + Wanted(mid, hi, store, overwrite)
  {
    MissingConcat(lo, mid, hi, Kept(store, overwrite));
  }

  /** One chunk: parse what the reply does not list. */
  method ParseChunk(from: nat, to: nat, mblocks: seq<Block>, ghost store: set<Block>, overwrite: bool)
    returns (parsed: seq<nat>)
    requires from <= to && Reply(mblocks, store, from, to)
    requires overwrite || |mblocks| < to - from + 1
    ensures parsed == Wanted(from, to + 1, store, overwrite)
  {
    parsed := [];
    var height := from;
    while height <= to
      invariant from <= height <= to + 1
      invariant parsed == Wanted(from, height, store, overwrite)
    {
      var mb := GetSynced(mblocks, height);
      if overwrite || mb == None {
        parsed := parsed + [height];
        if !overwrite && height in Numbers(store) {
          var b :| b in store && b.number == height;
          assert b in InRange(store, from, to);
        }
      } else {
        assert mb.value in InRange(store, from, to);
        assert height in Numbers(store);
      }
      height := height + 1;
    }
  }

  /** The blocks that parsers have added to the store by the time the chunk starting at a height is queried. */
  type Landing = nat -> set<Block>

  /** A worker's own parser adds blocks below the chunk, the other workers' parsers blocks outside the worker's range,
      which ends at `limit`; unless overwriting, counts are right for whatever chunk begins there. */
  ghost predicate LandsElsewhere(landed: Landing, store: set<Block>, limit: Option<nat>, overwrite: bool)
  {
    forall from: nat :: LandsClear(landed(from), store, from, limit, overwrite)
  }

  ghost predicate LandsClear(blocks: set<Block>, store: set<Block>, from: nat, limit: Option<nat>, overwrite: bool)
  {
    && (!overwrite ==> forall to :: from <= to ==> CountIsRight(store + blocks, from, to))
    && forall b :: b in blocks ==> b.number < from || (limit.Some? && b.number >= limit.value)
  }

  /** `syncRange`, for any chunk length and whatever parsers store in the meantime. */
  method SyncRange(start: nat, end: nat, store: set<Block>, landed: Landing, ghost limit: Option<nat>,
                   overwrite: bool, step: nat)
    returns (parsed: seq<nat>)
    requires step > 0 && LandsElsewhere(landed, store, limit, overwrite) && (limit.Some? ==> end < limit.value)
    ensures parsed == Wanted(start, end + 1, store, overwrite)
  {
    parsed := [];
    var height := start;
    while height <= end
      invariant start <= height
      invariant height <= end + 1 || height == start
      invariant parsed == Wanted(start, height, store, overwrite)
      decreases end + 1 - height
    {
      var from := height;
      var to := from + step - 1;
      if to > end {
        to := end;
      }
      assert LandsClear(landed(from), store, from, limit, overwrite);
      var mblocks := FindBlocksInRange(store + landed(from), from, to);
      StoredElsewhere(from, to, store, landed(from), overwrite);
      WantedConcat(start, from, to + 1, store, overwrite);
      if !overwrite && |mblocks| == to - from + 1 {
        FullReplyIsComplete(mblocks, store + landed(from), from, to);
        height := to + 1;
        continue;
      }
      var chunk := ParseChunk(from, to, mblocks, store + landed(from), overwrite);
      parsed := parsed + chunk;
      height := to + 1;
    }
  }

  /** Blocks stored outside a chunk do not change what is wanted of it. */
  lemma StoredElsewhere(from: nat, to: nat, store: set<Block>, others: set<Block>, overwrite: bool)
    requires forall b :: b in others ==> b.number < from || b.number > to
    ensures Wanted(from, to + 1, store + others, overwrite) == Wanted(from, to + 1, store, overwrite)
  {
    if !overwrite {
      forall h | from <= h < to + 1
        ensures h in Numbers(store + others) <==> h in Numbers(store)
      {
        if h in Numbers(store + others) {
          var b :| b in store + others && b.number == h;
        }
        if h in Numbers(store) {
          var b :| b in store && b.number == h;
          assert b in store + others;
        }
      }
      MissingDependsOnRange(from, to + 1, Numbers(store + others), Numbers(store));
    }
  }

  /** A range synced by a worker, both ends included. */
  datatype Call = Call(from: nat, to: nat)

  /** Calls that follow each other from `start` up to just below `next`. */
  predicate Consecutive(calls: seq<Call>, start: nat, next: nat)
  {
    && (|calls| == 0 ==> start == next)
    && (|calls| > 0 ==> calls[0].from == start && calls[|calls| - 1].to + 1 == next)
    && (forall i :: 0 <= i < |calls| ==> calls[i].from <= calls[i].to)
    && forall i :: 0 <= i < |calls| - 1 ==> calls[i].to + 1 == calls[i + 1].from
  }

  /** The last height the worker may sync when the chain head is `latest`: `stable` below it, and below its own end. */
  function LastOf(latest: nat, end: nat, stable: nat): nat
    requires stable <= latest
  {
    if end > 0 && latest - stable >= end then end - 1 else latest - stable
  }

  /** The ranges `doSync` goes through from `height` on. `heads` are the replies to its requests for the chain head, a
      failure being `None`, and `latest` is what it takes for the head until it asks. An `end` of 0 means endless. */
  function SyncCalls(height: nat, end: nat, stable: nat, latest: nat, heads: seq<Option<nat>>): seq<Call>
    decreases |heads|, if end > 0 then end - height else if height + stable > latest then 0 else 1
  {
    if end > 0 && height >= end then []
    else if height + stable > latest then
      if |heads| == 0 then []
      else SyncCalls(height, end, stable, if heads[0].Some? then heads[0].value else latest, heads[1..])
    else
      var last := LastOf(latest, end, stable);
      [Call(height, last)] + SyncCalls(last + 1, end, stable, latest, heads)
  }

  /** What the worker takes for the chain head after all replies. */
  function LatestReply(latest: nat, heads: seq<Option<nat>>): nat
    decreases |heads|
  {
    if |heads| == 0 then latest
    else LatestReply(if heads[0].Some? then heads[0].value else latest, heads[1..])
  }

  /** That is the last successful reply, or what it took before when there is none. */
  lemma {:induction false} LatestReplyIs(latest: nat, heads: seq<Option<nat>>)
    ensures (forall k :: 0 <= k < |heads| ==> heads[k].None?) ==> LatestReply(latest, heads) == latest
    ensures forall k :: 0 <= k < |heads| && heads[k].Some? && (forall j :: k < j < |heads| ==> heads[j].None?) ==>
              LatestReply(latest, heads) == heads[k].value
    decreases |heads|
  {
    if |heads| > 0 {
      LatestReplyIs(if heads[0].Some? then heads[0].value else latest, heads[1..]);
      assert forall k :: 0 < k < |heads| ==> heads[1..][k - 1] == heads[k];
    }
  }

  /** The worker's next range: it asks for the chain head until that confirms the current height, or as long as there
      are replies. */
  method NextLast(height: nat, end: nat, stable: nat, latest: nat, heads: seq<Option<nat>>)
    returns (last: Option<nat>, latest': nat, rest: seq<Option<nat>>)
    requires end > 0 ==> height < end
    ensures SyncCalls(height, end, stable, latest, heads) ==
            if last.None? then []
            else [Call(height, last.value)] + SyncCalls(last.value + 1, end, stable, latest', rest)
    ensures |rest| <= |heads|
    ensures last.None? ==> |rest| == 0 && height + stable > latest'
    ensures last.Some? ==> height <= last.value && last.value + stable <= latest' && (end > 0 ==> last.value < end)
    ensures last.Some? && end == 0 ==> last.value + stable == latest'
    ensures last.Some? && |rest| == |heads| ==> latest' == latest && height + stable <= latest
    ensures LatestReply(latest', rest) == LatestReply(latest, heads)
  {
    latest', rest := latest, heads;
    while height + stable > latest'
      invariant |rest| <= |heads| && LatestReply(latest', rest) == LatestReply(latest, heads)
      invariant SyncCalls(height, end, stable, latest', rest) == SyncCalls(height, end, stable, latest, heads)
      invariant |rest| == |heads| ==> latest' == latest
      decreases |rest|
    {
      if |rest| == 0 {
        return None, latest', rest;
      }
      var latestHeader := rest[0];
      rest := rest[1..];
      if latestHeader.Some? {
        latest' := latestHeader.value;
      }
    }
    var l := latest' - stable;
    if end > 0 && l >= end {
      l := end - 1;
    }
    last := Some(l);
  }

  /** Where a worker that began at `start` stands after its calls. */
  function Reached(calls: seq<Call>, start: nat): nat
  {
    if |calls| == 0 then start else calls[|calls| - 1].to + 1
  }

  /** Calls that follow each other from `start` on. */
  predicate Linked(calls: seq<Call>, start: nat)
  {
    |calls| == 0 || (calls[0].from == start <= calls[0].to && Linked(calls[1..], calls[0].to + 1))
  }

  lemma PrependCall(first: Call, calls: seq<Call>)
    requires first.from <= first.to && Linked(calls, first.to + 1)
    ensures Linked([first] + calls, first.from)
  {
    assert ([first] + calls)[1..] == calls;
  }

  lemma {:induction false} LinkedConsecutive(calls: seq<Call>, start: nat)
    requires Linked(calls, start)
    ensures Consecutive(calls, start, Reached(calls, start))
  {
    if |calls| > 0 {
      LinkedConsecutive(calls[1..], calls[0].to + 1);
      assert forall i :: 0 <= i < |calls| - 1 ==> calls[1..][i] == calls[i + 1];
    }
  }

  lemma {:induction false} CallsLinked(height: nat, end: nat, stable: nat, latest: nat, heads: seq<Option<nat>>)
    ensures Linked(SyncCalls(height, end, stable, latest, heads), height)
    decreases |heads|, if end > 0 then end - height else if height + stable > latest then 0 else 1
  {
    if !(end > 0 && height >= end) && height + stable <= latest {
      var last := LastOf(latest, end, stable);
      CallsLinked(last + 1, end, stable, latest, heads);
      PrependCall(Call(height, last), SyncCalls(last + 1, end, stable, latest, heads));
    } else if !(end > 0 && height >= end) && |heads| > 0 {
      CallsLinked(height, end, stable, if heads[0].Some? then heads[0].value else latest, heads[1..]);
    }
  }

  /** The ranges follow each other without gap or overlap. */
  lemma CallsConsecutive(height: nat, end: nat, stable: nat, latest: nat, heads: seq<Option<nat>>)
    ensures
      var calls := SyncCalls(height, end, stable, latest, heads);
      Consecutive(calls, height, Reached(calls, height))
  {
    CallsLinked(height, end, stable, latest, heads);
    LinkedConsecutive(SyncCalls(height, end, stable, latest, heads), height);
  }

  /** One more range on top of what has been done. */
  lemma OneMoreCall(calls: seq<Call>, parsed: seq<nat>, start: nat, height: nat, last: nat, more: seq<nat>,
                    store: set<Block>, overwrite: bool)
    requires start <= height <= last && parsed == Wanted(start, height, store, overwrite)
    requires more == Wanted(height, last + 1, store, overwrite)
    ensures Reached(calls + [Call(height, last)], start) == last + 1
    ensures parsed + more == Wanted(start, last + 1, store, overwrite)
  {
    WantedConcat(start, height, last + 1, store, overwrite);
  }

  /** One round of `doSync`: the next range is determined and parsed, unless the run is cut off. */
  method SyncRound(ghost start: nat, calls: seq<Call>, parsed: seq<nat>, height: nat, end: nat, stable: nat,
                   latest: nat, heads: seq<Option<nat>>, store: set<Block>, landed: Landing, overwrite: bool,
                   step: nat)
    returns (calls': seq<Call>, parsed': seq<nat>, height': nat, latest': nat, rest: seq<Option<nat>>, cut: bool)
    requires step > 0 && LandsElsewhere(landed, store, if end > 0 then Some(end) else None, overwrite)
    requires start <= height && (end > 0 ==> height < end)
    requires parsed == Wanted(start, height, store, overwrite) && height == Reached(calls, start)
    ensures cut ==> calls' == calls && calls + SyncCalls(height, end, stable, latest, heads) == calls
    ensures !cut ==> calls' + SyncCalls(height', end, stable, latest', rest) ==
                     calls + SyncCalls(height, end, stable, latest, heads)
    ensures parsed' == Wanted(start, height', store, overwrite) && height' == Reached(calls', start)
    ensures LatestReply(latest', rest) == LatestReply(latest, heads) && |rest| <= |heads|
    ensures cut ==> height' == height && height + stable > LatestReply(latest, heads)
    ensures !cut ==> height < height' && (end > 0 ==> height' <= end)
    ensures !cut && |rest| == |heads| ==> height + stable <= latest == latest'
    ensures !cut && end == 0 ==> height' + stable > latest'
  {
    ghost var before := SyncCalls(height, end, stable, latest, heads);
    var last;
    last, latest', rest := NextLast(height, end, stable, latest, heads);
    if last.None? {
      assert calls + [] == calls;
      return calls, parsed, height, latest', rest, true;
    }
    var more := SyncRange(height, last.value, store, landed, if end > 0 then Some(end) else None, overwrite, step);
    OneMoreCall(calls, parsed, start, height, last.value, more, store, overwrite);
    MoveCall(calls, Call(height, last.value), before, SyncCalls(last.value + 1, end, stable, latest', rest));
    calls', parsed', height', cut := calls + [Call(height, last.value)], parsed + more, last.value + 1, false;
  }

  /** The loop of `doSync`; the run is cut off (`done` is false) when a request has no reply yet. The ranges are those
      of the specification and end where the worker stands, the blocks parsed are exactly the wanted ones, a run that is
      cut off has synced everything the last reply confirms, and the rest of the range strictly decreases. */
  method DoSync(start: nat, end: nat, stable: nat, heads: seq<Option<nat>>, store: set<Block>, landed: Landing,
                overwrite: bool, step: nat)
    returns (calls: seq<Call>, parsed: seq<nat>, height: nat, done: bool)
    requires step > 0 && LandsElsewhere(landed, store, if end > 0 then Some(end) else None, overwrite)
    ensures calls == SyncCalls(start, end, stable, end, heads)
    ensures height == Reached(calls, start) && parsed == Wanted(start, height, store, overwrite)
    ensures done <==> end > 0 && height >= end
    ensures done && start < end ==> height == end
    ensures !done ==> height + stable > LatestReply(end, heads)
  {
    var latest, rest := end, heads;
    height := start;
    calls, parsed, done := [], [], false;
    while !(end > 0 && height >= end)
      invariant calls + SyncCalls(height, end, stable, latest, rest) == SyncCalls(start, end, stable, end, heads)
      invariant LatestReply(latest, rest) == LatestReply(end, heads)
      invariant height == Reached(calls, start) && parsed == Wanted(start, height, store, overwrite)
      invariant start <= height && (end > 0 && start < end ==> height <= end)
      decreases |rest|, if end > 0 then end - height else if height + stable > latest then 0 else 1
    {
      var cut;
      calls, parsed, height, latest, rest, cut :=
        SyncRound(start, calls, parsed, height, end, stable, latest, rest, store, landed, overwrite, step);
      if cut {
        return;
      }
    }
    done := true;
  }

  lemma MoveCall(calls: seq<Call>, next: Call, before: seq<Call>, after: seq<Call>)
    requires before == [next] + after
    ensures calls + before == calls + [next] + after
  {
  }

  // ----- confirmation -----

  /** `h` lies `stable` blocks below `known` or below a chain head the worker was told. */
  predicate Confirmed(h: nat, stable: nat, known: nat, heads: seq<Option<nat>>)
  {
    h + stable <= known || exists k :: 0 <= k < |heads| && heads[k].Some? && h + stable <= heads[k].value
  }

  predicate AllConfirmed(calls: seq<Call>, stable: nat, known: nat, heads: seq<Option<nat>>)
  {
    forall i :: 0 <= i < |calls| ==> Confirmed(calls[i].to, stable, known, heads)
  }

  lemma ConfirmedLater(h: nat, stable: nat, known: nat, heads: seq<Option<nat>>)
    requires |heads| > 0
    requires Confirmed(h, stable, if heads[0].Some? then heads[0].value else known, heads[1..])
    ensures Confirmed(h, stable, known, heads)
  {
    if k :| 0 <= k < |heads[1..]| && heads[1..][k].Some? && h + stable <= heads[1..][k].value {
      assert heads[k + 1] == heads[1..][k];
    }
  }

  /** Every range is confirmed by a reply or by what the worker took for the head at first, and stays below its end. */
  lemma {:induction false} CallsConfirmed(height: nat, end: nat, stable: nat, latest: nat, heads: seq<Option<nat>>)
    ensures AllConfirmed(SyncCalls(height, end, stable, latest, heads), stable, latest, heads)
    ensures end > 0 ==> forall c :: c in SyncCalls(height, end, stable, latest, heads) ==> c.to < end
    decreases |heads|, if end > 0 then end - height else if height + stable > latest then 0 else 1
  {
    var calls := SyncCalls(height, end, stable, latest, heads);
    if !(end > 0 && height >= end) && height + stable <= latest {
      CallsConfirmed(LastOf(latest, end, stable) + 1, end, stable, latest, heads);
    } else if !(end > 0 && height >= end) && |heads| > 0 {
      CallsConfirmed(height, end, stable, if heads[0].Some? then heads[0].value else latest, heads[1..]);
      forall i | 0 <= i < |calls|
        ensures Confirmed(calls[i].to, stable, latest, heads)
      {
        ConfirmedLater(calls[i].to, stable, latest, heads);
      }
    }
  }

  /** A worker that has to ask before its first range is confirmed by the replies alone. */
  lemma {:induction false} AskedCallsConfirmed(height: nat, end: nat, stable: nat, latest: nat, known: nat,
                                               heads: seq<Option<nat>>)
    requires height + stable > latest
    ensures AllConfirmed(SyncCalls(height, end, stable, latest, heads), stable, known, heads)
    decreases |heads|
  {
    var calls := SyncCalls(height, end, stable, latest, heads);
    if !(end > 0 && height >= end) && |heads| > 0 {
      if heads[0].Some? {
        CallsConfirmed(height, end, stable, heads[0].value, heads[1..]);
      } else {
        AskedCallsConfirmed(height, end, stable, latest, known, heads[1..]);
      }
      forall i | 0 <= i < |calls|
        ensures Confirmed(calls[i].to, stable, known, heads)
      {
        ConfirmedLater(calls[i].to, stable, known, heads);
      }
    }
  }

  /** Whatever heads are reported to the worker, everything it parses is confirmed by one of them or by the head `known`
      when it was set up. */
  ghost predicate AlwaysConfirmed(start: nat, end: nat, stable: nat, known: nat)
  {
    forall heads :: AllConfirmed(SyncCalls(start, end, stable, end, heads), stable, known, heads)
  }

  /** The exact condition, since a worker takes its own end for the chain head until it asks: either it has nothing to
      do, or it must ask before its first range, or that first range lies below the known head. */
  lemma AlwaysConfirmedIff(start: nat, end: nat, stable: nat, known: nat)
    ensures AlwaysConfirmed(start, end, stable, known) <==>
            (end > 0 && start >= end) || start + stable > end || LastOf(end, end, stable) + stable <= known
  {
    if (end > 0 && start >= end) || start + stable > end {
      forall heads
        ensures AllConfirmed(SyncCalls(start, end, stable, end, heads), stable, known, heads)
      {
        if start + stable > end {
          AskedCallsConfirmed(start, end, stable, end, known, heads);
        }
      }
    } else {
      var last := LastOf(end, end, stable);
      if last + stable <= known {
        forall heads
          ensures AllConfirmed(SyncCalls(start, end, stable, end, heads), stable, known, heads)
        {
          RestConfirmed(last + 1, end, stable, known, heads);
        }
      } else {
        assert SyncCalls(start, end, stable, end, [])[0] == Call(start, last);
        assert !Confirmed(last, stable, known, []);
      }
    }
  }

  lemma RestConfirmed(height: nat, end: nat, stable: nat, known: nat, heads: seq<Option<nat>>)
    requires height + stable > end || (end > 0 && height >= end)
    ensures AllConfirmed(SyncCalls(height, end, stable, end, heads), stable, known, heads)
  {
    if height + stable > end {
      AskedCallsConfirmed(height, end, stable, end, known, heads);
    }
  }

  /** With an end beyond the chain, 971 heights are taken for confirmed before any head has been reported. */
  lemma EndTakenForHead()
    ensures SyncCalls(0, 1000, 30, 1000, []) == [Call(0, 970)]
    ensures !AlwaysConfirmed(0, 1000, 30, 999)
  {
    assert SyncCalls(971, 1000, 30, 1000, []) == [];
    AlwaysConfirmedIff(0, 1000, 30, 999);
  }

  /** In endless mode every worker's end lies at most at the head known when the work was dispatched, so everything is
      confirmed by real heads. */
  lemma DispatchedConfirmed(spans: seq<Span>, start: nat, last: nat, stable: nat, head: nat, i: nat)
    requires Tiles(spans, start, last) && last <= head && i < |spans|
    ensures AlwaysConfirmed(spans[i].start, spans[i].end, stable, head)
    ensures AlwaysConfirmed(last, 0, stable, head)
  {
    if i < |spans| - 1 {
      TilesOrdered(spans, start, last, i, |spans| - 1);
    }
    AlwaysConfirmedIff(spans[i].start, spans[i].end, stable, head);
    AlwaysConfirmedIff(last, 0, stable, head);
  }
}
