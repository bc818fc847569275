/** A whole synchronisation (`doSyncWork` and `checkSync` in syncer/sync.go): what the workers want of their ranges, put
    through the concurrent parsers. */
module SyncRun {
  import opened Wrappers
  import opened SyncRanges
  import opened ParserPipeline

  function Heights(plan: seq<Message>): (r: seq<nat>)
    ensures |r| == |plan|
  {
    seq(|plan|, i requires 0 <= i < |plan| => plan[i].height)
  }

  /** Each worker hands over the blocks that `doSync` wants of its range; `store` is what was stored before. */
  ghost predicate Planned(ws: seq<Worker>, spans: seq<Span>, store: set<Block>, overwrite: bool)
  {
    |ws| == |spans| &&
    forall k :: 0 <= k < |ws| ==> Heights(ws[k].plan) == Wanted(spans[k].start, spans[k].end, store, overwrite)
  }

  /** The blocks of all plans, worker after worker. */
  function AllHeights(ws: seq<Worker>): seq<nat>
  {
    if |ws| == 0 then [] else AllHeights(ws[..|ws| - 1]) + Heights(ws[|ws| - 1].plan)
  }

  /** What the workers hand over, worker after worker, is what one worker would hand over for the whole range: every
      wanted block once and no other. */
  lemma {:induction false} WorkersParseRange(ws: seq<Worker>, spans: seq<Span>, start: nat, end: nat,
                                             store: set<Block>, overwrite: bool)
    requires Tiles(spans, start, end) && Planned(ws, spans, store, overwrite)
    ensures start <= end && AllHeights(ws) == Wanted(start, end, store, overwrite)
  {
    if |spans| > 0 {
      var n := |spans| - 1;
      WorkersParseRange(ws[..n], spans[..n], start, spans[n].start, store, overwrite);
      WantedConcat(start, spans[n].start, end, store, overwrite);
    }
  }

  /** The heights whose block records the worker's parser has stored. */
  ghost function StoredBy(w: Worker): set<nat>
  {
    set i | 0 <= i < |w.jobs| && i < |w.plan| && w.jobs[i].block == Finished :: w.plan[i].height
  }

  ghost function Stored(ws: seq<Worker>): set<nat>
  {
    set k, h | 0 <= k < |ws| && h in StoredBy(ws[k]) :: h
  }

  /** The heights the worker's parser has received. Their block records may have been stored, whether or not the tasks
      that store them are done. */
  ghost function ReceivedBy(w: Worker): set<nat>
  {
    set i | 0 <= i < |w.jobs| && i < |w.plan| :: w.plan[i].height
  }

  ghost function Received(ws: seq<Worker>): set<nat>
  {
    set k, h | 0 <= k < |ws| && h in ReceivedBy(ws[k]) :: h
  }

  lemma WantedIs(lo: nat, hi: nat, store: set<Block>, overwrite: bool)
    ensures forall h :: h in Wanted(lo, hi, store, overwrite) <==> lo <= h < hi && (overwrite || h !in Numbers(store))
  {
    MissingIs(lo, hi, Kept(store, overwrite));
  }

  /** At any time, what a parser has received was wanted of its worker's range. */
  lemma ReceivedWasWanted(w: Worker, span: Span, store: set<Block>, overwrite: bool, h: nat)
    requires Heights(w.plan) == Wanted(span.start, span.end, store, overwrite)
    requires h in ReceivedBy(w)
    ensures span.start <= h < span.end && (overwrite || h !in Numbers(store))
  {
    WantedIs(span.start, span.end, store, overwrite);
    var i :| 0 <= i < |w.jobs| && i < |w.plan| && w.plan[i].height == h;
    assert Heights(w.plan)[i] == h;
    assert h in Wanted(span.start, span.end, store, overwrite);
  }

  /** A worker that has parsed everything has stored exactly what was wanted. */
  lemma DrainedStored(w: Worker, span: Span, store: set<Block>, overwrite: bool)
    requires |w.jobs| == |w.plan| && Heights(w.plan) == Wanted(span.start, span.end, store, overwrite)
    requires forall i :: 0 <= i < |w.jobs| ==> Done(w.jobs[i], false)
    ensures forall h :: h in StoredBy(w) <==> span.start <= h < span.end && (overwrite || h !in Numbers(store))
  {
    WantedIs(span.start, span.end, store, overwrite);
    forall h | h in Heights(w.plan)
      ensures h in StoredBy(w)
    {
      var i :| 0 <= i < |w.plan| && Heights(w.plan)[i] == h;
      assert w.jobs[i].block == Finished && w.plan[i].height == h;
    }
    forall h | h in StoredBy(w)
      ensures span.start <= h < span.end && (overwrite || h !in Numbers(store))
    {
      assert h in ReceivedBy(w);
      ReceivedWasWanted(w, span, store, overwrite, h);
    }
  }

  /** When `doSyncWork` gets past its wait, in any interleaving, the parsers have stored exactly the wanted blocks of
      the whole range: those missing before, or all of them when overwriting. */
  lemma StoredWhenReturned(run: seq<System>, n: nat, spans: seq<Span>, start: nat, end: nat, store: set<Block>,
                           overwrite: bool)
    requires Run(run, false) && n < |run| && run[n].returned
    requires Tiles(spans, start, end) && Planned(run[0].workers, spans, store, overwrite)
    ensures forall h :: h in Stored(run[n].workers) <==> start <= h < end && (overwrite || h !in Numbers(store))
  {
    ReturnsOnlyWhenDrained(run, n, false);
    var ws := run[n].workers;
    forall k | 0 <= k < |ws|
      ensures forall h :: h in StoredBy(ws[k]) <==>
                spans[k].start <= h < spans[k].end && (overwrite || h !in Numbers(store))
    {
      assert ws[k].plan == run[0].workers[k].plan;
      DrainedStored(ws[k], spans[k], store, overwrite);
    }
    SpansCover(ws, spans, start, end, store, overwrite);
  }

  lemma SpansCover(ws: seq<Worker>, spans: seq<Span>, start: nat, end: nat, store: set<Block>, overwrite: bool)
    requires Tiles(spans, start, end) && |ws| == |spans|
    requires forall k :: 0 <= k < |ws| ==> forall h :: h in StoredBy(ws[k]) <==>
               spans[k].start <= h < spans[k].end && (overwrite || h !in Numbers(store))
    ensures forall h :: h in Stored(ws) <==> start <= h < end && (overwrite || h !in Numbers(store))
  {
    forall h: nat | start <= h < end && (overwrite || h !in Numbers(store))
      ensures h in Stored(ws)
    {
      TilesPartition(spans, start, end, h);
      var k :| 0 <= k < |spans| && spans[k].start <= h < spans[k].end;
      assert h in StoredBy(ws[k]);
    }
    forall h | h in Stored(ws)
      ensures start <= h < end && (overwrite || h !in Numbers(store))
    {
      var k :| 0 <= k < |ws| && h in StoredBy(ws[k]);
      SpanWithin(spans, start, end, k);
    }
  }

  lemma SpanWithin(spans: seq<Span>, start: nat, end: nat, k: nat)
    requires Tiles(spans, start, end) && k < |spans|
    ensures start <= spans[k].start < spans[k].end <= end
  {
    if 0 < k {
      TilesOrdered(spans, start, end, 0, k);
    }
    if k < |spans| - 1 {
      TilesOrdered(spans, start, end, k, |spans| - 1);
    }
  }

  /** So every height of the range is stored by then, and the check that follows finds nothing to parse. */
  lemma CheckFindsNothing(run: seq<System>, n: nat, spans: seq<Span>, start: nat, end: nat, store: set<Block>,
                          overwrite: bool)
    requires Run(run, false) && n < |run| && run[n].returned
    requires Tiles(spans, start, end) && Planned(run[0].workers, spans, store, overwrite)
    ensures forall h :: start <= h < end ==> h in Numbers(store) + Stored(run[n].workers)
    ensures Missing(start, end, Numbers(store) + Stored(run[n].workers)) == []
  {
    StoredWhenReturned(run, n, spans, start, end, store, overwrite);
    MissingNone(start, end, Numbers(store) + Stored(run[n].workers));
  }

  /** The worker is at the chunk that begins at `from`: it has handed over what it wanted below. */
  ghost predicate AtChunk(s: System, k: nat, spans: seq<Span>, store: set<Block>, overwrite: bool, from: nat)
  {
    && k < |s.workers| == |spans| && spans[k].start <= from <= spans[k].end
    && s.workers[k].sent == |Wanted(spans[k].start, from, store, overwrite)|
  }

  /** Meanwhile the parsers do not disturb a worker: at every moment of every interleaving, all that any of them can
      have stored lies below the chunk the worker is at, or from the end of its range on, and is missing from the store
      unless overwriting. */
  lemma ParsersLandElsewhere(run: seq<System>, n: nat, spans: seq<Span>, start: nat, end: nat, store: set<Block>,
                             overwrite: bool, k: nat, from: nat, h: nat)
    requires Run(run, false) && n < |run|
    requires Tiles(spans, start, end) && Planned(run[0].workers, spans, store, overwrite)
    requires AtChunk(run[n], k, spans, store, overwrite, from)
    requires h in Received(run[n].workers)
    ensures h < from || spans[k].end <= h
    ensures overwrite || h !in Numbers(store)
  {
    PlansKept(run, n, false);
    RunInv(run, n, false);
    var ws := run[n].workers;
    var j :| 0 <= j < |ws| && h in ReceivedBy(ws[j]);
    assert ws[j].plan == run[0].workers[j].plan;
    ReceivedWasWanted(ws[j], spans[j], store, overwrite, h);
    if j == k {
      OwnLandsBelow(ws[k], spans[k], store, overwrite, from, h);
    } else if j < k {
      TilesOrdered(spans, start, end, j, k);
    } else {
      TilesOrdered(spans, start, end, k, j);
    }
  }

  lemma OwnLandsBelow(w: Worker, span: Span, store: set<Block>, overwrite: bool, from: nat, h: nat)
    requires |w.jobs| <= w.sent <= |w.plan| && Heights(w.plan) == Wanted(span.start, span.end, store, overwrite)
    requires span.start <= from <= span.end && w.sent == |Wanted(span.start, from, store, overwrite)|
    requires h in ReceivedBy(w)
    ensures h < from
  {
    WantedConcat(span.start, from, span.end, store, overwrite);
    WantedIs(span.start, from, store, overwrite);
    var i :| 0 <= i < |w.jobs| && i < |w.plan| && w.plan[i].height == h;
    assert Heights(w.plan)[i] == h && Wanted(span.start, from, store, overwrite)[i] == h;
    assert h in Wanted(span.start, from, store, overwrite);
  }

  /** What the parsers may have stored by some moment of a run: at most one block for each height received. */
  ghost predicate LandedBy(blocks: set<Block>, s: System)
  {
    UniqueNumbers(blocks) && forall b :: b in blocks ==> b.number in Received(s.workers)
  }

  lemma UniqueTogether(store: set<Block>, blocks: set<Block>)
    requires UniqueNumbers(store) && UniqueNumbers(blocks)
    requires forall b :: b in blocks ==> b.number !in Numbers(store)
    ensures UniqueNumbers(store + blocks)
  {
    forall b, b' | b in store + blocks && b' in store + blocks && b.number == b'.number
      ensures b == b'
    {
      assert b in store ==> b.number in Numbers(store);
      assert b' in store ==> b'.number in Numbers(store);
    }
  }

  lemma LandedClear(run: seq<System>, n: nat, spans: seq<Span>, start: nat, end: nat, store: set<Block>,
                    overwrite: bool, k: nat, from: nat, blocks: set<Block>)
    requires Run(run, false) && n < |run|
    requires Tiles(spans, start, end) && Planned(run[0].workers, spans, store, overwrite)
    requires overwrite || UniqueNumbers(store)
    requires AtChunk(run[n], k, spans, store, overwrite, from) && LandedBy(blocks, run[n])
    ensures LandsClear(blocks, store, from, Some(spans[k].end), overwrite)
  {
    forall b | b in blocks
      ensures b.number < from || spans[k].end <= b.number
      ensures overwrite || b.number !in Numbers(store)
    {
      ParsersLandElsewhere(run, n, spans, start, end, store, overwrite, k, from, b.number);
    }
    if !overwrite {
      UniqueTogether(store, blocks);
      forall to | from <= to
        ensures CountIsRight(store + blocks, from, to)
      {
        UniqueCountsRight(store + blocks, from, to);
      }
    }
  }

  /** All that `doSync` assumes about its surroundings holds in every run, for every worker: whichever moments its
      chunks are queried at, and whatever the parsers have stored by then. Only the store as it was before must have
      unique block numbers, unless overwriting. */
  lemma RunLandsElsewhere(run: seq<System>, spans: seq<Span>, start: nat, end: nat, store: set<Block>, overwrite: bool,
                          k: nat, moment: nat -> nat, landed: Landing)
    requires Run(run, false)
    requires Tiles(spans, start, end) && Planned(run[0].workers, spans, store, overwrite)
    requires overwrite || UniqueNumbers(store)
    requires k < |spans|
    requires forall from :: landed(from) == {} ||
               (moment(from) < |run| && AtChunk(run[moment(from)], k, spans, store, overwrite, from) &&
                LandedBy(landed(from), run[moment(from)]))
    ensures LandsElsewhere(landed, store, Some(spans[k].end), overwrite)
  {
    forall from: nat
      ensures LandsClear(landed(from), store, from, Some(spans[k].end), overwrite)
    {
      if landed(from) == {} {
        NothingLandedClear(store, from, Some(spans[k].end), overwrite);
      } else {
        LandedClear(run, moment(from), spans, start, end, store, overwrite, k, from, landed(from));
      }
    }
  }

  lemma NothingLandedClear(store: set<Block>, from: nat, limit: Option<nat>, overwrite: bool)
    requires overwrite || UniqueNumbers(store)
    ensures LandsClear({}, store, from, limit, overwrite)
  {
    if !overwrite {
      assert store + {} == store;
      forall to | from <= to
        ensures CountIsRight(store, from, to)
      {
        UniqueCountsRight(store, from, to);
      }
    }
  }
}
