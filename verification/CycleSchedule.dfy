/** Which windows the distribution runner settles (distributer/distribute.go). */
module CycleSchedule {
  import opened Wrappers
  import opened Words
  import opened Steps
  import opened Rewards
  import opened SyncRanges
  import opened Stability

  /** `calcCurCycleStart`, in the source's machine arithmetic. */
  function CurCycleStart(latest: nat, start: nat, stable: nat, cycleLen: nat): nat
    requires cycleLen > 0
  {
    var cycles := Wrap(Wrap(latest - start) - stable) / cycleLen;
    Wrap(start + Wrap(cycles * cycleLen))
  }

  lemma WrapMinus(a: int, b: int)
    ensures Wrap(Wrap(a) - b) == Wrap(a - b)
  {
  }

  lemma QuotientBounds(x: nat, len: nat)
    requires len > 0
    ensures x / len * len == x - x % len
    ensures 0 <= x % len < len && x % len <= x
  {
    FloorBounds(x, len);
    assert len * (x / len) == x / len * len;
    assert x == len * (x / len) + x % len;
    DivMonotone(0, x, len);
    MultipleNonNegative(x / len, len);
  }

  lemma MultipleNonNegative(q: int, len: nat)
    requires q >= 0
    ensures q * len >= 0
  {
  }

  lemma MultipleMod(x: nat, len: nat)
    requires len > 0
    ensures (x - x % len) % len == 0
  {
    QuotientBounds(x, len);
    MulDiv(len, x / len);
    FloorBounds(x / len * len, len);
    assert len * (x / len) == x / len * len;
  }

  /** What the machine arithmetic computes, for every input: with `x` the wrapped distance of the stable head from the
      start, the whole cycles in `x` after the start, wrapped once more. */
  lemma CurCycleStartIs(latest: nat, start: nat, stable: nat, cycleLen: nat)
    requires cycleLen > 0
    ensures
      var x := Wrap(latest - start - stable);
      CurCycleStart(latest, start, stable, cycleLen) == Wrap(start + (x - x % cycleLen))
  {
    WrapMinus(latest - start, stable);
    var x := Wrap(latest - start - stable);
    QuotientBounds(x, cycleLen);
    WrapSmall(x - x % cycleLen);
  }

  /** A whole number of cycles after the start. */
  predicate OnGrid(r: int, start: int, cycleLen: nat)
    requires cycleLen > 0
  {
    start <= r && (r - start) % cycleLen == 0
  }

  /** The whole cycles counted, as a number `w` of heights. */
  lemma WholeCycles(latest: nat, start: nat, stable: nat, cycleLen: nat) returns (w: nat)
    requires cycleLen > 0
    ensures
      var x := Wrap(latest - start - stable);
      w <= x < w + cycleLen
    ensures w % cycleLen == 0 && CurCycleStart(latest, start, stable, cycleLen) == Wrap(start + w)
  {
    var x := Wrap(latest - start - stable);
    CurCycleStartIs(latest, start, stable, cycleLen);
    QuotientBounds(x, cycleLen);
    MultipleMod(x, cycleLen);
    w := x - x % cycleLen;
  }

  lemma OnGridAfter(start: nat, w: nat, cycleLen: nat)
    requires cycleLen > 0 && w % cycleLen == 0
    ensures OnGrid(start + w, start, cycleLen)
  {
    assert start + w - start == w;
  }

  /** Once the head has passed the start by the stable height, the first cycle is the one the stable head is in. */
  lemma FirstCycleHoldsStableHead(latest: nat, start: nat, stable: nat, cycleLen: nat)
    requires cycleLen > 0 && start + stable <= latest < TWO_TO_THE_64
    ensures
      var r := CurCycleStart(latest, start, stable, cycleLen);
      OnGrid(r, start, cycleLen) && r <= latest - stable < r + cycleLen
  {
    var w := WholeCycles(latest, start, stable, cycleLen);
    WrapSmall(latest - start - stable);
    WrapSmall(start + w);
    OnGridAfter(start, w, cycleLen);
  }

  lemma OnGridIff(start: nat, cycles: nat, cycleLen: nat)
    requires cycleLen > 0 && start < TWO_TO_THE_64 && cycles < TWO_TO_THE_64 && cycles % cycleLen == 0
    ensures OnGrid(Wrap(start + cycles), start, cycleLen) <==> start + cycles < TWO_TO_THE_64
  {
    if start + cycles < TWO_TO_THE_64 {
      WrapSmall(start + cycles);
      OnGridAfter(start, cycles, cycleLen);
    } else {
      WrapPlus(start + cycles - TWO_TO_THE_64);
    }
  }

  lemma WrapPlus(x: nat)
    requires x < TWO_TO_THE_64
    ensures Wrap(x + TWO_TO_THE_64) == x
  {
  }

  /** For all machine integers: the first cycle lies on the grid from the configured start exactly when the head has
      passed the start by the stable height, or the wrapped whole cycles happen to stay below 2^64. */
  lemma FirstCycleOnGridIff(latest: nat, start: nat, stable: nat, cycleLen: nat)
    requires cycleLen > 0
    requires latest < TWO_TO_THE_64 && start < TWO_TO_THE_64 && stable < TWO_TO_THE_64
    ensures
      var x := Wrap(latest - start - stable);
      OnGrid(CurCycleStart(latest, start, stable, cycleLen), start, cycleLen) <==>
      latest >= start + stable || start + (x - x % cycleLen) < TWO_TO_THE_64
  {
    if latest >= start + stable {
      FirstCycleHoldsStableHead(latest, start, stable, cycleLen);
    } else {
      var x := Wrap(latest - start - stable);
      CurCycleStartIs(latest, start, stable, cycleLen);
      QuotientBounds(x, cycleLen);
      MultipleMod(x, cycleLen);
      OnGridIff(start, x - x % cycleLen, cycleLen);
    }
  }

  /** On a chain longer than a cycle and the stable height the wrapped cycles do not stay below: the first cycle lies on
      the grid exactly when the head has passed the start by the stable height. Until then it begins before the
      configured start, just below the stable head, and cycles nobody configured are settled. */
  lemma FirstCycleAlignedIff(latest: nat, start: nat, stable: nat, cycleLen: nat)
    requires 0 < cycleLen && stable + cycleLen <= latest
    requires latest < TWO_TO_THE_64 && start < TWO_TO_THE_64
    ensures
      var r := CurCycleStart(latest, start, stable, cycleLen);
      && r <= latest - stable < r + cycleLen
      && (OnGrid(r, start, cycleLen) <==> latest >= start + stable)
      && (r < start <==> latest < start + stable)
  {
    if latest >= start + stable {
      FirstCycleHoldsStableHead(latest, start, stable, cycleLen);
    } else {
      var w := WholeCycles(latest, start, stable, cycleLen);
      WrappedStart(latest, start, stable, cycleLen, w);
    }
  }

  /** Before that, the distance from the start wraps once, and so does the sum. */
  lemma WrappedStart(latest: nat, start: nat, stable: nat, cycleLen: nat, w: nat)
    requires stable + cycleLen <= latest < start + stable
    requires latest < TWO_TO_THE_64 && start < TWO_TO_THE_64
    requires w <= Wrap(latest - start - stable) < w + cycleLen
    ensures Wrap(start + w) <= latest - stable < Wrap(start + w) + cycleLen && Wrap(start + w) < start
  {
    WrapPlus(start + w - TWO_TO_THE_64);
  }

  /** With the start at 1000 and the head at 100, cycles are settled from 88 on. */
  lemma FirstCycleBeforeStart()
    ensures CurCycleStart(100, 1000, 10, 7) == 88
  {
    var w := WholeCycles(100, 1000, 10, 7);
    assert Wrap(100 - 1000 - 10) == TWO_TO_THE_64 - 910;
    WrapPlus(88);
  }

  datatype Runner = Runner(stable: nat, byLiquidCycleLen: nat, byVolumeCycleLen: nat, quick: bool)

  /** `initDistributer`, as far as the cycle lengths go. */
  function InitDistributer(stable: nat, byLiquidCycleLen: nat, byVolumeCycleLen: nat, quick: bool): Option<Runner>
  {
    if byLiquidCycleLen == 0 || byVolumeCycleLen == 0 || byLiquidCycleLen % byVolumeCycleLen != 0 then None
    else Some(Runner(stable, byLiquidCycleLen, byVolumeCycleLen, quick))
  }

  predicate ValidRunner(r: Runner)
  {
    r.byLiquidCycleLen > 0 && r.byVolumeCycleLen > 0 && r.byLiquidCycleLen % r.byVolumeCycleLen == 0
  }

  /** The configuration check and the runner accept the same cycle lengths, and an accepted runner is valid. */
  lemma CheckedCyclesRun(stable: nat, byLiquidCycleLen: nat, byVolumeCycleLen: nat, quick: bool)
    ensures InitDistributer(stable, byLiquidCycleLen, byVolumeCycleLen, quick).Some? <==>
            CycleOk(byVolumeCycleLen, byLiquidCycleLen)
    ensures InitDistributer(stable, byLiquidCycleLen, byVolumeCycleLen, quick).Some? ==>
              ValidRunner(InitDistributer(stable, byLiquidCycleLen, byVolumeCycleLen, quick).value)
  {
    if 0 < byLiquidCycleLen < byVolumeCycleLen {
      SmallDiv(byLiquidCycleLen, byVolumeCycleLen);
    }
  }

  /** A window that is waited for and settled, or passed over. */
  datatype Event = Settled(window: Span) | Skipped(window: Span)

  function QuickEvent(window: Span, latest: nat): Event
  {
    if window.end < latest then Skipped(window) else Settled(window)
  }

  function StepWindow(cycleStart: nat, step: nat, k: nat): Span
  {
    Span(StepStart(cycleStart, step, k), StepStart(cycleStart, step, k) + step)
  }

  /** The first `n` windows of a cycle in quick mode. */
  function QuickEvents(cycleStart: nat, step: nat, n: nat, latest: nat): (r: seq<Event>)
    ensures |r| == n
  {
    seq(n, k requires 0 <= k < n => QuickEvent(StepWindow(cycleStart, step, k), latest))
  }

  /** What one cycle does; `latest` is the head sampled at its start. */
  function CycleEvents(r: Runner, cycleStart: nat, latest: nat): seq<Event>
    requires ValidRunner(r)
  {
    if r.quick then QuickEvents(cycleStart, r.byVolumeCycleLen, r.byLiquidCycleLen / r.byVolumeCycleLen, latest)
    else [Settled(Span(cycleStart, cycleStart + r.byLiquidCycleLen))]
  }

  lemma WholeSteps(cycleStart: nat, cycleLen: nat, step: nat)
    requires step > 0 && cycleLen > 0 && cycleLen % step == 0
    ensures cycleLen / step > 0 && StepStart(cycleStart, step, cycleLen / step) == cycleStart + cycleLen
  {
    StepStartIs(cycleStart, step, cycleLen / step);
  }

  method SettleQuick(cycleStart: nat, cycleEnd: nat, step: nat, latest: nat) returns (events: seq<Event>)
    requires step > 0 && cycleStart < cycleEnd && (cycleEnd - cycleStart) % step == 0
    ensures events == QuickEvents(cycleStart, step, (cycleEnd - cycleStart) / step, latest)
  {
    events := [];
    var start := cycleStart;
    ghost var n := (cycleEnd - cycleStart) / step;
    ghost var k := 0;
    WholeSteps(cycleStart, cycleEnd - cycleStart, step);
    while start < cycleEnd
      invariant k <= n && start == StepStart(cycleStart, step, k)
      invariant events == QuickEvents(cycleStart, step, k, latest)
      decreases n - k
    {
      if start + step < latest {
        events := events + [Skipped(Span(start, start + step))];
      } else {
        events := events + [Settled(Span(start, start + step))];
      }
      start, k := start + step, k + 1;
    }
    if k < n {
      StepStartsOrdered(cycleStart, step, k, n);
    }
  }

  /** `settleVolumeRewards`. */
  method SettleVolumeRewards(r: Runner, cycleStart: nat, cycleEnd: nat, latest: nat) returns (events: seq<Event>)
    requires ValidRunner(r) && cycleEnd == cycleStart + r.byLiquidCycleLen
    ensures events == CycleEvents(r, cycleStart, latest)
  {
    if !r.quick {
      return [Settled(Span(cycleStart, cycleEnd))];
    }
    events := SettleQuick(cycleStart, cycleEnd, r.byVolumeCycleLen, latest);
  }

  /** All cycles so far; `latests` are the heads sampled at their starts. */
  function AllEvents(r: Runner, first: nat, latests: seq<nat>): seq<Event>
    requires ValidRunner(r)
  {
    if |latests| == 0 then []
    else
      var n := |latests| - 1;
      AllEvents(r, first, latests[..n]) + CycleEvents(r, StepStart(first, r.byLiquidCycleLen, n), latests[n])
  }

  /** `runVolumeDistribute`, for as many cycles as heads are given. */
  method RunVolumeDistribute(r: Runner, first: nat, latests: seq<nat>) returns (events: seq<Event>)
    requires ValidRunner(r)
    ensures events == AllEvents(r, first, latests)
  {
    events := [];
    var curCycleStart := first;
    for i := 0 to |latests|
      invariant curCycleStart == StepStart(first, r.byLiquidCycleLen, i)
      invariant events == AllEvents(r, first, latests[..i])
    {
      var curCycleEnd := curCycleStart + r.byLiquidCycleLen;
      var more := SettleVolumeRewards(r, curCycleStart, curCycleEnd, latests[i]);
      assert latests[..i + 1][..i] == latests[..i];
      events := events + more;
      curCycleStart := curCycleEnd;
    }
    assert latests[..|latests|] == latests;
  }

  function WindowsOf(events: seq<Event>): (r: seq<Span>)
    ensures |r| == |events|
  {
    seq(|events|, i requires 0 <= i < |events| => events[i].window)
  }

  lemma TilesConcat(s: seq<Span>, t: seq<Span>, a: nat, b: nat, c: nat)
    requires Tiles(s, a, b) && Tiles(t, b, c)
    ensures Tiles(s + t, a, c)
  {
  }

  lemma {:induction false} QuickTiles(cycleStart: nat, step: nat, n: nat, latest: nat)
    requires step > 0
    ensures Tiles(WindowsOf(QuickEvents(cycleStart, step, n, latest)), cycleStart, StepStart(cycleStart, step, n))
  {
    if n > 0 {
      QuickTiles(cycleStart, step, n - 1, latest);
      var before := WindowsOf(QuickEvents(cycleStart, step, n - 1, latest));
      var last := StepWindow(cycleStart, step, n - 1);
      assert WindowsOf(QuickEvents(cycleStart, step, n, latest)) == before + [last];
      TilesConcat(before, [last], cycleStart, last.start, last.end);
    }
  }

  lemma CycleTiles(r: Runner, cycleStart: nat, latest: nat)
    requires ValidRunner(r)
    ensures EventsTile(CycleEvents(r, cycleStart, latest), cycleStart, cycleStart + r.byLiquidCycleLen)
  {
    if r.quick {
      WholeSteps(cycleStart, r.byLiquidCycleLen, r.byVolumeCycleLen);
      QuickTiles(cycleStart, r.byVolumeCycleLen, r.byLiquidCycleLen / r.byVolumeCycleLen, latest);
    }
  }

  /** The windows of the events follow each other from `a` to `b` without gap or overlap. */
  predicate EventsTile(events: seq<Event>, a: nat, b: nat)
  {
    Tiles(WindowsOf(events), a, b)
  }

  lemma EventsAppend(before: seq<Event>, more: seq<Event>, a: nat, b: nat, c: nat)
    requires EventsTile(before, a, b) && EventsTile(more, b, c)
    ensures EventsTile(before + more, a, c)
  {
    assert WindowsOf(before + more) == WindowsOf(before) + WindowsOf(more);
    TilesConcat(WindowsOf(before), WindowsOf(more), a, b, c);
  }

  /** Whole-run safety: in either mode the windows follow each other without gap or overlap from the first cycle on, so
      none is settled twice, none overlaps another, and each cycle ends exactly at its end. */
  lemma {:induction false} WindowsNeverOverlap(r: Runner, first: nat, latests: seq<nat>)
    requires ValidRunner(r)
    ensures EventsTile(AllEvents(r, first, latests), first, StepStart(first, r.byLiquidCycleLen, |latests|))
  {
    if |latests| > 0 {
      var n := |latests| - 1;
      var start := StepStart(first, r.byLiquidCycleLen, n);
      WindowsNeverOverlap(r, first, latests[..n]);
      CycleTiles(r, start, latests[n]);
      EventsAppend(AllEvents(r, first, latests[..n]), CycleEvents(r, start, latests[n]),
                   first, start, start + r.byLiquidCycleLen);
    }
  }

  /** The number of windows of a cycle. */
  function CycleWindows(r: Runner): nat
    requires ValidRunner(r)
  {
    if r.quick then r.byLiquidCycleLen / r.byVolumeCycleLen else 1
  }

  /** The `k`-th window of the cycle that begins at `cycleStart`. */
  function CycleWindow(r: Runner, cycleStart: nat, k: nat): Span
  {
    if r.quick then StepWindow(cycleStart, r.byVolumeCycleLen, k)
    else Span(cycleStart, cycleStart + r.byLiquidCycleLen)
  }

  lemma CycleEventIs(r: Runner, cycleStart: nat, latest: nat, k: nat)
    requires ValidRunner(r) && k < CycleWindows(r)
    ensures |CycleEvents(r, cycleStart, latest)| == CycleWindows(r)
    ensures
      var e := CycleEvents(r, cycleStart, latest)[k];
      e.window == CycleWindow(r, cycleStart, k) && (e.Skipped? <==> r.quick && e.window.end < latest)
  {
    if r.quick {
      assert CycleEvents(r, cycleStart, latest)[k] == QuickEvent(StepWindow(cycleStart, r.byVolumeCycleLen, k), latest);
    }
  }

  lemma {:induction false} EventCount(r: Runner, first: nat, latests: seq<nat>)
    requires ValidRunner(r)
    ensures CycleWindows(r) > 0 && |AllEvents(r, first, latests)| == |latests| * CycleWindows(r)
  {
    WholeSteps(first, r.byLiquidCycleLen, r.byVolumeCycleLen);
    if |latests| > 0 {
      var n := |latests| - 1;
      EventCount(r, first, latests[..n]);
      CycleEventIs(r, StepStart(first, r.byLiquidCycleLen, n), latests[n], 0);
      NextMultiple(n, CycleWindows(r));
    }
  }

  lemma Position(i: nat, count: nat, n: nat, k: nat)
    requires i == n * count + k && k < count
    ensures i / count == n && i % count == k
  {
    FloorBounds(i, count);
    if i / count < n {
      MulOrder(count, i / count, n);
    } else if i / count > n {
      MulOrder(count, n, i / count);
    }
    assert n * count == count * n;
  }

  /** Every event of a run, by its position: it concerns the window of its place in its cycle, and the window is passed
      over exactly when the runner is in quick mode and the window ended before the head sampled at the start of that
      very cycle; everything else is settled. */
  lemma {:induction false} EventsAre(r: Runner, first: nat, latests: seq<nat>, i: nat)
    requires ValidRunner(r) && i < |latests| * CycleWindows(r)
    ensures CycleWindows(r) > 0 && |AllEvents(r, first, latests)| == |latests| * CycleWindows(r)
    ensures 0 <= i / CycleWindows(r) < |latests|
    ensures
      var n, k := i / CycleWindows(r), i % CycleWindows(r);
      var e := AllEvents(r, first, latests)[i];
      && e.window == CycleWindow(r, StepStart(first, r.byLiquidCycleLen, n), k)
      && (e.Skipped? <==> r.quick && e.window.end < latests[n])
  {
    var n := |latests| - 1;
    EventCount(r, first, latests);
    EventCount(r, first, latests[..n]);
    var before := AllEvents(r, first, latests[..n]);
    if i < |before| {
      EventsAre(r, first, latests[..n], i);
      assert AllEvents(r, first, latests)[i] == before[i];
    } else {
      var k := i - |before|;
      NextMultiple(n, CycleWindows(r));
      Position(i, CycleWindows(r), n, k);
      CycleEventIs(r, StepStart(first, r.byLiquidCycleLen, n), latests[n], k);
      assert AllEvents(r, first, latests)[i] == CycleEvents(r, StepStart(first, r.byLiquidCycleLen, n), latests[n])[k];
    }
  }

  predicate AllSettled(events: seq<Event>)
  {
    forall i :: 0 <= i < |events| ==> events[i].Settled?
  }

  /** A quick-mode cycle settles all its windows exactly when the head sampled at its start is not past the end of the
      first one. */
  lemma CycleSettlesAllIff(r: Runner, cycleStart: nat, latest: nat)
    requires ValidRunner(r) && r.quick
    ensures AllSettled(CycleEvents(r, cycleStart, latest)) <==> latest <= cycleStart + r.byVolumeCycleLen
  {
    var step := r.byVolumeCycleLen;
    var events := CycleEvents(r, cycleStart, latest);
    WholeSteps(cycleStart, r.byLiquidCycleLen, step);
    assert events[0] == QuickEvent(StepWindow(cycleStart, step, 0), latest);
    forall i | 0 <= i < |events|
      ensures events[i] == QuickEvent(StepWindow(cycleStart, step, i), latest)
      ensures StepWindow(cycleStart, step, i).end >= cycleStart + step
    {
      if i > 0 {
        StepStartsOrdered(cycleStart, step, 0, i);
      }
    }
  }

  /** Quick mode and deep confirmation do not go together. A cycle starts once the previous one's last window is
      confirmed, and by then the head is past the end of the new cycle's first window if the two depths exceed a volume
      cycle: that window is passed over and never settled, in every cycle that follows a settled one. */
  lemma QuickModeDropsFirstWindow(r: Runner, cycleStart: nat, configured: Depths, head: nat, record: nat,
                                  run: seq<State>, n: nat, latest: nat)
    requires ValidRunner(r) && r.quick && r.stable == Moved(configured).dist
    requires Run(run, head, record, Moved(configured).sync) && n < |run|
    requires record + Moved(configured).sync <= head
    requires WaitEnds(run[n].record, cycleStart, r.stable) && latest >= run[n].head
    requires Moved(configured).dist + Moved(configured).sync > r.byVolumeCycleLen
    ensures |CycleEvents(r, cycleStart, latest)| > 0
    ensures CycleEvents(r, cycleStart, latest)[0] == Skipped(Span(cycleStart, cycleStart + r.byVolumeCycleLen))
  {
    ConfirmedByBothDepths(configured, head, record, run, n, cycleStart);
    WholeSteps(cycleStart, r.byLiquidCycleLen, r.byVolumeCycleLen);
    assert CycleEvents(r, cycleStart, latest)[0] == QuickEvent(StepWindow(cycleStart, r.byVolumeCycleLen, 0), latest);
  }
}
