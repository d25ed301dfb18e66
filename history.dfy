/** The bounded histories the dashboards keep of the socket's system
    stats (`hooks/use-system-history.ts`, `pages/Dashboard.tsx`,
    `pages/dashboard/dashboard.screen.tsx`, `pages/dashboard.tsx`): each
    arrival appends one point and keeps the last `maxPoints`; nothing is
    recorded while the stats are `null`. The clock string of a point is
    given by the caller. The newer dashboard also shows the CPU change
    between the two latest points. */
module SystemHistory {
  import opened Wrappers
  import opened Lists

  /** The part of the socket's stats the histories read. */
  datatype Stats = Stats(cpu: real, ramUsed: int, ramTotal: int)

  /** A point of `useSystemHistory`. */
  datatype HistoryPoint = HistoryPoint(time: string, cpu: real, ram: real)

  /** A point of the CPU-only histories of `Dashboard.tsx` and
      `dashboard.tsx`. */
  datatype CpuPoint = CpuPoint(time: string, cpu: real)

  /** A point of the newer dashboard screen, whose RAM percent has no zero
      guard: `None` stands for the non-finite quotient of a zero total. */
  datatype ScreenPoint = ScreenPoint(time: string, cpu: real, ram: Option<real>)

  /** `ram_used / ram_total * 100` when the total is positive, else 0. */
  function GuardedRam(s: Stats): (r: real)
    ensures s.ramTotal > 0 ==> r * s.ramTotal as real == s.ramUsed as real * 100.0
    ensures s.ramTotal <= 0 ==> r == 0.0
  {
    if s.ramTotal > 0 then (s.ramUsed as real / s.ramTotal as real) * 100.0 else 0.0
  }

  /** `ram_used / ram_total * 100` with no guard: a number unless the
      total is zero. */
  function UnguardedRam(s: Stats): (r: Option<real>)
    ensures r.None? <==> s.ramTotal == 0
    ensures r.Some? ==> r.value * s.ramTotal as real == s.ramUsed as real * 100.0
  {
    if s.ramTotal == 0 then None else Some((s.ramUsed as real / s.ramTotal as real) * 100.0)
  }

  function HookPoint(s: Stats, time: string): HistoryPoint {
    HistoryPoint(time, s.cpu, GuardedRam(s))
  }

  function CpuPointOf(s: Stats, time: string): CpuPoint {
    CpuPoint(time, s.cpu)
  }

  function ScreenPointOf(s: Stats, time: string): ScreenPoint {
    ScreenPoint(time, s.cpu, UnguardedRam(s))
  }

  /** The hook reports a zero RAM percent where the screen has no number. */
  lemma ZeroTotalRam(s: Stats, time: string)
    requires s.ramTotal == 0
    ensures HookPoint(s, time).ram == 0.0 && ScreenPointOf(s, time).ram.None?
  {
  }

  /** `maxPoints` of `useSystemHistory` (30 when not given) and the fixed
      bounds of the three dashboards. */
  function HookMaxPoints(given: Option<nat>): nat {
    given.GetOr(30)
  }
  const DashboardPoints: nat := 20
  const ScreenPoints: nat := 30
  const CompactDashboardPoints: nat := 30

  /** `[...prev, point].slice(-maxPoints)`: the new point is last, the
      rest is the end of what was there, and a history within the bound
      stays within it. `slice(-0)` keeps everything. */
  function Appended<P>(prev: seq<P>, point: P, maxPoints: nat): (r: seq<P>)
    ensures 0 < |r| <= |prev| + 1 && r[|r| - 1] == point
    ensures r == (prev + [point])[|prev| + 1 - |r|..]
    ensures maxPoints > 0 && |prev| <= maxPoints ==> |r| <= maxPoints
    ensures |prev| < maxPoints || maxPoints == 0 ==> r == prev + [point]
  {
    KeepLast(prev + [point], maxPoints)
  }

  /** Appending to a trimmed history trims like appending to the whole
      record: the history is always the most recent points received, in
      arrival order. */
  lemma {:induction false} AppendedKeepsRecent<P>(received: seq<P>, point: P, maxPoints: nat)
    ensures Appended(KeepLast(received, maxPoints), point, maxPoints) == KeepLast(received + [point], maxPoints)
  {
    var s := received + [point];
    if maxPoints > 0 && |received| > maxPoints {
      var kept := KeepLast(received, maxPoints);
      assert kept == received[|received| - maxPoints..];
      var r := Appended(kept, point, maxPoints);
      assert |r| == maxPoints;
      calc {
        r;
        (kept + [point])[1..];
        received[|received| - maxPoints + 1..] + [point];
        s[|s| - maxPoints..];
      }
    }
  }

  /** A history of points of type `P`, updated on every arrival of stats. */
  class History<P> {
    var points: seq<P>
    /** Every point made so far, oldest first. */
    ghost var received: seq<P>
    const maxPoints: nat
    /** How a page turns stats and the clock string into a point. */
    const toPoint: (Stats, string) -> P

    ghost predicate Valid()
      reads this
    {
      points == KeepLast(received, maxPoints)
    }

    constructor(maxPoints: nat, toPoint: (Stats, string) -> P)
      ensures Valid() && points == [] && received == []
      ensures this.maxPoints == maxPoints && this.toPoint == toPoint
    {
      points := [];
      received := [];
      this.maxPoints := maxPoints;
      this.toPoint := toPoint;
    }

    /** The effect run when the stats change: `null` stats leave the
        history as it is; otherwise the new point is appended and the
        history trimmed. */
    method OnStats(stats: Option<Stats>, time: string)
      requires Valid()
      modifies this
      ensures Valid()
      ensures stats.None? ==> points == old(points) && received == old(received)
      ensures stats.Some? ==> received == old(received) + [toPoint(stats.value, time)]
      ensures stats.Some? ==> points == Appended(old(points), toPoint(stats.value, time), maxPoints)
    {
      if stats.Some? {
        var point := toPoint(stats.value, time);
        AppendedKeepsRecent(received, point, maxPoints);
        points := Appended(points, point, maxPoints);
        received := received + [point];
      }
    }
  }

  /** Two arrivals on the 20-point dashboard: both points are kept, in
      order, and a missing update in between changes nothing. */
  method DashboardScenario(a: Stats, b: Stats) returns (history: seq<CpuPoint>)
    ensures history == [CpuPoint("10:00:00", a.cpu), CpuPoint("10:00:02", b.cpu)]
  {
    var h := new History<CpuPoint>(DashboardPoints, CpuPointOf);
    h.OnStats(Some(a), "10:00:00");
    h.OnStats(None, "10:00:01");
    h.OnStats(Some(b), "10:00:02");
    history := h.points;
  }

  // ---------------------------------------------------------------------
  // The CPU card of the newer dashboard

  /** `currentCpu`: the latest point's CPU, or the stats' own before any
      point exists. */
  function CurrentCpu<P>(history: seq<P>, cpuOf: P -> real, statsCpu: real): (c: real)
    ensures |history| > 0 ==> c == cpuOf(history[|history| - 1])
    ensures |history| == 0 ==> c == statsCpu
  {
    if |history| > 0 then cpuOf(history[|history| - 1]) else statsCpu
  }

  /** `prevCpu`: the point before the latest, or the current value. */
  function PrevCpu<P>(history: seq<P>, cpuOf: P -> real, statsCpu: real): (c: real)
    ensures |history| > 1 ==> c == cpuOf(history[|history| - 2])
    ensures |history| <= 1 ==> c == CurrentCpu(history, cpuOf, statsCpu)
  {
    if |history| > 1 then cpuOf(history[|history| - 2]) else CurrentCpu(history, cpuOf, statsCpu)
  }

  function CpuDiff<P>(history: seq<P>, cpuOf: P -> real, statsCpu: real): real {
    CurrentCpu(history, cpuOf, statsCpu) - PrevCpu(history, cpuOf, statsCpu)
  }

  datatype ChangeType = Positive | Negative | Neutral

  /** `changeType` of a stat card. */
  function ChangeTypeOf(diff: real): (t: ChangeType)
    ensures t == Positive <==> diff > 0.0
    ensures t == Negative <==> diff < 0.0
    ensures t == Neutral <==> diff == 0.0
  {
    if diff > 0.0 then Positive else if diff < 0.0 then Negative else Neutral
  }

  /** The sign written before the change. */
  function ChangePrefix(diff: real): string {
    if diff >= 0.0 then "+" else ""
  }

  /** The '+' is written exactly when the change is not negative, so a
      neutral change reads "+0.0%". */
  lemma PrefixMatchesChange(diff: real)
    ensures ChangePrefix(diff) == "+" <==> ChangeTypeOf(diff) != Negative
    ensures ChangePrefix(diff) == "" <==> ChangeTypeOf(diff) == Negative
  {
  }

  function ScreenCpu(p: ScreenPoint): real {
    p.cpu
  }

  /** With fewer than two points the change is zero and neutral. */
  lemma ShortHistoryNeutral<P>(history: seq<P>, cpuOf: P -> real, statsCpu: real)
    requires |history| < 2
    ensures CpuDiff(history, cpuOf, statsCpu) == 0.0
    ensures ChangeTypeOf(CpuDiff(history, cpuOf, statsCpu)) == Neutral
  {
  }

  /** After an arrival on a non-empty screen history, the card shows the
      new CPU value and its change from the previous latest point. */
  lemma DiffAfterArrival(prev: seq<ScreenPoint>, s: Stats, time: string, statsCpu: real)
    requires 1 <= |prev| <= ScreenPoints
    ensures var h := Appended(prev, ScreenPointOf(s, time), ScreenPoints);
      CurrentCpu(h, ScreenCpu, statsCpu) == s.cpu &&
      CpuDiff(h, ScreenCpu, statsCpu) == s.cpu - prev[|prev| - 1].cpu
  {
    var p := ScreenPointOf(s, time);
    var h := Appended(prev, p, ScreenPoints);
    if |prev| < ScreenPoints {
      assert h == prev + [p];
    } else {
      assert h == (prev + [p])[1..];
      assert h[|h| - 2] == prev[|prev| - 1];
    }
  }
}
