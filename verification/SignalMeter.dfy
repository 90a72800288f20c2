/** The per-socket meter on relayed signals (src/server.js): SIGNAL_RATE per SIGNAL_WINDOW_MS. */
module SignalMeter {
  import opened Collections

  // The counters are JavaScript numbers pushed through `| 0`, so they wrap.

  const TWO_31 := 0x8000_0000
  const TWO_32 := 0x1_0000_0000

  /** `x | 0` */
  function ToInt32(x: int): int {
    (x + TWO_31) % TWO_32 - TWO_31
  }

  /** The meter's fields on a connection, and its share of `signalRateLimitedTotal`. */
  datatype Meter = Meter(winStart: int, winCount: int, winLogged: bool, limited: nat, reported: int, rows: nat)

  /** One relay attempt as the meter saw it. */
  datatype Tick = Tick(at: int, start: int, relayed: bool)

  const FRESH := Meter(0, 0, false, 0, 0, 0)

  /** `!conn.sigWinStart` is also true of a window that started at time 0. */
  function Roll(m: Meter, window: int, now: int): Meter {
    if m.winStart == 0 || now - m.winStart >= window then m.(winStart := now, winCount := 0, winLogged := false) else m
  }

  function Count(m: Meter): Meter {
    m.(winCount := ToInt32(m.winCount) + 1)
  }

  function Drop(m: Meter): Meter {
    m.(limited := m.limited + 1, reported := ToInt32(m.reported) + 1,
       winLogged := true, rows := m.rows + if m.winLogged then 0 else 1)
  }

  function Attempt(m: Meter, rate: int, window: int, now: int): (Meter, bool) {
    if rate <= 0 then (m, true)
    else
      var m1 := Count(Roll(m, window, now));
      if m1.winCount > rate then (Drop(m1), false) else (m1, true)
  }

  // ----- Whole runs -----

  datatype Trace = Trace(meter: Meter, ticks: seq<Tick>)

  function Metered(t: Trace, rate: int, window: int, now: int): Trace {
    var (m, ok) := Attempt(t.meter, rate, window, now);
    Trace(m, t.ticks + [Tick(now, m.winStart, ok)])
  }

  function Run(rate: int, window: int, times: seq<int>): (t: Trace)
    ensures |t.ticks| == |times|
  {
    var n := |times| - 1;
    if times == [] then Trace(FRESH, []) else Metered(Run(rate, window, times[..n]), rate, window, times[n])
  }

  /** The clock does not run backwards, and it is not the epoch's first millisecond. */
  ghost predicate Clocked(times: seq<int>) {
    && (forall i :: 0 <= i < |times| ==> times[i] != 0)
    && (forall i, j :: 0 <= i < j < |times| ==> times[i] <= times[j])
  }

  /** The attempts metered in the window that started at `start`. */
  ghost function AttemptsOf(h: seq<Tick>, start: int): nat {
    if h == [] then 0
    else AttemptsOf(h[..|h| - 1], start) + if h[|h| - 1].start == start then 1 else 0
  }

  ghost function RelayedOf(h: seq<Tick>, start: int): nat {
    if h == [] then 0
    else RelayedOf(h[..|h| - 1], start) + if h[|h| - 1].start == start && h[|h| - 1].relayed then 1 else 0
  }

  /** The signals relayed at a time in [lo, hi). */
  ghost function RelayedIn(h: seq<Tick>, lo: int, hi: int): nat {
    if h == [] then 0
    else RelayedIn(h[..|h| - 1], lo, hi) + if lo <= h[|h| - 1].at < hi && h[|h| - 1].relayed then 1 else 0
  }

  ghost function Relayed(h: seq<Tick>): nat {
    if h == [] then 0 else Relayed(h[..|h| - 1]) + if h[|h| - 1].relayed then 1 else 0
  }

  /** The windows in which something was dropped. */
  ghost function LimitedWindows(h: seq<Tick>): set<int> {
    if h == [] then {}
    else LimitedWindows(h[..|h| - 1]) + if h[|h| - 1].relayed then {} else {h[|h| - 1].start}
  }

  // ----- The wrapping counter -----

  /** The counter after n increments. */
  ghost function Counter(n: nat): int {
    if n == 0 then 0 else ToInt32(Counter(n - 1)) + 1
  }

  lemma NextRemainder(y: nat)
    ensures (y % TWO_32 + 1) % TWO_32 == (y + 1) % TWO_32
  {
  }

  lemma {:induction false} CounterWraps(n: nat)
    ensures Counter(n) == if n == 0 then 0 else (n - 1 + TWO_31) % TWO_32 - TWO_31 + 1
  {
    if n > 1 {
      CounterWraps(n - 1);
      NextRemainder(n - 2 + TWO_31);
    }
  }

  /** How many of the first n attempts of a window get through. */
  ghost function Allowed(n: nat, rate: int): nat {
    if n == 0 then 0 else Allowed(n - 1, rate) + if Counter(n) <= rate then 1 else 0
  }

  lemma {:induction false} AllowedBeforeWrap(n: nat, rate: int)
    requires rate > 0 && n <= TWO_31
    ensures Allowed(n, rate) == Min(n, rate)
  {
    if n > 0 {
      AllowedBeforeWrap(n - 1, rate);
      CounterIsRightUntilItWraps(n);
    }
  }

  lemma {:induction false} AllowedUnderHugeRate(n: nat, rate: int)
    requires rate >= TWO_31
    ensures Allowed(n, rate) == n
  {
    if n > 0 {
      AllowedUnderHugeRate(n - 1, rate);
      CounterWraps(n);
    }
  }

  lemma {:induction false} AllowedGrows(a: nat, b: nat, rate: int)
    requires a <= b
    ensures Allowed(a, rate) <= Allowed(b, rate)
    decreases b
  {
    if a < b { AllowedGrows(a, b - 1, rate); }
  }

  /** The first attempt past the wrap counts as far below any rate. */
  lemma PastTheWrap(n: nat, rate: int)
    requires n == TWO_31 + 1 && 0 < rate < TWO_31
    ensures Allowed(n, rate) == rate + 1
  {
    AllowedBeforeWrap(n - 1, rate);
    CounterWraps(n);
    assert (n - 1 + TWO_31) % TWO_32 == 0;
  }

  /** A window keeps to its rate exactly as long as its counter has not wrapped. */
  lemma AllowedKeepsRateIff(n: nat, rate: int)
    requires rate > 0
    ensures Allowed(n, rate) <= rate <==> n <= Max(rate, TWO_31)
  {
    if rate >= TWO_31 {
      AllowedUnderHugeRate(n, rate);
    } else if n <= TWO_31 {
      AllowedBeforeWrap(n, rate);
    } else {
      var w: nat :| w == TWO_31 + 1;
      PastTheWrap(w, rate);
      AllowedGrows(w, n, rate);
    }
  }

  /** Without a rate there is no meter: everything is relayed and nothing is kept. */
  lemma {:induction false} NoRateRelaysAll(rate: int, window: int, times: seq<int>)
    requires rate <= 0
    ensures Run(rate, window, times).meter == FRESH && Relayed(Run(rate, window, times).ticks) == |times|
  {
    if times != [] { NoRateRelaysAll(rate, window, times[..|times| - 1]); }
  }

  // ----- What every run keeps -----

  /** Two windows never overlap: the later starts after everything in the earlier, and a whole window on. */
  ghost predicate Separate(h: seq<Tick>, window: int) {
    && (forall i :: 0 <= i < |h| ==> h[i].start <= h[i].at)
    && (forall i, j :: 0 <= i < j < |h| ==>
          && h[i].at <= h[j].at
          && (h[i].start == h[j].start || (h[i].at <= h[j].start && h[i].start + window <= h[j].start)))
  }

  /** Every window's relays are what its counter allows. */
  ghost predicate Counted(h: seq<Tick>, rate: int) {
    forall s :: RelayedOf(h, s) == Allowed(AttemptsOf(h, s), rate)
  }

  /** The fields describe the window in progress, in a history ending in that window. */
  ghost predicate Current(m: Meter, h: seq<Tick>) {
    && m.winCount == Counter(AttemptsOf(h, m.winStart))
    && (m.winLogged <==> m.winStart in LimitedWindows(h))
    && m.rows == |LimitedWindows(h)|
    && m.limited + Relayed(h) == |h|
    && m.reported == Counter(m.limited)
  }

  ghost predicate Kept(t: Trace, rate: int, window: int) {
    && Separate(t.ticks, window)
    && Counted(t.ticks, rate)
    && Current(t.meter, t.ticks)
    && (if t.ticks == [] then t.meter == FRESH else t.meter.winStart == t.ticks[|t.ticks| - 1].start != 0)
  }

  lemma {:induction false} NoneOfLater(h: seq<Tick>, start: int)
    requires forall i :: 0 <= i < |h| ==> h[i].start != start
    ensures AttemptsOf(h, start) == 0 && start !in LimitedWindows(h)
  {
    if h != [] {
      assert h[|h| - 1].start != start;
      NoneOfLater(h[..|h| - 1], start);
    }
  }

  lemma RollKeeps(t: Trace, rate: int, window: int, now: int)
    requires Kept(t, rate, window) && window > 0 && now != 0
    requires forall i :: 0 <= i < |t.ticks| ==> t.ticks[i].at <= now
    ensures
      var m := Roll(t.meter, window, now);
      && Current(m, t.ticks) && m.winStart != 0 && m.winStart <= now
      && Separate(t.ticks + [Tick(now, m.winStart, true)], window)
  {
    var m := Roll(t.meter, window, now);
    var h := t.ticks;
    var n := |h| - 1;
    if m.winStart != t.meter.winStart {
      forall i | 0 <= i < |h|
        ensures h[i].start + window <= now
      {
        assert i < n ==> h[i].start == h[n].start || h[i].start + window <= h[n].start;
      }
      NoneOfLater(h, now);
    }
    if h != [] {
      forall i | 0 <= i < |h|
        ensures h[i].start == m.winStart || (h[i].at <= m.winStart && h[i].start + window <= m.winStart)
      {
        assert i < n ==> h[i].start == h[n].start || (h[i].at <= h[n].start && h[i].start + window <= h[n].start);
      }
    }
  }

  /** One more tick, seen by each of the counts. */
  lemma Append(h: seq<Tick>, t: Tick)
    ensures forall s :: AttemptsOf(h + [t], s) == AttemptsOf(h, s) + if t.start == s then 1 else 0
    ensures forall s :: RelayedOf(h + [t], s) == RelayedOf(h, s) + if t.start == s && t.relayed then 1 else 0
    ensures Relayed(h + [t]) == Relayed(h) + if t.relayed then 1 else 0
    ensures LimitedWindows(h + [t]) == LimitedWindows(h) + if t.relayed then {} else {t.start}
  {
    assert (h + [t])[..|h|] == h;
  }

  lemma CountedKeeps(h: seq<Tick>, rate: int, t: Tick)
    requires Counted(h, rate) && (t.relayed <==> Counter(AttemptsOf(h, t.start) + 1) <= rate)
    ensures Counted(h + [t], rate)
  {
    Append(h, t);
  }

  lemma RelayKeeps(m: Meter, h: seq<Tick>, now: int)
    requires Current(m, h)
    ensures Current(Count(m), h + [Tick(now, m.winStart, true)])
  {
    Append(h, Tick(now, m.winStart, true));
  }

  lemma DropKeeps(m: Meter, h: seq<Tick>, now: int)
    requires Current(m, h)
    ensures Current(Drop(Count(m)), h + [Tick(now, m.winStart, false)])
  {
    Append(h, Tick(now, m.winStart, false));
    var k := AttemptsOf(h, m.winStart);
    assert ToInt32(Counter(k)) + 1 == Counter(k + 1);
    assert ToInt32(Counter(m.limited)) + 1 == Counter(m.limited + 1);
  }

  /** What one metered attempt leaves behind. */
  lemma MeteredIs(t: Trace, rate: int, window: int, now: int)
    requires rate > 0
    ensures
      var m := Roll(t.meter, window, now);
      var ok := Count(m).winCount <= rate;
      Metered(t, rate, window, now) ==
      Trace(if ok then Count(m) else Drop(Count(m)), t.ticks + [Tick(now, m.winStart, ok)])
  {
  }

  lemma CurrentKeeps(m: Meter, h: seq<Tick>, now: int, ok: bool)
    requires Current(m, h)
    ensures Current(if ok then Count(m) else Drop(Count(m)), h + [Tick(now, m.winStart, ok)])
  {
    if ok { RelayKeeps(m, h, now); } else { DropKeeps(m, h, now); }
  }

  lemma CountedNext(m: Meter, h: seq<Tick>, rate: int, now: int)
    requires Current(m, h) && Counted(h, rate)
    ensures Counted(h + [Tick(now, m.winStart, Count(m).winCount <= rate)], rate)
  {
    assert Count(m).winCount == Counter(AttemptsOf(h, m.winStart) + 1);
    CountedKeeps(h, rate, Tick(now, m.winStart, Count(m).winCount <= rate));
  }

  lemma AttemptKeeps(t: Trace, rate: int, window: int, now: int)
    requires Kept(t, rate, window) && rate > 0 && window > 0 && now != 0
    requires forall i :: 0 <= i < |t.ticks| ==> t.ticks[i].at <= now
    ensures Kept(Metered(t, rate, window, now), rate, window)
  {
    RollKeeps(t, rate, window, now);
    var m := Roll(t.meter, window, now);
    var ok := Count(m).winCount <= rate;
    var h := t.ticks + [Tick(now, m.winStart, ok)];
    var t1 := Metered(t, rate, window, now);
    MeteredIs(t, rate, window, now);
    assert Counted(h, rate) by { CountedNext(m, t.ticks, rate, now); }
    assert Current(t1.meter, h) by { CurrentKeeps(m, t.ticks, now, ok); }
    assert Separate(h, window) by { SameShape(t.ticks, Tick(now, m.winStart, true), h[|h| - 1], window); }
  }

  lemma SameShape(h: seq<Tick>, a: Tick, b: Tick, window: int)
    requires Separate(h + [a], window) && a.at == b.at && a.start == b.start
    ensures Separate(h + [b], window)
  {
    var g := h + [a];
    assert forall i :: 0 <= i < |h| ==> g[i] == h[i];
    assert g[|h|] == a;
  }

  lemma {:induction false} RunTimes(rate: int, window: int, times: seq<int>)
    ensures forall i :: 0 <= i < |times| ==> Run(rate, window, times).ticks[i].at == times[i]
  {
    if times != [] { RunTimes(rate, window, times[..|times| - 1]); }
  }

  lemma {:induction false} RunKeeps(rate: int, window: int, times: seq<int>)
    requires rate > 0 && window > 0 && Clocked(times)
    ensures Kept(Run(rate, window, times), rate, window)
  {
    if times != [] {
      var n := |times| - 1;
      RunKeeps(rate, window, times[..n]);
      RunTimes(rate, window, times[..n]);
      AttemptKeeps(Run(rate, window, times[..n]), rate, window, times[n]);
    }
  }

  // ----- The rate -----

  /** Per window: at most the rate gets through, exactly until the counter wraps. */
  lemma WindowKeepsRateIff(rate: int, window: int, times: seq<int>, start: int)
    requires rate > 0 && window > 0 && Clocked(times)
    ensures
      var h := Run(rate, window, times).ticks;
      RelayedOf(h, start) <= rate <==> AttemptsOf(h, start) <= Max(rate, TWO_31)
  {
    RunKeeps(rate, window, times);
    AllowedKeepsRateIff(AttemptsOf(Run(rate, window, times).ticks, start), rate);
  }

  lemma {:induction false} OneWindowCovers(h: seq<Tick>, lo: int, hi: int, a: int)
    requires forall i :: 0 <= i < |h| && lo <= h[i].at < hi ==> h[i].start == a
    ensures RelayedIn(h, lo, hi) <= RelayedOf(h, a)
  {
    if h != [] {
      assert lo <= h[|h| - 1].at < hi ==> h[|h| - 1].start == a;
      OneWindowCovers(h[..|h| - 1], lo, hi, a);
    }
  }

  /** Two windows cover the interval, and one of them relayed something before it. */
  lemma {:induction false} TwoWindowsCover(h: seq<Tick>, lo: int, hi: int, a: int, b: int, j: nat)
    requires forall i :: 0 <= i < |h| && lo <= h[i].at < hi ==> h[i].start == a || h[i].start == b
    requires a != b && (j < |h| ==> h[j].start == a && h[j].relayed && h[j].at < lo)
    ensures RelayedIn(h, lo, hi) + (if j < |h| then 1 else 0) <= RelayedOf(h, a) + RelayedOf(h, b)
  {
    if h != [] {
      assert lo <= h[|h| - 1].at < hi ==> h[|h| - 1].start == a || h[|h| - 1].start == b;
      TwoWindowsCover(h[..|h| - 1], lo, hi, a, b, j);
    }
  }

  predicate Opens(t: Tick, start: int) {
    t.at == start && t.start == start && t.relayed
  }

  ghost predicate HasOpening(h: seq<Tick>, start: int) {
    exists j :: 0 <= j < |h| && Opens(h[j], start)
  }

  /** Every window so far opened with an attempt that was relayed. */
  ghost predicate Opened(h: seq<Tick>) {
    forall i :: 0 <= i < |h| ==> HasOpening(h, h[i].start)
  }

  lemma OpeningStays(h: seq<Tick>, t: Tick, start: int)
    requires HasOpening(h, start)
    ensures HasOpening(h + [t], start)
  {
    var j :| 0 <= j < |h| && Opens(h[j], start);
    assert (h + [t])[j] == h[j];
  }

  lemma OpenedOneMore(h: seq<Tick>, t: Tick)
    requires Opened(h) && (Opens(t, t.start) || (h != [] && t.start == h[|h| - 1].start))
    ensures Opened(h + [t])
  {
    var g := h + [t];
    forall i | 0 <= i < |g|
      ensures HasOpening(g, g[i].start)
    {
      if i < |h| {
        OpeningStays(h, t, h[i].start);
      } else if Opens(t, t.start) {
        assert Opens(g[|h|], t.start);
      } else {
        OpeningStays(h, t, h[|h| - 1].start);
      }
    }
  }

  /** An attempt opens its window, and is relayed, or belongs to the window of the one before. */
  lemma OpensOrContinues(t: Trace, rate: int, window: int, now: int)
    requires Kept(t, rate, window) && rate > 0
    ensures
      var tick := Metered(t, rate, window, now).ticks[|t.ticks|];
      Opens(tick, tick.start) || (t.ticks != [] && tick.start == t.ticks[|t.ticks| - 1].start)
  {
    MeteredIs(t, rate, window, now);
  }

  lemma {:induction false} RunOpens(rate: int, window: int, times: seq<int>)
    requires rate > 0 && window > 0 && Clocked(times)
    ensures Opened(Run(rate, window, times).ticks)
  {
    if times != [] {
      var n := |times| - 1;
      var t := Run(rate, window, times[..n]);
      RunOpens(rate, window, times[..n]);
      RunKeeps(rate, window, times[..n]);
      OpensOrContinues(t, rate, window, times[n]);
      OpenedOneMore(t.ticks, Metered(t, rate, window, times[n]).ticks[n]);
    }
  }

  /** The interval's first and last windows are all it meets; if they differ, the first opened before it. */
  lemma MeetsFirstOrLast(h: seq<Tick>, lo: int, window: int, f: nat, g: nat, i: nat)
    requires Separate(h, window) && f <= i <= g < |h| && lo <= h[f].at && h[g].at < lo + window
    ensures h[i].start == h[f].start || h[i].start == h[g].start
  {
    assert f < i ==> h[i].start == h[f].start || h[f].at <= h[i].start;
    assert i < g ==> h[i].start == h[g].start || h[i].start + window <= h[g].start;
  }

  lemma OpenedBefore(h: seq<Tick>, lo: int, window: int, f: nat, g: nat) returns (j: nat)
    requires Separate(h, window) && Opened(h) && f < g < |h| && h[g].at < lo + window && h[f].start != h[g].start
    ensures j < |h| && Opens(h[j], h[f].start) && h[j].at < lo
  {
    assert HasOpening(h, h[f].start);
    j :| 0 <= j < |h| && Opens(h[j], h[f].start);
    assert h[f].start + window <= h[g].start <= h[g].at;
  }

  lemma FirstFrom(h: seq<Tick>, lo: int, k: nat) returns (f: nat)
    requires k <= |h| && forall i, j :: 0 <= i < j < |h| ==> h[i].at <= h[j].at
    requires forall i :: 0 <= i < k ==> h[i].at < lo
    ensures f <= |h| && (forall i :: 0 <= i < f ==> h[i].at < lo) && (forall i :: f <= i < |h| ==> h[i].at >= lo)
    decreases |h| - k
  {
    if k == |h| || h[k].at >= lo {
      f := k;
    } else {
      f := FirstFrom(h, lo, k + 1);
    }
  }

  /** Has window `start` an attempt in the stretch of time one window long from `lo`? */
  ghost predicate Meets(h: seq<Tick>, start: int, lo: int, window: int) {
    exists i :: 0 <= i < |h| && h[i].start == start && lo <= h[i].at < lo + window
  }

  lemma TwoWindowsKeep(h: seq<Tick>, rate: int, lo: int, window: int, f: nat, g: nat)
    requires Separate(h, window) && Opened(h) && f <= g < |h| && lo <= h[f].at && h[g].at < lo + window
    requires forall i :: 0 <= i < |h| && lo <= h[i].at < lo + window ==> f <= i <= g
    requires RelayedOf(h, h[f].start) <= rate && RelayedOf(h, h[g].start) <= rate && rate > 0
    ensures RelayedIn(h, lo, lo + window) <= 2 * rate - 1
  {
    var a, b := h[f].start, h[g].start;
    forall i | 0 <= i < |h| && lo <= h[i].at < lo + window
      ensures h[i].start == a || h[i].start == b
    {
      MeetsFirstOrLast(h, lo, window, f, g, i);
    }
    if a == b {
      OneWindowCovers(h, lo, lo + window, a);
    } else {
      var j := OpenedBefore(h, lo, window, f, g);
      TwoWindowsCover(h, lo, lo + window, a, b, j);
    }
  }

  lemma {:induction false} NoneIn(h: seq<Tick>, lo: int, hi: int)
    requires forall i :: 0 <= i < |h| ==> !(lo <= h[i].at < hi)
    ensures RelayedIn(h, lo, hi) == 0
  {
    if h != [] { NoneIn(h[..|h| - 1], lo, hi); }
  }

  lemma MetWindowsKeep(h: seq<Tick>, rate: int, lo: int, window: int)
    requires rate > 0 && Separate(h, window) && Opened(h)
    requires forall s :: Meets(h, s, lo, window) ==> RelayedOf(h, s) <= rate
    ensures RelayedIn(h, lo, lo + window) <= 2 * rate - 1
  {
    var f := FirstFrom(h, lo, 0);
    var g := FirstFrom(h, lo + window, 0);
    if f >= g {
      NoneIn(h, lo, lo + window);
    } else {
      assert Meets(h, h[f].start, lo, window) && Meets(h, h[g - 1].start, lo, window);
      TwoWindowsKeep(h, rate, lo, window, f, g - 1);
    }
  }

  /**
   A stretch of time one window long, wherever it starts, relays at most twice the rate, less
   one, as long as the windows it meets have not wrapped; the others do not matter.
  */
  lemma AnyIntervalKeepsTwiceRate(rate: int, window: int, times: seq<int>, lo: int)
    requires rate > 0 && window > 0 && Clocked(times)
    requires var h := Run(rate, window, times).ticks;
      forall s :: Meets(h, s, lo, window) ==> AttemptsOf(h, s) <= Max(rate, TWO_31)
    ensures RelayedIn(Run(rate, window, times).ticks, lo, lo + window) <= 2 * rate - 1
  {
    var h := Run(rate, window, times).ticks;
    assert Separate(h, window) by { RunKeeps(rate, window, times); }
    RunOpens(rate, window, times);
    forall s | Meets(h, s, lo, window)
      ensures RelayedOf(h, s) <= rate
    {
      WindowKeepsRateIff(rate, window, times, s);
    }
    MetWindowsKeep(h, rate, lo, window);
  }

  // ----- Two bursts, the later as soon as its window opens -----

  /** One attempt at time 1, the rest of m just before the window ends, and m more as soon as it has. */
  function BurstTime(i: nat, m: nat, window: nat): int {
    if i == 0 then 1 else if i < m then window else window + 1
  }

  function Bursts(k: nat, m: nat, window: nat): (times: seq<int>)
    ensures |times| == k
  {
    seq(k, i requires 0 <= i => BurstTime(i, m, window))
  }

  ghost predicate BurstsSeen(t: Trace, k: nat, m: nat, window: nat) {
    var h, early, late := t.ticks, Min(k, m), Max(0, k - m);
    && t.meter.winStart == (if k == 0 then 0 else if k <= m then 1 else window + 1)
    && AttemptsOf(h, 1) == early && AttemptsOf(h, window + 1) == late
    && (forall s :: s != 1 && s != window + 1 ==> AttemptsOf(h, s) == 0)
    && RelayedIn(h, 2, 2 + window) + (if k == 0 then 0 else 1) == RelayedOf(h, 1) + RelayedOf(h, window + 1)
  }

  lemma BurstTick(t: Trace, rate: int, k: nat, m: nat, window: nat)
    requires BurstsSeen(t, k, m, window) && |t.ticks| == k && rate > 0 && window >= 2 && m > 0
    requires k == 0 ==> t == Trace(FRESH, [])
    ensures
      var now := BurstTime(k, m, window);
      var t1 := Metered(t, rate, window, now);
      var tick := t1.ticks[k];
      && t1.ticks == t.ticks + [tick] && tick.at == now
      && t1.meter.winStart == tick.start == (if k < m then 1 else window + 1)
      && (k == 0 ==> tick.relayed)
  {
    MeteredIs(t, rate, window, BurstTime(k, m, window));
  }

  lemma BurstStep(t: Trace, t1: Trace, k: nat, m: nat, window: nat)
    requires BurstsSeen(t, k, m, window) && |t.ticks| == k && window >= 2 && m > 0
    requires |t1.ticks| == k + 1 && t1.ticks == t.ticks + [t1.ticks[k]]
    requires
      var tick := t1.ticks[k];
      && tick.at == BurstTime(k, m, window) && (k == 0 ==> tick.relayed)
      && t1.meter.winStart == tick.start == (if k < m then 1 else window + 1)
    ensures BurstsSeen(t1, k + 1, m, window)
  {
    Append(t.ticks, t1.ticks[k]);
    AppendIn(t.ticks, t1.ticks[k], 2, 2 + window);
  }

  lemma {:induction false} SeeBursts(rate: int, k: nat, m: nat, window: nat)
    requires rate > 0 && window >= 2 && m > 0
    ensures BurstsSeen(Run(rate, window, Bursts(k, m, window)), k, m, window)
  {
    if k > 0 {
      var times := Bursts(k, m, window);
      assert times[..k - 1] == Bursts(k - 1, m, window);
      SeeBursts(rate, k - 1, m, window);
      var t := Run(rate, window, times[..k - 1]);
      BurstTick(t, rate, k - 1, m, window);
      BurstStep(t, Run(rate, window, times), k - 1, m, window);
    }
  }

  lemma AppendIn(h: seq<Tick>, t: Tick, lo: int, hi: int)
    ensures RelayedIn(h + [t], lo, hi) == RelayedIn(h, lo, hi) + if lo <= t.at < hi && t.relayed then 1 else 0
  {
    assert (h + [t])[..|h|] == h;
  }

  lemma SeenRelay(t: Trace, rate: int, m: nat, window: nat)
    requires BurstsSeen(t, 2 * m, m, window) && Counted(t.ticks, rate) && window >= 2 && m > 0
    ensures forall s :: AttemptsOf(t.ticks, s) <= m
    ensures RelayedIn(t.ticks, 2, 2 + window) == 2 * Allowed(m, rate) - 1
  {
  }

  lemma BurstsClocked(k: nat, m: nat, window: nat)
    requires window >= 2
    ensures Clocked(Bursts(k, m, window))
  {
  }

  /** What the two bursts relay within one window's length. */
  lemma BurstsRelay(rate: int, m: nat, window: nat)
    requires rate > 0 && window >= 2 && m > 0
    ensures
      var times := Bursts(2 * m, m, window);
      var h := Run(rate, window, times).ticks;
      && Clocked(times) && (forall s :: AttemptsOf(h, s) <= m)
      && RelayedIn(h, 2, 2 + window) == 2 * Allowed(m, rate) - 1
  {
    var times := Bursts(2 * m, m, window);
    var t := Run(rate, window, times);
    BurstsClocked(2 * m, m, window);
    SeeBursts(rate, 2 * m, m, window);
    assert Counted(t.ticks, rate) by { RunKeeps(rate, window, times); }
    SeenRelay(t, rate, m, window);
  }

  /** So less one is as far as it goes, */
  lemma TwiceRateLessOneIsMet(rate: nat, window: nat)
    requires 0 < rate <= TWO_31 && window >= 2
    ensures
      var h := Run(rate, window, Bursts(2 * rate, rate, window)).ticks;
      RelayedIn(h, 2, 2 + window) == 2 * rate - 1
  {
    BurstsRelay(rate, rate, window);
    AllowedBeforeWrap(rate, rate);
  }

  /** and one attempt too many in each window breaks even twice the rate. */
  lemma WrappedWindowsBreakTwiceRate(rate: int, m: nat, window: nat)
    requires rate > 0 && window >= 2 && m > Max(rate, TWO_31)
    ensures RelayedIn(Run(rate, window, Bursts(2 * m, m, window)).ticks, 2, 2 + window) > 2 * rate
  {
    BurstsRelay(rate, m, window);
    AllowedKeepsRateIff(m, rate);
  }

  ghost predicate IntervalKeeps(rate: int, window: int, times: seq<int>, lo: int, bound: int) {
    RelayedIn(Run(rate, window, times).ticks, lo, lo + window) <= bound
  }

  ghost predicate WindowsHold(rate: int, window: int, times: seq<int>, n: nat) {
    forall s :: AttemptsOf(Run(rate, window, times).ticks, s) <= n
  }

  /** With at most n attempts in each window, no interval of any run relays more than `bound`. */
  ghost predicate IntervalsKeep(rate: int, window: int, n: nat, bound: int) {
    forall times, lo ::
      Clocked(times) && WindowsHold(rate, window, times, n) ==> IntervalKeeps(rate, window, times, lo, bound)
  }

  lemma UnwrappedKeep(rate: int, window: nat, n: nat, bound: int)
    requires rate > 0 && window > 0 && n <= Max(rate, TWO_31) && bound >= 2 * rate - 1
    ensures IntervalsKeep(rate, window, n, bound)
  {
    forall times, lo | Clocked(times) && WindowsHold(rate, window, times, n)
      ensures IntervalKeeps(rate, window, times, lo, bound)
    {
      AnyIntervalKeepsTwiceRate(rate, window, times, lo);
    }
  }

  lemma WrappedBreak(rate: int, window: nat, n: nat, bound: int)
    requires rate > 0 && window >= 2 && n > Max(rate, TWO_31) && bound <= 2 * rate
    ensures !IntervalsKeep(rate, window, n, bound)
  {
    var times := Bursts(2 * n, n, window);
    BurstsRelay(rate, n, window);
    WrappedWindowsBreakTwiceRate(rate, n, window);
    assert WindowsHold(rate, window, times, n) && !IntervalKeeps(rate, window, times, 2, bound);
  }

  /** Exactly when the windows cannot wrap is every interval kept to twice the rate, and then to one less. */
  lemma IntervalsKeepTwiceRateIff(rate: int, window: nat, n: nat)
    requires rate > 0 && window >= 2
    ensures IntervalsKeep(rate, window, n, 2 * rate) <==> n <= Max(rate, TWO_31)
    ensures IntervalsKeep(rate, window, n, 2 * rate - 1) <==> n <= Max(rate, TWO_31)
  {
    if n <= Max(rate, TWO_31) {
      UnwrappedKeep(rate, window, n, 2 * rate);
      UnwrappedKeep(rate, window, n, 2 * rate - 1);
    } else {
      WrappedBreak(rate, window, n, 2 * rate);
      WrappedBreak(rate, window, n, 2 * rate - 1);
    }
  }

  /** Nothing is lost uncounted or unlogged; the count shown for the socket is right until it wraps. */
  lemma AttemptsAreAccounted(rate: int, window: int, times: seq<int>)
    requires rate > 0 && window > 0 && Clocked(times)
    ensures
      var t := Run(rate, window, times);
      && t.meter.limited + Relayed(t.ticks) == |times|
      && t.meter.rows == |LimitedWindows(t.ticks)|
      && (t.meter.reported == t.meter.limited <==> t.meter.limited <= TWO_31)
  {
    RunKeeps(rate, window, times);
    CounterIsRightUntilItWraps(Run(rate, window, times).meter.limited);
  }

  lemma CounterIsRightUntilItWraps(n: nat)
    ensures Counter(n) == n <==> n <= TWO_31
  {
    CounterWraps(n);
  }

  /** At time 0 the window never holds: every attempt opens a new one. */
  lemma {:induction false} TimeZeroIsUnmetered(rate: int, window: int, n: nat)
    requires rate > 0
    ensures
      var t := Run(rate, window, seq(n, _ => 0));
      t.meter.winStart == 0 && t.meter.limited == 0 && Relayed(t.ticks) == n
  {
    if n > 0 {
      var times := seq(n, _ => 0);
      assert times[..n - 1] == seq(n - 1, _ => 0);
      TimeZeroIsUnmetered(rate, window, n - 1);
      var t := Run(rate, window, times);
      assert t.ticks[..|t.ticks| - 1] == Run(rate, window, times[..n - 1]).ticks;
    }
  }

  lemma {:induction false} OneMoment(rate: int, window: int, n: nat)
    requires rate > 0 && window > 0
    ensures
      var t := Run(rate, window, seq(n, _ => 1));
      AttemptsOf(t.ticks, 1) == n && t.meter.winStart == if n == 0 then 0 else 1
  {
    if n > 0 {
      var times := seq(n, _ => 1);
      assert times[..n - 1] == seq(n - 1, _ => 1);
      OneMoment(rate, window, n - 1);
      var t := Run(rate, window, times);
      assert t.ticks[..|t.ticks| - 1] == Run(rate, window, times[..n - 1]).ticks;
    }
  }

  /** One attempt past the wrap, all within one window: a run that relays more than its rate. */
  lemma WrapLetsMoreThrough(rate: int, window: int)
    requires 0 < rate < TWO_31 && window > 0
    ensures RelayedOf(Run(rate, window, seq(TWO_31 + 1, _ => 1)).ticks, 1) > rate
  {
    OneMoment(rate, window, TWO_31 + 1);
    WindowKeepsRateIff(rate, window, seq(TWO_31 + 1, _ => 1), 1);
  }

  // ----- The connection's own fields -----

  class SocketMeter {
    var winStart: int
    var winCount: int
    var winLogged: bool
    var limited: nat
    var reported: int
    var rows: nat

    function Model(): Meter
      reads this
    {
      Meter(winStart, winCount, winLogged, limited, reported, rows)
    }

    constructor ()
      ensures Model() == FRESH
    {
      winStart, winCount, winLogged := 0, 0, false;
      limited, reported, rows := 0, 0, 0;
    }

    method MayRelay(rate: int, window: int, now: int) returns (relay: bool)
      modifies this
      ensures (Model(), relay) == Attempt(old(Model()), rate, window, now)
    {
      relay := true;
      if rate > 0 {
        if winStart == 0 || now - winStart >= window {
          winStart, winCount, winLogged := now, 0, false;
        }
        winCount := ToInt32(winCount) + 1;
        if winCount > rate {
          relay := false;
          limited := limited + 1;
          reported := ToInt32(reported) + 1;
          if !winLogged {
            winLogged := true;
            rows := rows + 1;
          }
        }
      }
    }
  }
}
