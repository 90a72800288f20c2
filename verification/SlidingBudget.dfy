/** At most perMin make-room retires in any trailing window (src/socket_bootstrap.js). */
module SlidingBudget {
  import opened Collections

  datatype Budget = Budget(perMin: int, windowMs: int, ts: seq<int>, spent: nat, refused: nat)

  /** Drop the timestamps that have left the window. */
  function Prune(ts: seq<int>, now: int, window: int): seq<int> {
    if ts != [] && now - ts[0] >= window then Prune(ts[1..], now, window) else ts
  }

  predicate HasRoom(b: Budget, now: int) {
    |Prune(b.ts, now, b.windowMs)| < b.perMin
  }

  function Ask(b: Budget, now: int): Budget {
    b.(ts := Prune(b.ts, now, b.windowMs), refused := b.refused + if HasRoom(b, now) then 0 else 1)
  }

  function Spend(b: Budget, now: int): Budget {
    b.(ts := Prune(b.ts, now, b.windowMs) + [now], spent := b.spent + 1)
  }

  ghost predicate Nondecreasing(h: seq<int>) {
    forall i, j :: 0 <= i < j < |h| ==> h[i] <= h[j]
  }

  /** The budget holds, of all the spends ever made, those in the window at its last look. */
  ghost predicate Tracks(b: Budget, history: seq<int>, seen: int) {
    && Nondecreasing(history)
    && (forall i :: 0 <= i < |history| ==> history[i] <= seen)
    && b.ts == Prune(history, seen, b.windowMs)
    && b.spent == |history|
  }

  lemma {:induction false} PruneShape(h: seq<int>, now: int, window: int)
    ensures |Prune(h, now, window)| <= |h|
    ensures Prune(h, now, window) == h[|h| - |Prune(h, now, window)|..]
    ensures forall i :: 0 <= i < |h| - |Prune(h, now, window)| ==> now - h[i] >= window
  {
    if h != [] && now - h[0] >= window {
      PruneShape(h[1..], now, window);
      assert forall i :: 1 <= i < |h| ==> h[i] == h[1..][i - 1];
    }
  }

  lemma {:induction false} PruneTwice(h: seq<int>, a: int, b: int, window: int)
    requires a <= b
    ensures Prune(Prune(h, a, window), b, window) == Prune(h, b, window)
  {
    if h != [] && a - h[0] >= window {
      PruneTwice(h[1..], a, b, window);
    }
  }

  lemma {:induction false} PruneThenAdd(h: seq<int>, now: int, window: int)
    requires window > 0
    ensures Prune(h + [now], now, window) == Prune(h, now, window) + [now]
  {
    if h != [] {
      assert (h + [now])[1..] == h[1..] + [now];
      if now - h[0] >= window { PruneThenAdd(h[1..], now, window); }
    }
  }

  /** Looking later loses nothing the budget still needs. */
  lemma AskTracks(b: Budget, history: seq<int>, seen: int, now: int)
    requires Tracks(b, history, seen) && seen <= now
    ensures Tracks(Ask(b, now), history, now)
    ensures HasRoom(b, now) <==> |Prune(history, now, b.windowMs)| < b.perMin
  {
    PruneTwice(history, seen, now, b.windowMs);
  }

  /** An ask without room is counted as refused, and nothing but the list and that count changes. */
  lemma AskDoes(b: Budget, history: seq<int>, seen: int, now: int)
    requires Tracks(b, history, seen) && seen <= now && b.windowMs > 0
    ensures Ask(b, now).refused == b.refused + if |Within(history, now, b.windowMs)| < b.perMin then 0 else 1
    ensures Ask(b, now).spent == b.spent && Spend(b, now).refused == b.refused
  {
    HasRoomIff(b, history, seen, now);
  }

  lemma SpendTracks(b: Budget, history: seq<int>, seen: int, now: int)
    requires Tracks(b, history, seen) && seen <= now && b.windowMs > 0
    ensures Tracks(Spend(b, now), history + [now], now)
  {
    PruneTwice(history, seen, now, b.windowMs);
    PruneThenAdd(history, now, b.windowMs);
  }

  // ----- The rate -----

  /** Any perMin + 1 consecutive spends span a whole window. */
  ghost predicate Spread(history: seq<int>, perMin: nat, window: int) {
    forall i :: perMin <= i < |history| ==> history[i] - history[i - perMin] >= window
  }

  /** A spend made on a granted ask keeps the spends spread, though the old timestamps are gone. */
  lemma GrantedSpendSpreads(history: seq<int>, perMin: nat, window: int, asked: int, spent: int)
    requires Spread(history, perMin, window) && perMin > 0 && asked <= spent
    requires |Prune(history, asked, window)| < perMin
    ensures Spread(history + [spent], perMin, window)
  {
    PruneShape(history, asked, window);
  }

  /** The spends in the interval (t - window, t]. */
  ghost function Within(history: seq<int>, t: int, window: int): set<int> {
    set i | 0 <= i < |history| && t - window < history[i] <= t
  }

  ghost function From(a: int, n: nat): (s: set<int>)
    ensures forall x :: x in s <==> a <= x < a + n
    ensures |s| == n
  {
    if n == 0 then {} else From(a, n - 1) + {a + n - 1}
  }

  /** What pruning leaves is what lies in the window. */
  lemma {:induction false} PruneLeavesWindow(history: seq<int>, now: int, window: int)
    requires Nondecreasing(history) && window > 0 && forall i :: 0 <= i < |history| ==> history[i] <= now
    ensures |Prune(history, now, window)| == |Within(history, now, window)|
  {
    PruneShape(history, now, window);
    var n := |Prune(history, now, window)|;
    var cut := |history| - n;
    FirstLeft(history, now, window);
    assert Within(history, now, window) == From(cut, n);
  }

  lemma {:induction false} FirstLeft(history: seq<int>, now: int, window: int)
    ensures var p := Prune(history, now, window); p != [] ==> now - p[0] < window
  {
    if history != [] && now - history[0] >= window { FirstLeft(history[1..], now, window); }
  }

  /** A spend is granted exactly when fewer than perMin of all the spends ever made lie in the window. */
  lemma HasRoomIff(b: Budget, history: seq<int>, seen: int, now: int)
    requires Tracks(b, history, seen) && seen <= now && b.windowMs > 0
    ensures HasRoom(b, now) <==> |Within(history, now, b.windowMs)| < b.perMin
  {
    AskTracks(b, history, seen, now);
    PruneLeavesWindow(history, now, b.windowMs);
  }

  /** No trailing window holds more than perMin spends, wherever it ends. */
  lemma WindowHoldsAtMost(history: seq<int>, perMin: nat, window: int, t: int)
    requires Nondecreasing(history) && Spread(history, perMin, window) && perMin > 0
    ensures |Within(history, t, window)| <= perMin
  {
    var all := Within(history, t, window);
    if all != {} {
      var a := First(history, t, window, 0);
      if a + perMin < |history| {
        assert history[a + perMin] - history[a + perMin - perMin] >= window;
      }
      assert all <= From(a, perMin);
      SubsetCardinality(all, From(a, perMin));
    }
  }

  lemma First(history: seq<int>, t: int, window: int, lo: nat) returns (a: nat)
    requires Within(history, t, window) != {} && forall i :: i in Within(history, t, window) ==> lo <= i
    ensures a in Within(history, t, window) && forall i :: i in Within(history, t, window) ==> a <= i
    decreases |history| - lo
  {
    var i :| i in Within(history, t, window);
    assert lo < |history|;
    if lo in Within(history, t, window) {
      a := lo;
    } else {
      a := First(history, t, window, lo + 1);
    }
  }

  class SlidingBudget {
    const perMin: int
    const windowMs: int
    var ts: seq<int>
    var spent: nat
    var refused: nat

    function Model(): Budget
      reads this
    {
      Budget(perMin, windowMs, ts, spent, refused)
    }

    constructor (perMin: int, windowMs: int)
      ensures Model() == Budget(perMin, windowMs, [], 0, 0)
    {
      this.perMin, this.windowMs := perMin, windowMs;
      ts, spent, refused := [], 0, 0;
    }

    method Drop(now: int)
      modifies `ts
      ensures ts == Prune(old(ts), now, windowMs)
    {
      while |ts| > 0 && now - ts[0] >= windowMs
        invariant Prune(ts, now, windowMs) == Prune(old(ts), now, windowMs)
      {
        ts := ts[1..];
      }
    }

    method Ok(now: int) returns (ok: bool)
      modifies this
      ensures Model() == Ask(old(Model()), now) && ok == HasRoom(old(Model()), now)
    {
      Drop(now);
      ok := |ts| < perMin;
      if !ok {
        refused := refused + 1;
      }
    }

    method SpendOne(now: int)
      modifies this
      ensures Model() == Spend(old(Model()), now)
    {
      Drop(now);
      ts := ts + [now];
      spent := spent + 1;
    }

    method InWindow(now: int) returns (n: nat)
      modifies this
      ensures Model() == old(Model()).(ts := Prune(old(ts), now, windowMs)) && n == |ts|
    {
      Drop(now);
      n := |ts|;
    }
  }
}
