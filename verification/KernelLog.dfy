/** The cap on kernel log rows: `emit` inside `installKernelLog` (src/kernel_log.js). */
module KernelLog {
  import opened Collections

  datatype Level = Info | Warn | Error | Unknown(name: string)

  /** What reaches the sink. `sec` is the clock second, for the reader of the model only. */
  datatype Out =
    | Row(level: Level, event: string, sec: int)
    | Throttled(dropped: int, maxRowsPerSec: int, droppedTotal: nat)

  datatype State = State(emitted: nat, dropped: nat, info: nat, warn: nat, error: nat, second: int, inSecond: nat)

  datatype Call = Call(level: Level, msg: string, ms: int)

  const FRESH := State(0, 0, 0, 0, 0, 0, 0)

  predicate Offered(c: Call) {
    !c.level.Unknown?
  }

  function SecondOf(c: Call): int {
    c.ms / 1000
  }

  /** The rows of the second in progress that did not fit. */
  function Missed(s: State, cap: int): nat {
    if s.inSecond > cap then s.inSecond - cap else 0
  }

  /** A new second starts, and announces what the old one dropped. */
  function Roll(s: State, cap: int, sec: int): (State, seq<Out>) {
    if sec == s.second then (s, [])
    else
      (s.(second := sec, inSecond := 0),
       if Missed(s, cap) > 0 then [Throttled(Missed(s, cap), cap, s.dropped)] else [])
  }

  function CountLevel(s: State, level: Level): State {
    match level
    case Info => s.(info := s.info + 1)
    case Warn => s.(warn := s.warn + 1)
    case Error => s.(error := s.error + 1)
    case Unknown(_) => s
  }

  function Admit(s: State, cap: int, c: Call): (State, seq<Out>) {
    var s1 := s.(inSecond := s.inSecond + 1);
    if s1.inSecond > cap then (s1.(dropped := s1.dropped + 1), [])
    else (CountLevel(s1.(emitted := s1.emitted + 1), c.level), [Row(c.level, "kernel:" + c.msg, SecondOf(c))])
  }

  function Emit(s: State, cap: int, c: Call): (State, seq<Out>) {
    if !Offered(c) then (s, [])
    else
      var (s1, o1) := Roll(s, cap, SecondOf(c));
      var (s2, o2) := Admit(s1, cap, c);
      (s2, o1 + o2)
  }

  datatype Trace = Trace(state: State, out: seq<Out>)

  function Then(t: Trace, cap: int, c: Call): Trace {
    var (s, o) := Emit(t.state, cap, c);
    Trace(s, t.out + o)
  }

  function Run(cap: int, calls: seq<Call>): Trace {
    if calls == [] then Trace(FRESH, []) else Then(Run(cap, calls[..|calls| - 1]), cap, calls[|calls| - 1])
  }

  // ----- Counting what was offered and what came out -----

  ghost function OfferedIn(calls: seq<Call>, sec: int): nat {
    if calls == [] then 0
    else
      var c := calls[|calls| - 1];
      OfferedIn(calls[..|calls| - 1], sec) + if Offered(c) && SecondOf(c) == sec then 1 else 0
  }

  ghost function OfferedCount(calls: seq<Call>): nat {
    if calls == [] then 0
    else OfferedCount(calls[..|calls| - 1]) + if Offered(calls[|calls| - 1]) then 1 else 0
  }

  ghost function RowsIn(out: seq<Out>, sec: int): nat {
    if out == [] then 0
    else RowsIn(out[..|out| - 1], sec) + if out[|out| - 1].Row? && out[|out| - 1].sec == sec then 1 else 0
  }

  ghost function RowsOf(out: seq<Out>, level: Level): nat {
    if out == [] then 0
    else RowsOf(out[..|out| - 1], level) + if out[|out| - 1].Row? && out[|out| - 1].level == level then 1 else 0
  }

  /** The gaps announced so far, added up. */
  ghost function Gaps(out: seq<Out>): int {
    if out == [] then 0
    else Gaps(out[..|out| - 1]) + if out[|out| - 1].Throttled? then out[|out| - 1].dropped else 0
  }

  ghost function Announcements(out: seq<Out>): nat {
    if out == [] then 0
    else Announcements(out[..|out| - 1]) + if out[|out| - 1].Throttled? then 1 else 0
  }

  /** Every announcement's running total is the sum of the gaps up to and including it. */
  ghost predicate TotalsRun(out: seq<Out>) {
    out != [] ==>
      && TotalsRun(out[..|out| - 1])
      && (out[|out| - 1].Throttled? ==> out[|out| - 1].droppedTotal == Gaps(out))
  }

  lemma Append(out: seq<Out>, o: Out)
    ensures forall sec :: RowsIn(out + [o], sec) == RowsIn(out, sec) + if o.Row? && o.sec == sec then 1 else 0
    ensures forall l :: RowsOf(out + [o], l) == RowsOf(out, l) + if o.Row? && o.level == l then 1 else 0
    ensures Gaps(out + [o]) == Gaps(out) + if o.Throttled? then o.dropped else 0
    ensures Announcements(out + [o]) == Announcements(out) + if o.Throttled? then 1 else 0
    ensures TotalsRun(out + [o]) <==> TotalsRun(out) && (o.Throttled? ==> o.droppedTotal == Gaps(out) + o.dropped)
  {
    assert (out + [o])[..|out|] == out;
  }

  // ----- The books -----

  /** A negative cap makes every announcement, and the second in progress, overstate by this much. */
  function Excess(cap: int): nat {
    if cap < 0 then -cap else 0
  }

  ghost predicate Levels(s: State, out: seq<Out>) {
    && s.emitted == s.info + s.warn + s.error
    && s.info == RowsOf(out, Info) && s.warn == RowsOf(out, Warn) && s.error == RowsOf(out, Error)
  }

  ghost predicate Books(s: State, out: seq<Out>, cap: int) {
    && Gaps(out) + Missed(s, cap) == s.dropped + Excess(cap) * (Announcements(out) + 1)
    && (cap >= 0 ==> TotalsRun(out))
  }

  lemma RollKeeps(s: State, out: seq<Out>, cap: int, sec: int)
    requires Levels(s, out) && Books(s, out, cap)
    ensures
      var (s1, o) := Roll(s, cap, sec);
      Levels(s1, out + o) && Books(s1, out + o, cap)
  {
    var (s1, o) := Roll(s, cap, sec);
    if o == [] {
      assert out + o == out;
    } else {
      Append(out, o[0]);
      assert Excess(cap) * (Announcements(out) + 2) == Excess(cap) * (Announcements(out) + 1) + Excess(cap);
    }
  }

  lemma AdmitKeeps(s: State, out: seq<Out>, cap: int, c: Call)
    requires Levels(s, out) && Books(s, out, cap) && Offered(c)
    ensures
      var (s1, o) := Admit(s, cap, c);
      Levels(s1, out + o) && Books(s1, out + o, cap) && s1.emitted + s1.dropped == s.emitted + s.dropped + 1
  {
    var (s1, o) := Admit(s, cap, c);
    if o == [] {
      assert out + o == out;
    } else {
      Append(out, o[0]);
    }
  }

  lemma ThenKeeps(t: Trace, cap: int, c: Call)
    requires Levels(t.state, t.out) && Books(t.state, t.out, cap)
    ensures
      var t1 := Then(t, cap, c);
      && Levels(t1.state, t1.out) && Books(t1.state, t1.out, cap)
      && t1.state.emitted + t1.state.dropped == t.state.emitted + t.state.dropped + if Offered(c) then 1 else 0
  {
    if Offered(c) {
      var (s1, o1) := Roll(t.state, cap, SecondOf(c));
      var (s2, o2) := Admit(s1, cap, c);
      RollKeeps(t.state, t.out, cap, SecondOf(c));
      AdmitKeeps(s1, t.out + o1, cap, c);
      assert t.out + o1 + o2 == t.out + (o1 + o2);
    } else {
      assert t.out + [] == t.out;
    }
  }

  lemma {:induction false} RunKeeps(cap: int, calls: seq<Call>)
    ensures
      var t := Run(cap, calls);
      && Levels(t.state, t.out) && Books(t.state, t.out, cap)
      && t.state.emitted + t.state.dropped == OfferedCount(calls)
  {
    if calls != [] {
      RunKeeps(cap, calls[..|calls| - 1]);
      ThenKeeps(Run(cap, calls[..|calls| - 1]), cap, calls[|calls| - 1]);
    }
  }

  /** Nothing is lost silently: every row offered is emitted under its level, or dropped and counted. */
  lemma NothingIsLost(cap: int, calls: seq<Call>)
    ensures
      var t := Run(cap, calls);
      && t.state.emitted + t.state.dropped == OfferedCount(calls)
      && t.state.emitted == RowsOf(t.out, Info) + RowsOf(t.out, Warn) + RowsOf(t.out, Error)
  {
    RunKeeps(cap, calls);
  }

  /** The announced gaps and the current overflow make up the drops, exactly when the cap is not negative. */
  lemma GapsAddUpIff(cap: int, calls: seq<Call>)
    ensures
      var t := Run(cap, calls);
      Gaps(t.out) + Missed(t.state, cap) == t.state.dropped <==> cap >= 0
    ensures cap >= 0 ==> TotalsRun(Run(cap, calls).out)
  {
    RunKeeps(cap, calls);
    Times(Excess(cap), Announcements(Run(cap, calls).out) + 1);
  }

  lemma Times(e: nat, k: nat)
    requires k > 0
    ensures e * k >= e && (e == 0 ==> e * k == 0)
  {
  }

  // ----- The rate -----

  ghost predicate Clocked(calls: seq<Call>) {
    forall i, j :: 0 <= i < j < |calls| ==> calls[i].ms <= calls[j].ms
  }

  /** The seconds so far, and where the one in progress stands. */
  ghost predicate AtSecond(s: State, calls: seq<Call>) {
    && s.inSecond == OfferedIn(calls, s.second)
    && (forall sec :: sec > s.second && OfferedCount(calls) > 0 ==> OfferedIn(calls, sec) == 0)
    && (OfferedCount(calls) == 0 ==> forall sec :: OfferedIn(calls, sec) == 0)
    && (OfferedCount(calls) > 0 ==> exists i :: 0 <= i < |calls| && SecondOf(calls[i]) == s.second)
  }

  ghost predicate Capped(out: seq<Out>, calls: seq<Call>, cap: int) {
    forall sec :: RowsIn(out, sec) == Min(OfferedIn(calls, sec), Max(cap, 0))
  }

  lemma OfferAppend(calls: seq<Call>, c: Call)
    ensures OfferedCount(calls + [c]) == OfferedCount(calls) + if Offered(c) then 1 else 0
    ensures forall sec :: OfferedIn(calls + [c], sec) ==
                          OfferedIn(calls, sec) + if Offered(c) && SecondOf(c) == sec then 1 else 0
  {
    assert (calls + [c])[..|calls|] == calls;
  }

  /** A new second has nothing in it yet. */
  lemma RollAtSecond(s: State, calls: seq<Call>, cap: int, c: Call)
    requires AtSecond(s, calls) && Clocked(calls + [c])
    ensures Roll(s, cap, SecondOf(c)).0.inSecond == OfferedIn(calls, SecondOf(c))
    ensures forall sec :: sec > SecondOf(c) ==> OfferedIn(calls, sec) == 0
  {
    var all := calls + [c];
    if OfferedCount(calls) > 0 {
      var i :| 0 <= i < |calls| && SecondOf(calls[i]) == s.second;
      assert all[i].ms <= all[|calls|].ms;
    }
  }

  lemma OfferedAtSecond(s: State, calls: seq<Call>, cap: int, c: Call)
    requires AtSecond(s, calls) && Clocked(calls + [c]) && Offered(c)
    ensures AtSecond(Emit(s, cap, c).0, calls + [c])
  {
    RollAtSecond(s, calls, cap, c);
    OfferAppend(calls, c);
    var s2 := Emit(s, cap, c).0;
    assert s2.second == SecondOf(c) && s2.inSecond == OfferedIn(calls, SecondOf(c)) + 1;
    assert SecondOf((calls + [c])[|calls|]) == s2.second;
  }

  /** A row goes out exactly while there is room. */
  lemma AdmitRows(s: State, cap: int, c: Call)
    ensures
      var o := Admit(s, cap, c).1;
      && |o| <= 1 && (o != [] <==> s.inSecond < cap)
      && (o != [] ==> o[0].Row? && o[0].sec == SecondOf(c))
  {
  }

  lemma OneMoreRow(out: seq<Out>, after: seq<Out>, calls: seq<Call>, cap: int, c: Call)
    requires Capped(out, calls, cap) && Offered(c)
    requires forall sec :: RowsIn(after, sec) ==
                           RowsIn(out, sec) + if OfferedIn(calls, sec) < cap && sec == SecondOf(c) then 1 else 0
    ensures Capped(after, calls + [c], cap)
  {
    OfferAppend(calls, c);
  }

  lemma OfferedCapped(t: Trace, calls: seq<Call>, cap: int, c: Call)
    requires AtSecond(t.state, calls) && Capped(t.out, calls, cap) && Clocked(calls + [c]) && Offered(c)
    ensures Capped(Then(t, cap, c).out, calls + [c], cap)
  {
    RollAtSecond(t.state, calls, cap, c);
    var (s1, o1) := Roll(t.state, cap, SecondOf(c));
    var (s2, o2) := Admit(s1, cap, c);
    AdmitRows(s1, cap, c);
    RowsAfter(t.out, o1, o2);
    OneMoreRow(t.out, t.out + o1 + o2, calls, cap, c);
    assert Then(t, cap, c).out == t.out + (o1 + o2) == t.out + o1 + o2;
  }

  lemma UnknownChangesNothing(t: Trace, calls: seq<Call>, cap: int, c: Call)
    requires AtSecond(t.state, calls) && Capped(t.out, calls, cap) && !Offered(c)
    ensures Then(t, cap, c) == t && AtSecond(t.state, calls + [c]) && Capped(t.out, calls + [c], cap)
  {
    OfferAppend(calls, c);
    assert t.out + [] == t.out;
    if OfferedCount(calls) > 0 {
      var i :| 0 <= i < |calls| && SecondOf(calls[i]) == t.state.second;
      assert SecondOf((calls + [c])[i]) == t.state.second;
    }
  }

  /** An announcement is not a row. */
  lemma RowsAfter(out: seq<Out>, o1: seq<Out>, o2: seq<Out>)
    requires |o1| <= 1 && |o2| <= 1 && (o1 != [] ==> o1[0].Throttled?)
    ensures forall sec :: RowsIn(out + o1 + o2, sec) ==
                          RowsIn(out, sec) + if o2 != [] && o2[0].Row? && o2[0].sec == sec then 1 else 0
  {
    if o1 == [] { assert out + o1 == out; } else { Append(out, o1[0]); assert o1 == [o1[0]]; }
    if o2 == [] { assert out + o1 + o2 == out + o1; } else { Append(out + o1, o2[0]); assert o2 == [o2[0]]; }
  }

  lemma {:induction false} RunInSecond(cap: int, calls: seq<Call>)
    requires Clocked(calls)
    ensures AtSecond(Run(cap, calls).state, calls) && Capped(Run(cap, calls).out, calls, cap)
  {
    if calls != [] {
      var n := |calls| - 1;
      var t := Run(cap, calls[..n]);
      RunInSecond(cap, calls[..n]);
      assert calls[..n] + [calls[n]] == calls;
      if Offered(calls[n]) {
        OfferedAtSecond(t.state, calls[..n], cap, calls[n]);
        OfferedCapped(t, calls[..n], cap, calls[n]);
      } else {
        UnknownChangesNothing(t, calls[..n], cap, calls[n]);
      }
    }
  }

  /** Under a clock that does not run back, each second passes exactly the rows offered in it, up to the cap. */
  lemma EachSecondPassesUpToTheCap(cap: int, calls: seq<Call>, sec: int)
    requires Clocked(calls)
    ensures RowsIn(Run(cap, calls).out, sec) == Min(OfferedIn(calls, sec), Max(cap, 0))
  {
    RunInSecond(cap, calls);
  }

  // ----- The rows -----

  /** A call that reaches the sink: a level of the log's, and fewer than the cap before it in its second. */
  ghost predicate Passes(calls: seq<Call>, cap: int, c: Call) {
    !c.level.Unknown? && OfferedIn(calls, c.ms / 1000) < cap
  }

  /** The rows those calls make, each at its own level, under its own message. */
  ghost function RowsFor(cap: int, calls: seq<Call>): (rows: seq<Out>)
    ensures |rows| <= OfferedCount(calls)
  {
    if calls == [] then []
    else
      var n := |calls| - 1;
      var c := calls[n];
      RowsFor(cap, calls[..n])
      + if Passes(calls[..n], cap, c) then [Row(c.level, "kernel:" + c.msg, c.ms / 1000)] else []
  }

  /** The second of the last call of one of the log's levels; 0 before any. */
  ghost function LastSecond(calls: seq<Call>): int {
    if calls == [] then 0
    else if !calls[|calls| - 1].level.Unknown? then calls[|calls| - 1].ms / 1000
    else LastSecond(calls[..|calls| - 1])
  }

  /** What a call that opens a new second announces: what the last one had too many, and all that was ever dropped. */
  ghost function Announces(cap: int, calls: seq<Call>, sec: int): seq<Out> {
    var last := LastSecond(calls);
    var n := OfferedIn(calls, last);
    if sec != last && n > cap then [Throttled(n - cap, cap, OfferedCount(calls) - |RowsFor(cap, calls)|)] else []
  }

  /** Everything that reaches the sink, said from the calls alone. */
  ghost function OutFor(cap: int, calls: seq<Call>): seq<Out> {
    if calls == [] then []
    else
      var n := |calls| - 1;
      var c := calls[n];
      OutFor(cap, calls[..n])
      + (if c.level.Unknown? then [] else Announces(cap, calls[..n], c.ms / 1000))
      + if Passes(calls[..n], cap, c) then [Row(c.level, "kernel:" + c.msg, c.ms / 1000)] else []
  }

  /** The counters stand for the calls so far. */
  ghost predicate Follows(s: State, cap: int, calls: seq<Call>) {
    && s.second == LastSecond(calls) && s.emitted == |RowsFor(cap, calls)|
    && s.emitted + s.dropped == OfferedCount(calls) && AtSecond(s, calls)
  }

  lemma EmitFollows(s: State, cap: int, calls: seq<Call>, c: Call)
    requires Follows(s, cap, calls) && Clocked(calls + [c])
    ensures
      var (s1, o) := Emit(s, cap, c);
      && s1.second == LastSecond(calls + [c]) && s1.emitted == |RowsFor(cap, calls + [c])|
      && s1.emitted + s1.dropped == OfferedCount(calls + [c])
      && o == (if c.level.Unknown? then [] else Announces(cap, calls, c.ms / 1000))
            + if Passes(calls, cap, c) then [Row(c.level, "kernel:" + c.msg, c.ms / 1000)] else []
  {
    assert (calls + [c])[..|calls|] == calls;
    OfferAppend(calls, c);
    if Offered(c) { RollAtSecond(s, calls, cap, c); }
  }

  /**
   Under a clock that does not run back the sink gets exactly that, in that order: each row at its
   own level and under its own message, and each announcement before the row that opens the second.
  */
  lemma {:induction false} SinkGets(cap: int, calls: seq<Call>)
    requires Clocked(calls)
    ensures Run(cap, calls).out == OutFor(cap, calls) && Follows(Run(cap, calls).state, cap, calls)
  {
    if calls != [] {
      var n := |calls| - 1;
      SinkGets(cap, calls[..n]);
      RunInSecond(cap, calls);
      assert calls[..n] + [calls[n]] == calls;
      EmitFollows(Run(cap, calls[..n]).state, cap, calls[..n], calls[n]);
    }
  }

  // ----- The counters -----

  class KernelLog {
    const maxRowsPerSec: int
    var emitted: nat
    var dropped: nat
    var info: nat
    var warn: nat
    var error: nat
    var second: int
    var inSecond: nat

    function Model(): State
      reads this
    {
      State(emitted, dropped, info, warn, error, second, inSecond)
    }

    constructor (maxRowsPerSec: int)
      ensures Model() == FRESH && this.maxRowsPerSec == maxRowsPerSec
    {
      this.maxRowsPerSec := maxRowsPerSec;
      emitted, dropped, info, warn, error, second, inSecond := 0, 0, 0, 0, 0, 0, 0;
    }

    method EmitRow(c: Call) returns (sunk: seq<Out>)
      modifies this
      ensures (Model(), sunk) == Emit(old(Model()), maxRowsPerSec, c)
    {
      sunk := [];
      if c.level.Unknown? {
        return;
      }
      var sec := c.ms / 1000;
      if sec != second {
        var missed := if inSecond > maxRowsPerSec then inSecond - maxRowsPerSec else 0;
        second := sec;
        inSecond := 0;
        if missed > 0 {
          sunk := [Throttled(missed, maxRowsPerSec, dropped)];
        }
      }
      assert (Model(), sunk) == Roll(old(Model()), maxRowsPerSec, sec);
      inSecond := inSecond + 1;
      if inSecond > maxRowsPerSec {
        dropped := dropped + 1;
        assert sunk + [] == sunk;
        return;
      }
      emitted := emitted + 1;
      match c.level {
        case Info => info := info + 1;
        case Warn => warn := warn + 1;
        case Error => error := error + 1;
      }
      sunk := sunk + [Row(c.level, "kernel:" + c.msg, sec)];
    }
  }
}
