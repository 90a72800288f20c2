/** The bridge's memory of graduated ids (src/graduated_registry.js): bounded, expiring, in insertion order. */
module GraduatedRegistry {
  import opened Collections
  import NodeId
  import Sampler

  // The class is proved against a whole-history reading: which entries it holds is a function of every
  // registration it ever accepted and of its last sweep.

  datatype Entry = Entry(id: string, at: int)

  // ----- An insertion-ordered map, as the sequence of its entries -----

  function IdsOf(s: seq<Entry>): (ids: seq<string>)
    ensures |ids| == |s|
  {
    if s == [] then [] else [s[0].id] + IdsOf(s[1..])
  }

  predicate Has(s: seq<Entry>, id: string) {
    s != [] && (s[0].id == id || Has(s[1..], id))
  }

  /** `map.delete(id)`. */
  function Without(s: seq<Entry>, id: string): (r: seq<Entry>)
    ensures |r| == if Has(s, id) then |s| - 1 else |s|
    ensures !Has(s, id) ==> r == s
  {
    if s == [] then []
    else if s[0].id == id then s[1..]
    else [s[0]] + Without(s[1..], id)
  }

  /** Keys occur once. */
  ghost predicate Keyed(s: seq<Entry>) {
    s != [] ==> !Has(s[1..], s[0].id) && Keyed(s[1..])
  }

  /** Entries stand in the order of their registration. */
  ghost predicate Ordered(s: seq<Entry>) {
    s != [] ==> (forall i :: 0 <= i < |s| ==> s[0].at <= s[i].at) && Ordered(s[1..])
  }

  // ----- The whole-history reading -----

  /** A history with a nondecreasing clock, read no earlier than its last registration. */
  ghost predicate Clocked(history: seq<Entry>, clock: int) {
    var n := |history| - 1;
    history != [] ==> history[n].at <= clock && Clocked(history[..n], history[n].at)
  }

  /** Every id's last registration, in the order of those registrations. */
  ghost function Latest(history: seq<Entry>): seq<Entry> {
    if history == [] then []
    else
      var n := |history| - 1;
      Without(Latest(history[..n]), history[n].id) + [history[n]]
  }

  predicate Expired(e: Entry, sweep: Option<int>, lReg: nat) {
    sweep.Some? && sweep.value - e.at >= lReg
  }

  /** From the front, drop what a sweep at `sweep` or the bound drops. */
  ghost function Trim(s: seq<Entry>, sweep: Option<int>, lReg: nat, mReg: nat): seq<Entry> {
    if s != [] && (Expired(s[0], sweep, lReg) || |s| > mReg) then Trim(s[1..], sweep, lReg, mReg) else s
  }

  /** What the registry should hold after a history whose last sweep was at `sweep`. */
  ghost function Survivors(history: seq<Entry>, sweep: Option<int>, lReg: nat, mReg: nat): seq<Entry> {
    Trim(Latest(history), sweep, lReg, mReg)
  }

  /** Deleting a key, then adding it last: what one registration does to the order. */
  lemma {:induction false} RenewShape(s: seq<Entry>, e: Entry)
    requires Keyed(s) && Ordered(s) && forall i :: 0 <= i < |s| ==> s[i].at <= e.at
    ensures !Has(Without(s, e.id), e.id)
    ensures Keyed(Without(s, e.id) + [e]) && Ordered(Without(s, e.id) + [e])
    ensures forall x :: x in Without(s, e.id) ==> x in s
    ensures forall id :: Has(Without(s, e.id) + [e], id) <==> Has(s, id) || id == e.id
  {
    var t := Without(s, e.id) + [e];
    if s == [] {
      assert t == [e] && t[1..] == [];
    } else {
      var r := s[1..];
      RenewShape(r, e);
      if s[0].id == e.id {
        assert Without(r, e.id) == r && t == r + [e];
        assert s == [s[0]] + r;
      } else {
        assert t == [s[0]] + (Without(r, e.id) + [e]) && t[1..] == Without(r, e.id) + [e];
        forall i | 0 <= i < |t|
          ensures t[0].at <= t[i].at
        {
          if i > 0 { assert t[i] == t[1..][i - 1]; }
        }
      }
    }
  }

  lemma {:induction false} LatestShape(history: seq<Entry>, clock: int)
    requires Clocked(history, clock)
    ensures Keyed(Latest(history)) && Ordered(Latest(history))
    ensures forall i :: 0 <= i < |Latest(history)| ==> Latest(history)[i].at <= clock
  {
    if history != [] {
      var n := |history| - 1;
      var s, e := Latest(history[..n]), history[n];
      LatestShape(history[..n], e.at);
      RenewShape(s, e);
      assert forall i :: 0 <= i < |s| ==> s[i].at <= e.at;
      assert forall i :: 0 <= i < |Without(s, e.id)| ==> Without(s, e.id)[i] in s;
    }
  }

  /** The end of a sequence, at most m long: what evicting the oldest leaves. */
  ghost function Newest(s: seq<Entry>, m: nat): seq<Entry> {
    if |s| > m then s[|s| - m..] else s
  }

  lemma {:induction false} TrimOfLive(s: seq<Entry>, sweep: Option<int>, lReg: nat, mReg: nat)
    requires forall i :: 0 <= i < |s| ==> !Expired(s[i], sweep, lReg)
    ensures Trim(s, sweep, lReg, mReg) == Newest(s, mReg)
  {
    if |s| > mReg {
      TrimOfLive(s[1..], sweep, lReg, mReg);
    }
  }

  lemma {:induction false} NoteTrims(s: seq<Entry>, sweep: Option<int>, lReg: nat, mReg: nat, e: Entry)
    requires Keyed(s) && Ordered(s) && !Expired(e, sweep, lReg) && mReg > 0
    ensures Trim(Without(s, e.id) + [e], sweep, lReg, mReg)
         == Newest(Without(Trim(s, sweep, lReg, mReg), e.id) + [e], mReg)
  {
    var t := Without(s, e.id) + [e];
    if s == [] {
      assert t == [e];
    } else if Expired(s[0], sweep, lReg) || |s| > mReg {
      NoteTrims(s[1..], sweep, lReg, mReg, e);
      if s[0].id != e.id {
        assert t[1..] == Without(s[1..], e.id) + [e];
      }
    } else {
      WithoutIsPart(s, e.id);
      forall i | 0 <= i < |t|
        ensures !Expired(t[i], sweep, lReg)
      {
        if i < |t| - 1 { assert t[i] in Without(s, e.id); }
      }
      TrimOfLive(t, sweep, lReg, mReg);
    }
  }

  lemma {:induction false} WithoutIsPart(s: seq<Entry>, id: string)
    ensures forall x :: x in Without(s, id) ==> x in s
  {
    if s != [] { WithoutIsPart(s[1..], id); }
  }

  /** A registration, made the way `note` makes it, keeps the registry equal to the whole-history reading. */
  lemma NoteRefinesHistory(history: seq<Entry>, sweep: Option<int>, lReg: nat, mReg: nat, e: Entry)
    requires Clocked(history, e.at) && (sweep.Some? ==> sweep.value <= e.at) && lReg > 0 && mReg > 0
    ensures Clocked(history + [e], e.at)
    ensures Survivors(history + [e], sweep, lReg, mReg)
         == Newest(Without(Survivors(history, sweep, lReg, mReg), e.id) + [e], mReg)
  {
    assert (history + [e])[..|history|] == history;
    LatestShape(history, e.at);
    NoteTrims(Latest(history), sweep, lReg, mReg, e);
  }

  /** A sweep from the front that stops at the first live entry. */
  ghost function DropExpired(s: seq<Entry>, now: int, lReg: nat): seq<Entry> {
    if s != [] && Expired(s[0], Some(now), lReg) then DropExpired(s[1..], now, lReg) else s
  }

  /** A sweep keeps the registry equal to the whole-history reading at the new moment. */
  lemma {:induction false} SweepTrims(s: seq<Entry>, sweep: Option<int>, lReg: nat, mReg: nat, now: int)
    requires sweep.Some? ==> sweep.value <= now
    ensures DropExpired(Trim(s, sweep, lReg, mReg), now, lReg) == Trim(s, Some(now), lReg, mReg)
  {
    if s != [] && (Expired(s[0], Some(now), lReg) || |s| > mReg) {
      SweepTrims(s[1..], sweep, lReg, mReg, now);
      if |s| <= mReg && !Expired(s[0], sweep, lReg) {
        ShortTrim(s[1..], sweep, lReg, mReg, now);
      }
    }
  }

  /** Below the bound only expiry drops entries, whichever sweep came before. */
  lemma {:induction false} ShortTrim(s: seq<Entry>, sweep: Option<int>, lReg: nat, mReg: nat, now: int)
    requires |s| <= mReg && (sweep.Some? ==> sweep.value <= now)
    ensures DropExpired(s, now, lReg) == DropExpired(Trim(s, sweep, lReg, mReg), now, lReg)
  {
    if s != [] && Expired(s[0], sweep, lReg) {
      ShortTrim(s[1..], sweep, lReg, mReg, now);
    }
  }

  /** A full sweep of the map, entry by entry. */
  ghost function LiveOnly(s: seq<Entry>, now: int, lReg: nat): seq<Entry> {
    if s == [] then []
    else (if Expired(s[0], Some(now), lReg) then [] else [s[0]]) + LiveOnly(s[1..], now, lReg)
  }

  /** In registration order, stopping at the first live entry removes exactly what a full sweep would. */
  lemma {:induction false} EarlyBreakIsFullSweep(s: seq<Entry>, now: int, lReg: nat)
    requires Ordered(s)
    ensures DropExpired(s, now, lReg) == LiveOnly(s, now, lReg)
  {
    if s != [] {
      EarlyBreakIsFullSweep(s[1..], now, lReg);
      if !Expired(s[0], Some(now), lReg) {
        assert |s| > 1 ==> s[1..][0] == s[1];
        assert s == [s[0]] + s[1..];
      }
    }
  }

  // ----- Membership, said without the map -----

  /** The moment of an id's last registration. */
  ghost function LastAt(history: seq<Entry>, id: string): Option<int> {
    var n := |history| - 1;
    if history == [] then None
    else if history[n].id == id then Some(history[n].at)
    else LastAt(history[..n], id)
  }

  /** The ids registered after the last registration of `id`. */
  ghost function RegisteredAfter(history: seq<Entry>, id: string): set<string> {
    var n := |history| - 1;
    if history == [] || history[n].id == id then {}
    else RegisteredAfter(history[..n], id) + {history[n].id}
  }

  ghost function IdSet(s: seq<Entry>): set<string> {
    if s == [] then {} else {s[0].id} + IdSet(s[1..])
  }

  /** The ids standing behind `id` in the map. */
  ghost function Behind(s: seq<Entry>, id: string): set<string> {
    if s == [] then {} else if s[0].id == id then IdSet(s[1..]) else Behind(s[1..], id)
  }

  ghost function AtOf(s: seq<Entry>, id: string): Option<int> {
    if s == [] then None else if s[0].id == id then Some(s[0].at) else AtOf(s[1..], id)
  }

  lemma {:induction false} IdSetOfRenewed(s: seq<Entry>, e: Entry)
    ensures IdSet(Without(s, e.id) + [e]) == IdSet(s) + {e.id}
  {
    var t := Without(s, e.id) + [e];
    if s == [] {
      assert t == [e] && t[1..] == [];
    } else {
      IdSetOfRenewed(s[1..], e);
      if s[0].id == e.id {
        IdSetOfAppended(s[1..], e);
      } else {
        assert t[1..] == Without(s[1..], e.id) + [e];
      }
    }
  }

  lemma {:induction false} IdSetOfAppended(s: seq<Entry>, e: Entry)
    ensures IdSet(s + [e]) == IdSet(s) + {e.id}
  {
    if s == [] {
      assert (s + [e])[1..] == [];
    } else {
      assert (s + [e])[1..] == s[1..] + [e];
      IdSetOfAppended(s[1..], e);
    }
  }

  lemma {:induction false} AppendBehind(s: seq<Entry>, e: Entry, id: string)
    requires id != e.id
    ensures Has(s + [e], id) == Has(s, id) && AtOf(s + [e], id) == AtOf(s, id)
    ensures Has(s, id) ==> Behind(s + [e], id) == Behind(s, id) + {e.id}
  {
    if s == [] {
      assert (s + [e])[1..] == [];
    } else {
      assert (s + [e])[1..] == s[1..] + [e];
      AppendBehind(s[1..], e, id);
      IdSetOfAppended(s[1..], e);
    }
  }

  /** Another id's registration leaves an id's moment alone and stands behind it. */
  lemma {:induction false} RenewBehind(s: seq<Entry>, e: Entry, id: string)
    requires id != e.id
    ensures var t := Without(s, e.id) + [e];
      && Has(t, id) == Has(s, id) && AtOf(t, id) == AtOf(s, id)
      && (Has(s, id) ==> Behind(t, id) == Behind(s, id) + {e.id})
  {
    var t := Without(s, e.id) + [e];
    if s == [] {
      assert t == [e] && t[1..] == [];
    } else if s[0].id == e.id {
      AppendBehind(s[1..], e, id);
    } else {
      assert t[1..] == Without(s[1..], e.id) + [e];
      RenewBehind(s[1..], e, id);
      IdSetOfRenewed(s[1..], e);
    }
  }

  lemma {:induction false} LastStandsLast(s: seq<Entry>, e: Entry)
    requires !Has(s, e.id)
    ensures Has(s + [e], e.id) && AtOf(s + [e], e.id) == Some(e.at) && Behind(s + [e], e.id) == {}
  {
    if s == [] {
      assert (s + [e])[1..] == [];
    } else {
      assert (s + [e])[1..] == s[1..] + [e];
      LastStandsLast(s[1..], e);
    }
  }

  /** The map of last registrations knows each id's last moment and who registered since. */
  lemma {:induction false} LatestReadsHistory(history: seq<Entry>, clock: int, id: string)
    requires Clocked(history, clock)
    ensures Has(Latest(history), id) <==> LastAt(history, id).Some?
    ensures AtOf(Latest(history), id) == LastAt(history, id)
    ensures Has(Latest(history), id) ==> Behind(Latest(history), id) == RegisteredAfter(history, id)
  {
    if history != [] {
      var n := |history| - 1;
      var h, e := history[..n], history[n];
      if e.id == id {
        LatestShape(h, e.at);
        RenewShape(Latest(h), e);
        LastStandsLast(Without(Latest(h), id), e);
      } else {
        LatestReadsHistory(h, e.at, id);
        RenewBehind(Latest(h), e, id);
      }
    }
  }

  lemma {:induction false} KeyedCount(s: seq<Entry>)
    requires Keyed(s)
    ensures |IdSet(s)| == |s|
    ensures forall id :: id in IdSet(s) <==> Has(s, id)
  {
    if s != [] { KeyedCount(s[1..]); }
  }

  lemma {:induction false} BehindCount(s: seq<Entry>, id: string)
    requires Keyed(s) && s != []
    ensures |Behind(s, id)| < |s|
  {
    if s[0].id == id {
      KeyedCount(s[1..]);
    } else if |s| > 1 {
      BehindCount(s[1..], id);
    } else {
      assert s[1..] == [];
    }
  }

  lemma {:induction false} TrimKeeps(s: seq<Entry>, now: int, lReg: nat, mReg: nat, id: string)
    requires Keyed(s) && Ordered(s) && mReg > 0
    ensures Has(Trim(s, Some(now), lReg, mReg), id)
       <==> AtOf(s, id).Some? && now - AtOf(s, id).value < lReg && |Behind(s, id)| < mReg
  {
    if s != [] {
      if Expired(s[0], Some(now), lReg) || |s| > mReg {
        TrimKeeps(s[1..], now, lReg, mReg, id);
        if s[0].id == id {
          KeyedCount(s[1..]);
          AtOfHas(s[1..], id);
        }
      } else {
        BehindCount(s, id);
        AtOfLive(s, id);
      }
    }
  }

  lemma {:induction false} AtOfHas(s: seq<Entry>, id: string)
    ensures Has(s, id) <==> AtOf(s, id).Some?
  {
    if s != [] { AtOfHas(s[1..], id); }
  }

  lemma {:induction false} AtOfLive(s: seq<Entry>, id: string)
    requires s != [] && Ordered(s)
    ensures Has(s, id) <==> AtOf(s, id).Some?
    ensures AtOf(s, id).Some? ==> s[0].at <= AtOf(s, id).value
  {
    if |s| > 1 {
      assert s[1..][0] == s[1];
      AtOfLive(s[1..], id);
    } else {
      assert s[1..] == [];
    }
  }

  /**
   After a sweep at `now` the registry holds exactly the ids whose last registration is
   younger than lReg and was followed by registrations of fewer than mReg other ids.
  */
  lemma HoldsExactly(history: seq<Entry>, now: int, lReg: nat, mReg: nat, id: string)
    requires Clocked(history, now) && mReg > 0
    ensures Has(Survivors(history, Some(now), lReg, mReg), id)
       <==> && LastAt(history, id).Some?
            && now - LastAt(history, id).value < lReg
            && |RegisteredAfter(history, id)| < mReg
  {
    LatestShape(history, now);
    LatestReadsHistory(history, now, id);
    TrimKeeps(Latest(history), now, lReg, mReg, id);
  }

  lemma {:induction false} TrimShape(s: seq<Entry>, sweep: Option<int>, lReg: nat, mReg: nat)
    requires Keyed(s) && Ordered(s)
    ensures Keyed(Trim(s, sweep, lReg, mReg)) && Ordered(Trim(s, sweep, lReg, mReg))
  {
    if s != [] { TrimShape(s[1..], sweep, lReg, mReg); }
  }

  // ----- The pool of a sample -----

  /** The ids other than `exclude`, in order. */
  function Excluding(ids: seq<string>, exclude: Option<string>): seq<string> {
    if ids == [] then []
    else
      var n := |ids| - 1;
      Excluding(ids[..n], exclude) + (if Some(ids[n]) == exclude then [] else [ids[n]])
  }

  /** Excluding an id leaves the others, still distinct. */
  lemma {:induction false} ExcludingShape(ids: seq<string>, exclude: Option<string>)
    requires Distinct(ids)
    ensures Distinct(Excluding(ids, exclude))
    ensures forall x :: x in Excluding(ids, exclude) <==> x in ids && Some(x) != exclude
  {
    if ids != [] {
      var n := |ids| - 1;
      ExcludingShape(ids[..n], exclude);
      assert ids == ids[..n] + [ids[n]];
      assert ids[n] !in ids[..n];
    }
  }

  lemma {:induction false} KeyedIdsDistinct(s: seq<Entry>)
    requires Keyed(s)
    ensures Distinct(IdsOf(s))
    ensures forall id :: id in IdsOf(s) <==> Has(s, id)
  {
    if s != [] { KeyedIdsDistinct(s[1..]); }
  }

  lemma {:induction false} IdsOfAt(s: seq<Entry>, i: nat)
    requires i < |s|
    ensures IdsOf(s)[i] == s[i].id
  {
    if i > 0 { IdsOfAt(s[1..], i - 1); }
  }

  /**
   What a sample at `now` chooses among, by the history alone: each id but the excluded one whose
   last registration is younger than lReg and was followed by registrations of fewer than mReg
   others, once.
  */
  lemma PoolOfHistory(
      history: seq<Entry>, swept: Option<int>, lReg: nat, mReg: nat, now: int, exclude: Option<string>, id: string)
    requires Clocked(history, now) && mReg > 0 && (swept.Some? ==> swept.value <= now)
    ensures
      var pool := Excluding(IdsOf(LiveOnly(Survivors(history, swept, lReg, mReg), now, lReg)), exclude);
      && Distinct(pool)
      && (id in pool <==>
            && Some(id) != exclude && LastAt(history, id).Some? && now - LastAt(history, id).value < lReg
            && |RegisteredAfter(history, id)| < mReg)
  {
    LatestShape(history, now);
    TrimShape(Latest(history), swept, lReg, mReg);
    TrimShape(Latest(history), Some(now), lReg, mReg);
    EarlyBreakIsFullSweep(Survivors(history, swept, lReg, mReg), now, lReg);
    SweepTrims(Latest(history), swept, lReg, mReg, now);
    var left := Survivors(history, Some(now), lReg, mReg);
    KeyedIdsDistinct(left);
    ExcludingShape(IdsOf(left), exclude);
    HoldsExactly(history, now, lReg, mReg, id);
  }

  // ----- The class -----

  class GraduatedRegistry {
    const lRegMs: nat
    const mReg: nat
    var entries: seq<Entry>
    var rejected: nat
    var evicted: nat
    var expired: nat

    /** Every accepted registration, the last sweep, the re-registrations of held ids, and the last clock reading. */
    ghost var history: seq<Entry>
    ghost var swept: Option<int>
    ghost var renewed: nat
    ghost var clock: int

    ghost predicate Valid()
      reads this
    {
      && lRegMs > 0 && mReg > 0
      && Clocked(history, clock) && (swept.Some? ==> swept.value <= clock)
      && entries == Survivors(history, swept, lRegMs, mReg)
      && |history| == |entries| + evicted + expired + renewed
    }

    constructor (lRegMs: nat, mReg: nat, ghost now: int)
      requires lRegMs > 0 && mReg > 0
      ensures Valid() && history == [] && swept == None && entries == [] && clock == now
      ensures this.lRegMs == lRegMs && this.mReg == mReg
      ensures rejected == evicted == expired == renewed == 0
    {
      this.lRegMs, this.mReg := lRegMs, mReg;
      entries, rejected, evicted, expired := [], 0, 0, 0;
      history, swept, renewed, clock := [], None, 0, now;
    }

    /** The bound: the oldest go until at most mReg are left. */
    method EvictOldest()
      modifies `entries, `evicted
      ensures entries == Newest(old(entries), mReg)
      ensures evicted == old(evicted) + |old(entries)| - |entries|
    {
      ghost var full := entries;
      while |entries| > mReg
        invariant |entries| <= |full| && entries == full[|full| - |entries|..]
        invariant |entries| >= mReg || entries == full
        invariant evicted == old(evicted) + |full| - |entries|
      {
        entries := entries[1..];
        evicted := evicted + 1;
      }
    }

    /** The id's entry, deleted if there, goes last; then the bound. */
    method Renew(e: Entry)
      modifies `entries, `evicted, `renewed
      ensures entries == Newest(Without(old(entries), e.id) + [e], mReg)
      ensures renewed == old(renewed) + (if Has(old(entries), e.id) then 1 else 0)
      ensures |entries| + evicted + renewed == old(|entries| + evicted + renewed) + 1
    {
      if Has(entries, e.id) {
        entries := Without(entries, e.id);
        renewed := renewed + 1;
      }
      entries := entries + [e];
      EvictOldest();
    }

    /** Record a graduation; refuses anything but a 66-hex id. */
    method Note(hex: string, now: int) returns (written: bool)
      requires Valid() && clock <= now
      modifies this
      ensures Valid() && swept == old(swept) && expired == old(expired)
      ensures written == NodeId.IsHex66(hex)
      ensures written ==> history == old(history) + [Entry(hex, now)] && clock == now && rejected == old(rejected)
      ensures written ==> renewed == old(renewed) + (if Has(old(entries), hex) then 1 else 0)
      ensures !written ==> rejected == old(rejected) + 1 && history == old(history) && entries == old(entries)
      ensures !written ==> evicted == old(evicted) && renewed == old(renewed) && clock == old(clock)
    {
      if !NodeId.IsHex66(hex) {
        rejected := rejected + 1;
        return false;
      }
      NoteRefinesHistory(history, swept, lRegMs, mReg, Entry(hex, now)) by {
        ClockedLater(history, clock, now);
      }
      Renew(Entry(hex, now));
      history := history + [Entry(hex, now)];
      clock := now;
      return true;
    }

    /** Sweep the entries registered lRegMs or more ago, from the front, up to the first live one. */
    method Prune(now: int) returns (n: nat)
      requires Valid() && clock <= now
      modifies this
      ensures Valid() && swept == Some(now) && clock == now
      ensures history == old(history) && rejected == old(rejected) && evicted == old(evicted) && renewed == old(renewed)
      ensures n == |old(entries)| - |entries| && expired == old(expired) + n
      ensures entries == LiveOnly(old(entries), now, lRegMs)
    {
      ClockedLater(history, clock, now);
      SweepTrims(Latest(history), swept, lRegMs, mReg, now);
      EntriesShape();
      EarlyBreakIsFullSweep(entries, now, lRegMs);
      n := 0;
      while n < |entries| && !(now - entries[n].at < lRegMs)
        invariant 0 <= n <= |entries|
        invariant DropExpired(entries[n..], now, lRegMs) == DropExpired(entries, now, lRegMs)
      {
        assert entries[n..][0] == entries[n] && entries[n..][1..] == entries[n + 1..];
        n := n + 1;
      }
      entries := entries[n..];
      expired := expired + n;
      swept := Some(now);
      clock := now;
    }

    lemma EntriesShape()
      requires Valid()
      ensures Keyed(entries) && Ordered(entries)
    {
      LatestShape(history, clock);
      TrimShape(Latest(history), swept, lRegMs, mReg);
    }

    /** The ids a sample at `now` chooses among: the live ones, minus the newcomer's own. */
    ghost function Pool(now: int, exclude: Option<string>): seq<string>
      reads this
    {
      Excluding(IdsOf(LiveOnly(entries, now, lRegMs)), exclude)
    }

    /** The ids held, in order, without `exclude`. */
    method HeldIds(exclude: Option<string>) returns (ids: seq<string>)
      ensures ids == Excluding(IdsOf(entries), exclude)
    {
      ghost var all := IdsOf(entries);
      ids := [];
      for i := 0 to |entries|
        invariant ids == Excluding(all[..i], exclude)
      {
        assert all[..i + 1][..i] == all[..i];
        IdsOfAt(entries, i);
        if Some(entries[i].id) != exclude {
          ids := ids + [entries[i].id];
        }
      }
      assert all[..|entries|] == all;
    }

    lemma PoolShape(exclude: Option<string>)
      requires Valid()
      ensures Distinct(Excluding(IdsOf(entries), exclude))
    {
      EntriesShape();
      KeyedIdsDistinct(entries);
      ExcludingShape(IdsOf(entries), exclude);
    }

    /** At most r ids, drawn uniformly without replacement from the live registry, minus `exclude`. */
    method Sample(r: int, exclude: Option<string>, now: int, draws: seq<nat>) returns (sample: seq<string>)
      requires Valid() && clock <= now
      requires r > 0 ==> |draws| == Min(r, |Pool(now, exclude)|) && Sampler.ValidDraws(|Pool(now, exclude)|, draws)
      modifies this
      ensures Valid() && history == old(history)
      ensures r <= 0 ==> sample == [] && entries == old(entries) && expired == old(expired)
      ensures r > 0 ==> swept == Some(now) && entries == LiveOnly(old(entries), now, lRegMs)
      ensures r > 0 ==> |sample| == Min(r, |old(Pool(now, exclude))|)
      ensures r > 0 ==> sample == Sampler.Pick(old(Pool(now, exclude)), draws)
      ensures r > 0 ==> Sampler.IsSelection(old(Pool(now, exclude)), sample)
    {
      if r <= 0 {
        return [];
      }
      var _ := Prune(now);
      var ids := HeldIds(exclude);
      PoolShape(exclude);
      Sampler.PickIsSelection(ids, draws);
      sample := Sampler.Sample(ids, draws);
    }
  }

  lemma ClockedLater(history: seq<Entry>, clock: int, now: int)
    requires Clocked(history, clock) && clock <= now
    ensures Clocked(history, now)
  {
  }
}
