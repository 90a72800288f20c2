/** What the anchor choice (src/anchor_select.js) means for the candidates: who is introduced, and who before whom. */
module AnchorChoice {
  import opened Collections
  import opened AnchorSelect

  /** Admitted, not the newcomer, and connected for long enough. */
  predicate Seasoned(c: Candidate, o: Options) {
    c.admitted && c.id != o.newId && o.now - c.since >= o.minUptimeMs
  }

  ghost function SeasonedIds(cs: seq<Candidate>, o: Options): set<ConnId> {
    set c | c in cs && Seasoned(c, o) :: c.id
  }

  /** Bound in this region; the empty string is none. */
  predicate BoundIn(c: Candidate, region: string) {
    c.region == Some(region) && region != ""
  }

  predicate IsBound(c: Candidate) {
    c.region.Some? && c.region.value != ""
  }

  // ----- The small network -----

  lemma {:induction false} CountHandles(cs: seq<Candidate>)
    requires Unique(cs)
    ensures |Handles(cs)| == |cs|
  {
    if cs != [] {
      CountHandles(cs[1..]);
      assert cs == [cs[0]] + cs[1..];
      assert Handles(cs) == {cs[0].id} + Handles(cs[1..]);
    }
  }

  lemma EligibleCount(cs: seq<Candidate>, o: Options)
    requires Unique(cs)
    ensures |Eligible(cs, o)| == |SeasonedIds(cs, o)|
  {
    EligibleUnique(cs, o);
    CountHandles(Eligible(cs, o));
    assert Handles(Eligible(cs, o)) == SeasonedIds(cs, o);
  }

  /** The choice falls back exactly when fewer than the minimum are seasoned, and reports how many are. */
  lemma FallsBackIff(cs: seq<Candidate>, o: Options)
    requires Unique(cs)
    ensures Select(cs, o).fellBack <==> |SeasonedIds(cs, o)| < o.minPool
    ensures Select(cs, o).eligibleCount == |SeasonedIds(cs, o)|
  {
    EligibleCount(cs, o);
  }

  /** Then it introduces exactly everyone admitted but the newcomer, each once. */
  lemma FallbackIntroducesEveryone(cs: seq<Candidate>, o: Options)
    requires Unique(cs) && |SeasonedIds(cs, o)| < o.minPool
    ensures Distinct(Select(cs, o).anchors)
    ensures forall x :: x in Select(cs, o).anchors <==> x != o.newId && exists c :: c in cs && c.admitted && c.id == x
  {
    FallsBackIff(cs, o);
    FallbackIntroducesAll(cs, o);
    SelectIntroducesAdmitted(cs, o);
    forall c | c in cs && c.admitted && c.id != o.newId
      ensures c.id in Select(cs, o).anchors
    {
      assert IsAdmitted(c, o);
    }
  }

  // ----- The bounded choice -----

  /** A seasoned candidate is an anchor exactly when the passes choose its entry. */
  lemma Entry(cs: seq<Candidate>, o: Options, c: Candidate) returns (e: Scored, x: nat)
    requires Unique(cs) && !Select(cs, o).fellBack && c in cs && Seasoned(c, o)
    ensures e == Scored(c.id, RegionOf(c.region), Score(c, o, MaxUses(Eligible(cs, o))))
    ensures x < |Ranking(cs, o)| && Ranking(cs, o)[x] == e
    ensures c.id in Select(cs, o).anchors <==> e in Chosen(Ranking(cs, o), o.newRegion, o.k)
  {
    e, x := EntryOf(cs, o, c);
    RankingIsEligible(cs, o);
    ChosenByHandle(Ranking(cs, o), o.newRegion, o.k, e);
  }

  /** Every anchor is the entry of a seasoned candidate. */
  lemma AnchorIs(cs: seq<Candidate>, o: Options, e: Scored) returns (c: Candidate)
    requires Unique(cs) && !Select(cs, o).fellBack && e in Chosen(Ranking(cs, o), o.newRegion, o.k)
    ensures c in cs && Seasoned(c, o) && c.id == e.id && RegionOf(c.region) == e.region
    ensures c.id in Select(cs, o).anchors
  {
    var ranked := Ranking(cs, o);
    ChosenAreRanked(ranked, o.newRegion, o.k);
    RankedIsCandidate(cs, o, e);
    c :| c in cs && IsEligible(c, o) && c.id == e.id && RegionOf(c.region) == e.region;
    var chosen := Chosen(ranked, o.newRegion, o.k);
    var i :| 0 <= i < |chosen| && chosen[i] == e;
    assert ScoredIds(chosen)[i] == c.id;
  }

  /** min(k, seasoned) anchors, each seasoned and once. */
  lemma FillsItsSlots(cs: seq<Candidate>, o: Options)
    requires Unique(cs) && o.k >= 1 && !Select(cs, o).fellBack
    ensures Distinct(Select(cs, o).anchors) && |Select(cs, o).anchors| == Min(o.k, |SeasonedIds(cs, o)|)
    ensures ToSet(Select(cs, o).anchors) <= SeasonedIds(cs, o)
  {
    SelectBounded(cs, o);
    EligibleCount(cs, o);
  }

  /** A socket that has not said who it is becomes an anchor only once every seasoned bound one is. */
  lemma BoundFirst(cs: seq<Candidate>, o: Options, u: Candidate, b: Candidate)
    requires Unique(cs) && o.k >= 1 && !Select(cs, o).fellBack
    requires u in cs && Seasoned(u, o) && !IsBound(u) && u.id in Select(cs, o).anchors
    requires b in cs && Seasoned(b, o) && IsBound(b)
    ensures b.id in Select(cs, o).anchors
  {
    var eu, x := Entry(cs, o, u);
    var eb, y := Entry(cs, o, b);
    RankingIsEligible(cs, o);
    BoundBeforeUnbound(Ranking(cs, o), o.newRegion, o.k, eu, eb);
  }

  /** Of two seasoned candidates of one region, the one introduced scores no lower than the one passed over. */
  lemma BestFirst(cs: seq<Candidate>, o: Options, c: Candidate, d: Candidate)
    requires Unique(cs) && o.k >= 1 && !Select(cs, o).fellBack
    requires c in cs && Seasoned(c, o) && c.id in Select(cs, o).anchors
    requires d in cs && Seasoned(d, o) && d.id !in Select(cs, o).anchors && RegionOf(c.region) == RegionOf(d.region)
    ensures Score(c, o, MaxUses(Eligible(cs, o))) >= Score(d, o, MaxUses(Eligible(cs, o)))
  {
    var ranked := Ranking(cs, o);
    var ec, x := Entry(cs, o, c);
    var ed, y := Entry(cs, o, d);
    RankingIsEligible(cs, o);
    BestOfEachRegion(ranked, o.newRegion, o.k);
    assert x < y;
    DescendingAt(ranked, x, y);
  }

  // ----- Regions -----

  ghost function HomeOf(cs: seq<Candidate>, o: Options, ids: set<ConnId>, home: string): set<ConnId> {
    set c | c in cs && Seasoned(c, o) && BoundIn(c, home) && c.id in ids :: c.id
  }

  ghost function RegionsOf(cs: seq<Candidate>, o: Options, ids: set<ConnId>): set<string> {
    set c | c in cs && Seasoned(c, o) && IsBound(c) && c.id in ids :: c.region.value
  }

  ghost function EntryIds(part: set<Scored>): set<ConnId> {
    set e | e in part :: e.id
  }

  lemma {:induction false} CountEntries(ranked: seq<Scored>, part: set<Scored>)
    requires Apart(ranked) && forall e :: e in part ==> e in ranked
    ensures |EntryIds(part)| == |part|
  {
    ApartDistinct(ranked);
    if part != {} {
      var e :| e in part;
      CountEntries(ranked, part - {e});
      assert EntryIds(part) == EntryIds(part - {e}) + {e.id};
      assert e.id !in EntryIds(part - {e});
    }
  }

  lemma HomeRanked(cs: seq<Candidate>, o: Options, home: string)
    requires Unique(cs) && !Select(cs, o).fellBack && home != ""
    ensures EntryIds(OfRegion(Ranking(cs, o), home)) == HomeOf(cs, o, SeasonedIds(cs, o), home)
  {
    var ranked := Ranking(cs, o);
    forall c | c in cs && Seasoned(c, o) && BoundIn(c, home)
      ensures c.id in EntryIds(OfRegion(ranked, home))
    {
      var e, x := Entry(cs, o, c);
      assert e in OfRegion(ranked, home);
    }
    forall e | e in OfRegion(ranked, home)
      ensures e.id in HomeOf(cs, o, SeasonedIds(cs, o), home)
    {
      RankedIsCandidate(cs, o, e);
      var c :| c in cs && IsEligible(c, o) && c.id == e.id && RegionOf(c.region) == e.region;
      assert Seasoned(c, o);
    }
  }

  lemma HomeChosen(cs: seq<Candidate>, o: Options, home: string)
    requires Unique(cs) && !Select(cs, o).fellBack && home != ""
    ensures EntryIds(OfRegion(Chosen(Ranking(cs, o), o.newRegion, o.k), home))
         == HomeOf(cs, o, ToSet(Select(cs, o).anchors), home)
  {
    var chosen := Chosen(Ranking(cs, o), o.newRegion, o.k);
    forall c | c in cs && Seasoned(c, o) && BoundIn(c, home) && c.id in Select(cs, o).anchors
      ensures c.id in EntryIds(OfRegion(chosen, home))
    {
      var e, x := Entry(cs, o, c);
      assert e in OfRegion(chosen, home);
    }
    forall e | e in OfRegion(chosen, home)
      ensures e.id in HomeOf(cs, o, ToSet(Select(cs, o).anchors), home)
    {
      var c := AnchorIs(cs, o, e);
    }
  }

  /** Of the newcomer's own region at least max(1, k / 2) are introduced, or all there are. */
  lemma HomeShare(cs: seq<Candidate>, o: Options, home: string)
    requires Unique(cs) && o.k >= 1 && !Select(cs, o).fellBack && o.newRegion == Some(home) && home != ""
    ensures |HomeOf(cs, o, ToSet(Select(cs, o).anchors), home)| >=
            Min(if o.k >= 2 then o.k / 2 else 1, |HomeOf(cs, o, SeasonedIds(cs, o), home)|)
  {
    var ranked := Ranking(cs, o);
    var chosen := Chosen(ranked, o.newRegion, o.k);
    RankingIsEligible(cs, o);
    RegionMatesIntroduced(ranked, o.newRegion, o.k, home);
    ChosenAreRanked(ranked, o.newRegion, o.k);
    HomeRanked(cs, o, home);
    HomeChosen(cs, o, home);
    CountEntries(ranked, OfRegion(ranked, home));
    CountEntries(ranked, OfRegion(chosen, home));
  }

  /** Of R regions at least min(R, k - max(1, k / 2) + 1) are represented. */
  lemma RegionShare(cs: seq<Candidate>, o: Options)
    requires Unique(cs) && o.k >= 1 && !Select(cs, o).fellBack
    ensures |RegionsOf(cs, o, ToSet(Select(cs, o).anchors))| >=
            Min(|RegionsOf(cs, o, SeasonedIds(cs, o))|, o.k - (if o.k >= 2 then o.k / 2 else 1) + 1)
  {
    var ranked := Ranking(cs, o);
    var chosen := Chosen(ranked, o.newRegion, o.k);
    RankingIsEligible(cs, o);
    RegionsSpread(ranked, o.newRegion, o.k);
    RegionsAgree(cs, o);
  }

  lemma RegionsAgree(cs: seq<Candidate>, o: Options)
    requires Unique(cs) && !Select(cs, o).fellBack
    ensures Regions(Ranking(cs, o)) == RegionsOf(cs, o, SeasonedIds(cs, o))
    ensures Regions(Chosen(Ranking(cs, o), o.newRegion, o.k)) == RegionsOf(cs, o, ToSet(Select(cs, o).anchors))
  {
    var ranked := Ranking(cs, o);
    var chosen := Chosen(ranked, o.newRegion, o.k);
    forall c | c in cs && Seasoned(c, o) && IsBound(c)
      ensures c.region.value in Regions(ranked)
      ensures c.id in Select(cs, o).anchors ==> c.region.value in Regions(chosen)
    {
      var e, x := Entry(cs, o, c);
      assert e in ranked && e.region == c.region;
    }
    forall e | e in ranked && e.region.Some?
      ensures e.region.value in RegionsOf(cs, o, SeasonedIds(cs, o))
    {
      RankedIsCandidate(cs, o, e);
      var c :| c in cs && IsEligible(c, o) && c.id == e.id && RegionOf(c.region) == e.region;
      assert Seasoned(c, o) && IsBound(c);
    }
    forall e | e in chosen && e.region.Some?
      ensures e.region.value in RegionsOf(cs, o, ToSet(Select(cs, o).anchors))
    {
      var c := AnchorIs(cs, o, e);
      assert IsBound(c);
    }
  }

  // ----- Which regions -----

  /** A pass that leaves something it still wants has taken only what stands before it. */
  lemma {:induction false} TakenStandBefore(
      p: Pass, ranked: seq<Scored>, i: nat, limit: int, chosen: seq<Scored>, x: nat, y: nat)
    requires i <= x < |ranked| && y < |ranked| && Distinct(ranked)
    requires Wants(p, ranked[x], Take(p, ranked, i, limit, chosen))
    requires ranked[y] in Take(p, ranked, i, limit, chosen) && ranked[y] !in chosen
    ensures y < x
    decreases |ranked| - i
  {
    if i < |ranked| && |chosen| < limit {
      var next := Next(p, ranked[i], chosen);
      TakeExtends(p, ranked, i + 1, limit, next);
      var end := Take(p, ranked, i + 1, limit, next);
      if x == i {
        WantedIsTaken(p, ranked[x], chosen, end);
        assert false;
      } else if ranked[y] in next {
        assert ranked[y] == ranked[i];
      } else {
        TakenStandBefore(p, ranked, i + 1, limit, next, x, y);
      }
    }
  }

  /** Whatever is wanted in the end was wanted all along, and so was not met. */
  lemma WantedIsTaken(p: Pass, e: Scored, chosen: seq<Scored>, end: seq<Scored>)
    requires chosen <= end && Wants(p, e, end)
    ensures !(Next(p, e, chosen) <= end)
  {
    assert |end| > |chosen| ==> end[|chosen|] in end;
  }

  /**
   When there is no slot for every region, those left out are the ones whose best scores no
   better: an anchor from outside the newcomer's region scores at least as well as any
   seasoned candidate of a region that is not represented.
  */
  lemma RegionsByScore(cs: seq<Candidate>, o: Options, x: Candidate, y: Candidate)
    requires Unique(cs) && o.k >= 1 && !Select(cs, o).fellBack
    requires x in cs && Seasoned(x, o) && IsBound(x)
    requires x.region.value !in RegionsOf(cs, o, ToSet(Select(cs, o).anchors))
    requires y in cs && Seasoned(y, o) && y.id in Select(cs, o).anchors && y.region != o.newRegion
    ensures Score(y, o, MaxUses(Eligible(cs, o))) >= Score(x, o, MaxUses(Eligible(cs, o)))
  {
    var ranked := Ranking(cs, o);
    var ex, i := Entry(cs, o, x);
    var ey, j := Entry(cs, o, y);
    RankingIsEligible(cs, o);
    RegionsAgree(cs, o);
    LeftOutRegion(ranked, o.newRegion, o.k, i, j);
    DescendingAt(ranked, j, i);
  }

  lemma LeftOutRegion(ranked: seq<Scored>, newRegion: Option<string>, k: int, x: nat, y: nat)
    requires Distinct(ranked) && k >= 1 && x < |ranked| && y < |ranked|
    requires ranked[x].region.Some? && ranked[x].region.value !in Regions(Chosen(ranked, newRegion, k))
    requires ranked[y] in Chosen(ranked, newRegion, k)
    requires RegionOf(newRegion).Some? ==> ranked[y].region != RegionOf(newRegion)
    ensures y < x
  {
    PassesKeep(ranked, newRegion, k);
    var c0, c1, c3 := PassZero(ranked, newRegion, k), PassOne(ranked, newRegion, k), Chosen(ranked, newRegion, k);
    var home := RegionOf(newRegion);
    if home.Some? { OnlyHomeTaken(home.value, ranked, 0, HomeSlots(k), []); }
    assert ranked[y] !in c0;
    assert forall c :: c in c1 ==> c in c3;
    assert forall c :: c in c1 && c.region.Some? ==> c.region.value in Regions(c3);
    assert Wants(Diversity, ranked[x], c1);
    assert ranked[x] in ranked;
    assert |c1| >= k;
    assert c1 == c3;
    TakenStandBefore(Diversity, ranked, 0, k, c0, x, y);
  }

  // ----- No slots -----

  /** With no slot to give, one region-mate is introduced all the same, if there is one. */
  lemma NoSlotsIntroducesOne(cs: seq<Candidate>, o: Options)
    requires Unique(cs) && o.k <= 0 && !Select(cs, o).fellBack
    ensures |Select(cs, o).anchors| ==
            if exists c :: c in cs && Seasoned(c, o) && IsBound(c) && c.region == o.newRegion then 1 else 0
  {
    var ranked := Ranking(cs, o);
    RankingIsEligible(cs, o);
    NoSlots(ranked, o.newRegion, o.k);
    var home := RegionOf(o.newRegion);
    if c :| c in cs && Seasoned(c, o) && IsBound(c) && c.region == o.newRegion {
      var e, x := Entry(cs, o, c);
      assert e in ranked;
    }
    if home.Some? {
      if e :| e in ranked && e.region == home {
        RankedIsCandidate(cs, o, e);
        var c :| c in cs && IsEligible(c, o) && c.id == e.id && RegionOf(c.region) == e.region;
        assert Seasoned(c, o) && IsBound(c);
      }
    }
  }

  // ----- The score -----

  /**
   The score in whole numbers: uptime counts in proportion up to ten times the minimum, and a
   use costs the load weight's share of the greatest number of uses.
  */
  lemma ScoreIs(c: Candidate, o: Options, maxUses: nat)
    requires o.minUptimeMs > 0
    ensures
      var age, full := o.now - c.since, 10 * o.minUptimeMs;
      && (maxUses == 0 ==> Score(c, o, maxUses) * full as real == (if age < full then age else full) as real)
      && (maxUses > 0 ==>
            (Score(c, o, maxUses) + o.wLoad * (c.uses as real / maxUses as real)) * full as real
            == (if age < full then age else full) as real)
  {
    var n, d := (o.now - c.since) as real, (10 * o.minUptimeMs) as real;
    assert n / d * d == n;
    assert n / d < 1.0 <==> n < d by {
      if n / d < 1.0 { assert n / d * d < 1.0 * d; }
      if n / d >= 1.0 { assert n / d * d >= 1.0 * d; }
    }
  }
}
