/** The bootstrap nursery's anchor choice (src/anchor_select.js): whom a newcomer meets, and in what order. */
module AnchorSelect {
  import opened Collections

  // Scores are exact reals. The four greedy passes over the ranking are one scan, `Take`, run four
  // times with a different wish.

  datatype Candidate = Candidate(id: ConnId, admitted: bool, since: int, uses: nat, region: Option<string>)

  datatype Options = Options(
    newId: ConnId, newRegion: Option<string>, now: int,
    k: int, minUptimeMs: int, wLoad: real, minPool: int)

  datatype Scored = Scored(id: ConnId, region: Option<string>, s: real)

  datatype Selection = Selection(anchors: seq<ConnId>, fellBack: bool, eligibleCount: nat)

  /** A region that names something: the empty string is no region. */
  function RegionOf(region: Option<string>): Option<string> {
    if region.Some? && region.value != "" then region else None
  }

  // ----- Eligibility and ranking -----

  predicate IsAdmitted(c: Candidate, o: Options) {
    c.admitted && c.id != o.newId
  }

  predicate IsEligible(c: Candidate, o: Options) {
    IsAdmitted(c, o) && o.now - c.since >= o.minUptimeMs
  }

  function Admitted(cs: seq<Candidate>, o: Options): (r: seq<Candidate>)
    ensures forall c :: c in r <==> c in cs && IsAdmitted(c, o)
  {
    if cs == [] then []
    else (if IsAdmitted(cs[0], o) then [cs[0]] else []) + Admitted(cs[1..], o)
  }

  function Eligible(cs: seq<Candidate>, o: Options): (r: seq<Candidate>)
    ensures forall c :: c in r <==> c in cs && IsEligible(c, o)
  {
    if cs == [] then []
    else (if IsEligible(cs[0], o) then [cs[0]] else []) + Eligible(cs[1..], o)
  }

  function CandidateIds(cs: seq<Candidate>): (ids: seq<ConnId>)
    ensures |ids| == |cs| && forall i :: 0 <= i < |cs| ==> ids[i] == cs[i].id
  {
    seq(|cs|, i requires 0 <= i < |cs| => cs[i].id)
  }

  function MaxUses(cs: seq<Candidate>): (m: nat)
    ensures forall c :: c in cs ==> c.uses <= m
    ensures cs != [] ==> exists c :: c in cs && c.uses == m
    ensures cs == [] ==> m == 0
  {
    if cs == [] then 0
    else
      var n := |cs| - 1;
      var m := MaxUses(cs[..n]);
      assert cs == cs[..n] + [cs[n]];
      if cs[n].uses > m || n == 0 then cs[n].uses else m
  }

  /** Saturating longevity; with no minimum uptime it saturates at once. */
  function Longevity(age: int, minUptimeMs: int): real {
    if minUptimeMs == 0 then 1.0
    else
      var n := age as real / (minUptimeMs * 10) as real;
      if n < 1.0 then n else 1.0
  }

  /** Longevity minus the weighted relative load. */
  function Score(c: Candidate, o: Options, maxUses: nat): real {
    var load := if maxUses > 0 then c.uses as real / maxUses as real else 0.0;
    Longevity(o.now - c.since, o.minUptimeMs) - o.wLoad * load
  }

  function Scores(cs: seq<Candidate>, o: Options, maxUses: nat): (r: seq<Scored>)
    ensures |r| == |cs|
    ensures forall i :: 0 <= i < |cs| ==> r[i] == Scored(cs[i].id, RegionOf(cs[i].region), Score(cs[i], o, maxUses))
  {
    seq(|cs|, i requires 0 <= i < |cs| => Scored(cs[i].id, RegionOf(cs[i].region), Score(cs[i], o, maxUses)))
  }

  /** Insert before the first entry that scores no higher. */
  function Insert(e: Scored, s: seq<Scored>): seq<Scored> {
    if s == [] || e.s >= s[0].s then [e] + s else [s[0]] + Insert(e, s[1..])
  }

  /** The stable sort by descending score. */
  function SortByScore(s: seq<Scored>): seq<Scored> {
    if s == [] then [] else Insert(s[0], SortByScore(s[1..]))
  }

  ghost predicate Descending(s: seq<Scored>) {
    s != [] ==> (forall e :: e in s ==> e.s <= s[0].s) && Descending(s[1..])
  }

  /** The entries of one score, in order: what a stable sort leaves unchanged. */
  ghost function OfScore(s: seq<Scored>, v: real): seq<Scored> {
    if s == [] then [] else (if s[0].s == v then [s[0]] else []) + OfScore(s[1..], v)
  }

  lemma {:induction false} DescendingAt(s: seq<Scored>, x: nat, y: nat)
    requires Descending(s) && x < y < |s|
    ensures s[x].s >= s[y].s
  {
    if x > 0 {
      DescendingAt(s[1..], x - 1, y - 1);
    } else {
      assert s[y] in s;
    }
  }

  lemma {:induction false} InsertRearranges(e: Scored, s: seq<Scored>)
    ensures multiset(Insert(e, s)) == multiset(s) + multiset{e}
    ensures forall x :: x in Insert(e, s) <==> x in s || x == e
    ensures |Insert(e, s)| == |s| + 1
  {
    if s != [] && e.s < s[0].s {
      InsertRearranges(e, s[1..]);
      assert s == [s[0]] + s[1..];
    }
  }

  lemma {:induction false} InsertDescends(e: Scored, s: seq<Scored>)
    requires Descending(s)
    ensures Descending(Insert(e, s))
  {
    InsertRearranges(e, s);
    if s == [] || e.s >= s[0].s {
      assert Insert(e, s)[1..] == s;
    } else {
      InsertDescends(e, s[1..]);
      assert Insert(e, s)[1..] == Insert(e, s[1..]);
    }
  }

  lemma {:induction false} InsertStably(e: Scored, s: seq<Scored>, v: real)
    requires Descending(s)
    ensures OfScore(Insert(e, s), v) == (if e.s == v then [e] else []) + OfScore(s, v)
  {
    if s == [] || e.s >= s[0].s {
      assert Insert(e, s)[1..] == s;
    } else {
      InsertStably(e, s[1..], v);
      assert Insert(e, s)[1..] == Insert(e, s[1..]);
      if e.s == v {
        NoneOfScore(Insert(e, s), v);
      }
    }
  }

  /** Before the first entry of a score there is none of it. */
  lemma NoneOfScore(s: seq<Scored>, v: real)
    requires s != [] && s[0].s != v
    ensures OfScore(s, v) == OfScore(s[1..], v)
  {
  }

  /**
   The sort orders by descending score and rearranges, keeping entries of equal score in order:
   no other sequence does.
  */
  lemma {:induction false} SortIsStable(s: seq<Scored>, v: real)
    ensures Descending(SortByScore(s)) && multiset(SortByScore(s)) == multiset(s)
    ensures OfScore(SortByScore(s), v) == OfScore(s, v)
    ensures |SortByScore(s)| == |s| && forall x :: x in SortByScore(s) <==> x in s
  {
    if s != [] {
      SortIsStable(s[1..], v);
      InsertRearranges(s[0], SortByScore(s[1..]));
      InsertDescends(s[0], SortByScore(s[1..]));
      InsertStably(s[0], SortByScore(s[1..]), v);
      assert s == [s[0]] + s[1..];
    }
  }

  /** The eligible candidates, best score first. */
  function Ranking(cs: seq<Candidate>, o: Options): seq<Scored>
  {
    var eligible := Eligible(cs, o);
    SortByScore(Scores(eligible, o, MaxUses(eligible)))
  }

  // ----- The passes -----

  datatype Pass = Affinity(region: string) | Diversity | BoundOnly | Anyone

  predicate Wants(p: Pass, e: Scored, chosen: seq<Scored>) {
    && e !in chosen
    && match p
       case Affinity(r) => e.region == Some(r)
       case Diversity => e.region.Some? && forall c :: c in chosen ==> c.region != e.region
       case BoundOnly => e.region.Some?
       case Anyone => true
  }

  function Next(p: Pass, e: Scored, chosen: seq<Scored>): seq<Scored> {
    if Wants(p, e, chosen) then chosen + [e] else chosen
  }

  /** One pass over the ranking from position i, until `limit` are chosen. */
  function Take(p: Pass, ranked: seq<Scored>, i: nat, limit: int, chosen: seq<Scored>): seq<Scored>
    requires i <= |ranked|
    decreases |ranked| - i
  {
    if i == |ranked| || |chosen| >= limit then chosen
    else Take(p, ranked, i + 1, limit, Next(p, ranked[i], chosen))
  }

  /** The slots kept for the newcomer's own region. */
  function HomeSlots(k: int): int {
    Max(1, k / 2)
  }

  function PassZero(ranked: seq<Scored>, newRegion: Option<string>, k: int): seq<Scored> {
    var home := RegionOf(newRegion);
    if home.Some? then Take(Affinity(home.value), ranked, 0, HomeSlots(k), []) else []
  }

  function PassOne(ranked: seq<Scored>, newRegion: Option<string>, k: int): seq<Scored> {
    Take(Diversity, ranked, 0, k, PassZero(ranked, newRegion, k))
  }

  function PassTwo(ranked: seq<Scored>, newRegion: Option<string>, k: int): seq<Scored> {
    Take(BoundOnly, ranked, 0, k, PassOne(ranked, newRegion, k))
  }

  function Chosen(ranked: seq<Scored>, newRegion: Option<string>, k: int): seq<Scored> {
    Take(Anyone, ranked, 0, k, PassTwo(ranked, newRegion, k))
  }

  function ScoredIds(s: seq<Scored>): (ids: seq<ConnId>)
    ensures |ids| == |s| && forall i :: 0 <= i < |s| ==> ids[i] == s[i].id
  {
    seq(|s|, i requires 0 <= i < |s| => s[i].id)
  }

  /** `selectAnchors`. */
  function Select(cs: seq<Candidate>, o: Options): Selection
  {
    var eligible := Eligible(cs, o);
    if |eligible| < o.minPool then Selection(CandidateIds(Admitted(cs, o)), true, |eligible|)
    else Selection(ScoredIds(Chosen(Ranking(cs, o), o.newRegion, o.k)), false, |eligible|)
  }

  // ----- What a pass keeps -----

  /** Within each region, whoever is chosen outranks whoever is not. */
  ghost predicate Closed(ranked: seq<Scored>, chosen: seq<Scored>) {
    forall i, j :: 0 <= i < j < |ranked| && ranked[i].region == ranked[j].region && ranked[j] in chosen
      ==> ranked[i] in chosen
  }

  ghost predicate Partway(p: Pass, ranked: seq<Scored>, i: nat, chosen: seq<Scored>) {
    && i <= |ranked|
    && Distinct(ranked) && Distinct(chosen) && Closed(ranked, chosen)
    && (forall c :: c in chosen ==> c in ranked)
    && (forall x :: 0 <= x < i ==> !Wants(p, ranked[x], chosen))
  }

  lemma TakeOne(p: Pass, ranked: seq<Scored>, i: nat, chosen: seq<Scored>)
    requires i < |ranked| && Partway(p, ranked, i, chosen)
    ensures Partway(p, ranked, i + 1, Next(p, ranked[i], chosen))
  {
    var e := ranked[i];
    if Wants(p, e, chosen) {
      var more := chosen + [e];
      forall x, y | 0 <= x < y < |ranked| && ranked[x].region == ranked[y].region && ranked[y] in more
        ensures ranked[x] in more
      {
        if ranked[y] == e {
          assert y == i;
          assert !Wants(p, ranked[x], chosen);
        }
      }
    }
  }

  /** Where a pass stops: at its limit, or with nothing more it wants. */
  ghost predicate Finished(p: Pass, ranked: seq<Scored>, limit: int, chosen: seq<Scored>) {
    && Distinct(chosen) && Closed(ranked, chosen)
    && (forall c :: c in chosen ==> c in ranked)
    && (|chosen| < limit ==> forall e :: e in ranked ==> !Wants(p, e, chosen))
  }

  lemma {:induction false} TakeKeeps(p: Pass, ranked: seq<Scored>, i: nat, limit: int, chosen: seq<Scored>)
    requires Partway(p, ranked, i, chosen)
    ensures Finished(p, ranked, limit, Take(p, ranked, i, limit, chosen))
    decreases |ranked| - i
  {
    if i < |ranked| && |chosen| < limit {
      TakeOne(p, ranked, i, chosen);
      TakeKeeps(p, ranked, i + 1, limit, Next(p, ranked[i], chosen));
    }
  }

  lemma {:induction false} TakeExtends(p: Pass, ranked: seq<Scored>, i: nat, limit: int, chosen: seq<Scored>)
    requires i <= |ranked|
    ensures chosen <= Take(p, ranked, i, limit, chosen)
    ensures |Take(p, ranked, i, limit, chosen)| <= Max(limit, |chosen|)
    decreases |ranked| - i
  {
    if i < |ranked| && |chosen| < limit {
      TakeExtends(p, ranked, i + 1, limit, Next(p, ranked[i], chosen));
    }
  }

  /** All four passes at once. */
  lemma PassesKeep(ranked: seq<Scored>, newRegion: Option<string>, k: int)
    requires Distinct(ranked) && k >= 1
    ensures var c0 := PassZero(ranked, newRegion, k);
            var c1 := PassOne(ranked, newRegion, k);
            var c2 := PassTwo(ranked, newRegion, k);
            var c3 := Chosen(ranked, newRegion, k);
      && c0 <= c1 <= c2 <= c3 && |c0| <= HomeSlots(k) && |c3| <= k
      && Finished(Diversity, ranked, k, c1) && Finished(BoundOnly, ranked, k, c2) && Finished(Anyone, ranked, k, c3)
  {
    var home := RegionOf(newRegion);
    if home.Some? {
      TakeKeeps(Affinity(home.value), ranked, 0, HomeSlots(k), []);
      TakeExtends(Affinity(home.value), ranked, 0, HomeSlots(k), []);
    }
    TakeKeeps(Diversity, ranked, 0, k, PassZero(ranked, newRegion, k));
    TakeExtends(Diversity, ranked, 0, k, PassZero(ranked, newRegion, k));
    TakeKeeps(BoundOnly, ranked, 0, k, PassOne(ranked, newRegion, k));
    TakeExtends(BoundOnly, ranked, 0, k, PassOne(ranked, newRegion, k));
    TakeKeeps(Anyone, ranked, 0, k, PassTwo(ranked, newRegion, k));
    TakeExtends(Anyone, ranked, 0, k, PassTwo(ranked, newRegion, k));
  }

  /** min(k, eligible) distinct anchors, every one eligible. */
  lemma FillsEverySlot(ranked: seq<Scored>, newRegion: Option<string>, k: int)
    requires Distinct(ranked) && k >= 1
    ensures Distinct(Chosen(ranked, newRegion, k))
    ensures forall c :: c in Chosen(ranked, newRegion, k) ==> c in ranked
    ensures |Chosen(ranked, newRegion, k)| == Min(k, |ranked|)
  {
    PassesKeep(ranked, newRegion, k);
    var chosen := Chosen(ranked, newRegion, k);
    DistinctCardinality(chosen);
    DistinctCardinality(ranked);
    SubsetCardinality(ToSet(chosen), ToSet(ranked));
    if |chosen| < k {
      assert ToSet(chosen) == ToSet(ranked);
    }
  }

  /** A socket that has not said who it is becomes an anchor only once every bound one is. */
  lemma BoundBeforeUnbound(ranked: seq<Scored>, newRegion: Option<string>, k: int, u: Scored, b: Scored)
    requires Distinct(ranked) && k >= 1
    requires u in Chosen(ranked, newRegion, k) && u.region == None
    requires b in ranked && b.region.Some?
    ensures b in Chosen(ranked, newRegion, k)
  {
    PassesKeep(ranked, newRegion, k);
    var home := RegionOf(newRegion);
    if home.Some? {
      OnlyBoundTaken(Affinity(home.value), ranked, 0, HomeSlots(k), []);
    }
    OnlyBoundTaken(Diversity, ranked, 0, k, PassZero(ranked, newRegion, k));
    OnlyBoundTaken(BoundOnly, ranked, 0, k, PassOne(ranked, newRegion, k));
    var c2, c3 := PassTwo(ranked, newRegion, k), Chosen(ranked, newRegion, k);
    assert |c2| == k ==> c2 == c3;
    assert |c2| < k ==> !Wants(BoundOnly, b, c2);
  }

  lemma {:induction false} OnlyBoundTaken(p: Pass, ranked: seq<Scored>, i: nat, limit: int, chosen: seq<Scored>)
    requires i <= |ranked| && p != Anyone && forall c :: c in chosen ==> c.region.Some?
    ensures forall c :: c in Take(p, ranked, i, limit, chosen) ==> c.region.Some?
    decreases |ranked| - i
  {
    if i < |ranked| && |chosen| < limit {
      OnlyBoundTaken(p, ranked, i + 1, limit, Next(p, ranked[i], chosen));
    }
  }

  /** Within each region the chosen are a prefix of the score ranking. */
  lemma BestOfEachRegion(ranked: seq<Scored>, newRegion: Option<string>, k: int)
    requires Distinct(ranked) && k >= 1
    ensures Closed(ranked, Chosen(ranked, newRegion, k))
  {
    PassesKeep(ranked, newRegion, k);
  }

  ghost function OfRegion(s: seq<Scored>, r: string): set<Scored> {
    set e | e in s && e.region == Some(r)
  }

  /** Region-mates get min(HomeSlots, available) of the slots. */
  lemma RegionMatesIntroduced(ranked: seq<Scored>, newRegion: Option<string>, k: int, home: string)
    requires Distinct(ranked) && k >= 1 && RegionOf(newRegion) == Some(home)
    ensures |OfRegion(Chosen(ranked, newRegion, k), home)| >= Min(HomeSlots(k), |OfRegion(ranked, home)|)
  {
    PassesKeep(ranked, newRegion, k);
    var c0, c3 := PassZero(ranked, newRegion, k), Chosen(ranked, newRegion, k);
    TakeKeeps(Affinity(home), ranked, 0, HomeSlots(k), []);
    OnlyHomeTaken(home, ranked, 0, HomeSlots(k), []);
    assert ToSet(c0) <= OfRegion(c3, home);
    DistinctCardinality(c0);
    SubsetCardinality(ToSet(c0), OfRegion(c3, home));
    if |c0| < HomeSlots(k) {
      assert OfRegion(ranked, home) <= ToSet(c0);
      SubsetCardinality(OfRegion(ranked, home), ToSet(c0));
    }
  }

  lemma {:induction false} OnlyHomeTaken(home: string, ranked: seq<Scored>, i: nat, limit: int, chosen: seq<Scored>)
    requires i <= |ranked| && forall c :: c in chosen ==> c.region == Some(home)
    ensures forall c :: c in Take(Affinity(home), ranked, i, limit, chosen) ==> c.region == Some(home)
    decreases |ranked| - i
  {
    if i < |ranked| && |chosen| < limit {
      var e := ranked[i];
      OnlyHomeTaken(home, ranked, i + 1, limit, Next(Affinity(home), e, chosen));
    }
  }

  ghost function Regions(s: seq<Scored>): set<string> {
    set e | e in s && e.region.Some? :: e.region.value
  }

  /** Each addition of the diversity pass is a region of its own. */
  lemma {:induction false} DiversityAddsRegions(ranked: seq<Scored>, i: nat, limit: int, chosen: seq<Scored>)
    requires i <= |ranked|
    ensures var r := Take(Diversity, ranked, i, limit, chosen);
      |r| >= |chosen| && |Regions(r)| == |Regions(chosen)| + |r| - |chosen|
    decreases |ranked| - i
  {
    if i < |ranked| && |chosen| < limit {
      var e := ranked[i];
      if Wants(Diversity, e, chosen) {
        DiversityAddsRegions(ranked, i + 1, limit, chosen + [e]);
        assert Regions(chosen + [e]) == Regions(chosen) + {e.region.value};
      } else {
        DiversityAddsRegions(ranked, i + 1, limit, chosen);
      }
    }
  }

  /** Of R regions at least min(R, k - HomeSlots + 1) are introduced. */
  lemma RegionsSpread(ranked: seq<Scored>, newRegion: Option<string>, k: int)
    requires Distinct(ranked) && k >= 1
    ensures |Regions(Chosen(ranked, newRegion, k))| >= Min(|Regions(ranked)|, k - HomeSlots(k) + 1)
  {
    PassesKeep(ranked, newRegion, k);
    var c0, c1 := PassZero(ranked, newRegion, k), PassOne(ranked, newRegion, k);
    var c3 := Chosen(ranked, newRegion, k);
    DiversityAddsRegions(ranked, 0, k, c0);
    assert Regions(c1) <= Regions(c3);
    SubsetCardinality(Regions(c1), Regions(c3));
    if |c1| < k {
      forall r | r in Regions(ranked)
        ensures r in Regions(c1)
      {
        var e :| e in ranked && e.region == Some(r);
        assert !Wants(Diversity, e, c1);
      }
      SubsetCardinality(Regions(ranked), Regions(c1));
    } else if c0 != [] {
      var home := RegionOf(newRegion).value;
      OnlyHomeTaken(home, ranked, 0, HomeSlots(k), []);
      assert c0[0] in c0;
      assert {home} <= Regions(c0);
      SubsetCardinality({home}, Regions(c0));
    }
  }

  /** Without a slot to give, the affinity pass still takes one region-mate: `k >= 1` is what bounds the list. */
  lemma NoSlots(ranked: seq<Scored>, newRegion: Option<string>, k: int)
    requires Distinct(ranked) && k <= 0
    ensures |Chosen(ranked, newRegion, k)| ==
            if RegionOf(newRegion).Some? && exists e :: e in ranked && e.region == RegionOf(newRegion) then 1 else 0
  {
    var home := RegionOf(newRegion);
    if home.Some? {
      var c0 := PassZero(ranked, newRegion, k);
      TakeKeeps(Affinity(home.value), ranked, 0, 1, []);
      TakeExtends(Affinity(home.value), ranked, 0, 1, []);
      OnlyHomeTaken(home.value, ranked, 0, 1, []);
      assert c0 == [] ==> forall e :: e in ranked ==> !Wants(Affinity(home.value), e, c0);
      assert c0 != [] ==> c0[0] in ranked && c0[0].region == home;
    }
  }

  // ----- The ranking is of the eligible candidates -----

  ghost function Handles(cs: seq<Candidate>): set<ConnId> {
    set c | c in cs :: c.id
  }

  /** No two candidates share a handle. */
  ghost predicate Unique(cs: seq<Candidate>) {
    cs != [] ==> cs[0].id !in Handles(cs[1..]) && Unique(cs[1..])
  }

  ghost function ScoredHandles(s: seq<Scored>): set<ConnId> {
    set e | e in s :: e.id
  }

  ghost predicate Apart(s: seq<Scored>) {
    s != [] ==> s[0].id !in ScoredHandles(s[1..]) && Apart(s[1..])
  }

  lemma HandlesOfPart(cs: seq<Candidate>, part: seq<Candidate>)
    requires forall c :: c in part ==> c in cs
    ensures Handles(part) <= Handles(cs)
  {
  }

  lemma {:induction false} EligibleUnique(cs: seq<Candidate>, o: Options)
    requires Unique(cs)
    ensures Unique(Eligible(cs, o))
  {
    if cs != [] {
      EligibleUnique(cs[1..], o);
      HandlesOfPart(cs[1..], Eligible(cs[1..], o));
      if IsEligible(cs[0], o) {
        assert Eligible(cs, o)[1..] == Eligible(cs[1..], o);
      } else {
        assert Eligible(cs, o) == Eligible(cs[1..], o);
      }
    }
  }

  lemma {:induction false} ScoresApart(cs: seq<Candidate>, o: Options, maxUses: nat)
    requires Unique(cs)
    ensures Apart(Scores(cs, o, maxUses)) && ScoredHandles(Scores(cs, o, maxUses)) == Handles(cs)
  {
    var s := Scores(cs, o, maxUses);
    if cs != [] {
      assert s[1..] == Scores(cs[1..], o, maxUses);
      ScoresApart(cs[1..], o, maxUses);
      assert s == [s[0]] + s[1..] && cs == [cs[0]] + cs[1..];
      assert ScoredHandles(s) == {s[0].id} + ScoredHandles(s[1..]);
      assert Handles(cs) == {cs[0].id} + Handles(cs[1..]);
    }
  }

  lemma {:induction false} InsertApart(e: Scored, s: seq<Scored>)
    requires Apart(s) && e.id !in ScoredHandles(s)
    ensures Apart(Insert(e, s)) && ScoredHandles(Insert(e, s)) == ScoredHandles(s) + {e.id}
  {
    InsertRearranges(e, s);
    if s == [] || e.s >= s[0].s {
      assert Insert(e, s)[1..] == s;
    } else {
      InsertApart(e, s[1..]);
      assert Insert(e, s)[1..] == Insert(e, s[1..]);
      assert s[0] in s;
    }
  }

  lemma {:induction false} SortApart(s: seq<Scored>)
    requires Apart(s)
    ensures Apart(SortByScore(s)) && ScoredHandles(SortByScore(s)) == ScoredHandles(s)
  {
    if s != [] {
      SortApart(s[1..]);
      InsertApart(s[0], SortByScore(s[1..]));
      assert s == [s[0]] + s[1..];
    }
  }

  lemma {:induction false} ApartDistinct(s: seq<Scored>)
    requires Apart(s)
    ensures Distinct(s)
    ensures forall x, y :: x in s && y in s && x.id == y.id ==> x == y
  {
    if s != [] {
      ApartDistinct(s[1..]);
      assert s == [s[0]] + s[1..];
    }
  }

  /** The ranking holds each eligible candidate once, with its region and score. */
  lemma RankingIsEligible(cs: seq<Candidate>, o: Options)
    requires Unique(cs)
    ensures var ranked := Ranking(cs, o);
      && |ranked| == |Eligible(cs, o)| && Distinct(ranked) && Descending(ranked) && Apart(ranked)
      && (forall e :: e in ranked <==> e in Scores(Eligible(cs, o), o, MaxUses(Eligible(cs, o))))
  {
    EligibleUnique(cs, o);
    var eligible := Eligible(cs, o);
    var scores := Scores(eligible, o, MaxUses(eligible));
    ScoresApart(eligible, o, MaxUses(eligible));
    SortIsStable(scores, 0.0);
    SortApart(scores);
    ApartDistinct(SortByScore(scores));
  }

  // ----- selectAnchors, whole -----

  /**
   The bounded choice, for k >= 1: min(k, eligible) distinct handles of eligible
   candidates. (What it says of regions and of unbound sockets is in the lemmas above,
   about the same ranking.)
  */
  lemma SelectBounded(cs: seq<Candidate>, o: Options)
    requires Unique(cs) && o.k >= 1 && !Select(cs, o).fellBack
    ensures Distinct(Select(cs, o).anchors)
    ensures |Select(cs, o).anchors| == Min(o.k, |Eligible(cs, o)|)
    ensures forall a :: a in Select(cs, o).anchors ==> exists c :: c in cs && c.id == a && IsEligible(c, o)
  {
    RankingIsEligible(cs, o);
    var ranked := Ranking(cs, o);
    var chosen := Chosen(ranked, o.newRegion, o.k);
    FillsEverySlot(ranked, o.newRegion, o.k);
    HandlesOfDistinct(ranked, chosen);
    forall a | a in ScoredIds(chosen)
      ensures exists c :: c in cs && c.id == a && IsEligible(c, o)
    {
      var i :| 0 <= i < |chosen| && ScoredIds(chosen)[i] == a;
      RankedIsCandidate(cs, o, chosen[i]);
    }
  }

  lemma HandlesOfDistinct(ranked: seq<Scored>, chosen: seq<Scored>)
    requires Apart(ranked) && Distinct(chosen) && forall e :: e in chosen ==> e in ranked
    ensures Distinct(ScoredIds(chosen))
  {
    ApartDistinct(ranked);
    forall i, j | 0 <= i < j < |chosen|
      ensures ScoredIds(chosen)[i] != ScoredIds(chosen)[j]
    {
      assert chosen[i] in ranked && chosen[j] in ranked;
    }
  }

  /** Every entry of the ranking is some eligible candidate's. */
  lemma RankedIsCandidate(cs: seq<Candidate>, o: Options, e: Scored)
    requires Unique(cs) && e in Ranking(cs, o)
    ensures exists c :: c in cs && IsEligible(c, o) && c.id == e.id && RegionOf(c.region) == e.region
  {
    RankingIsEligible(cs, o);
    var eligible := Eligible(cs, o);
    var scores := Scores(eligible, o, MaxUses(eligible));
    var j :| 0 <= j < |scores| && scores[j] == e;
    assert eligible[j] in eligible;
  }

  /** And every eligible candidate has its entry. */
  lemma EntryOf(cs: seq<Candidate>, o: Options, c: Candidate) returns (e: Scored, x: nat)
    requires Unique(cs) && c in cs && IsEligible(c, o)
    ensures e == Scored(c.id, RegionOf(c.region), Score(c, o, MaxUses(Eligible(cs, o))))
    ensures x < |Ranking(cs, o)| && Ranking(cs, o)[x] == e
  {
    var eligible := Eligible(cs, o);
    var scores := Scores(eligible, o, MaxUses(eligible));
    var i :| 0 <= i < |eligible| && eligible[i] == c;
    e := scores[i];
    RankingIsEligible(cs, o);
    assert e in Ranking(cs, o);
    x :| 0 <= x < |Ranking(cs, o)| && Ranking(cs, o)[x] == e;
  }

  /** An entry is chosen exactly when its handle is among the anchors. */
  lemma ChosenByHandle(ranked: seq<Scored>, newRegion: Option<string>, k: int, e: Scored)
    requires Apart(ranked) && e in ranked
    ensures e in Chosen(ranked, newRegion, k) <==> e.id in ScoredIds(Chosen(ranked, newRegion, k))
  {
    var chosen := Chosen(ranked, newRegion, k);
    ApartDistinct(ranked);
    ChosenAreRanked(ranked, newRegion, k);
    if e in chosen {
      var j :| 0 <= j < |chosen| && chosen[j] == e;
      assert ScoredIds(chosen)[j] == e.id;
    }
    if e.id in ScoredIds(chosen) {
      var j :| 0 <= j < |chosen| && ScoredIds(chosen)[j] == e.id;
      assert chosen[j] in ranked;
    }
  }

  /** Whichever way it chooses, it introduces only admitted connections, and never the newcomer to itself. */
  lemma SelectIntroducesAdmitted(cs: seq<Candidate>, o: Options)
    requires Unique(cs)
    ensures forall a :: a in Select(cs, o).anchors ==>
              a != o.newId && exists c :: c in cs && c.id == a && c.admitted
  {
    var r := Select(cs, o);
    forall a | a in r.anchors
      ensures a != o.newId && exists c :: c in cs && c.id == a && c.admitted
    {
      var i :| 0 <= i < |r.anchors| && r.anchors[i] == a;
      if r.fellBack {
        assert Admitted(cs, o)[i] in Admitted(cs, o);
      } else {
        var ranked := Ranking(cs, o);
        ChosenAreRanked(ranked, o.newRegion, o.k);
        RankedIsCandidate(cs, o, Chosen(ranked, o.newRegion, o.k)[i]);
      }
    }
  }

  lemma ChosenAreRanked(ranked: seq<Scored>, newRegion: Option<string>, k: int)
    ensures forall e :: e in Chosen(ranked, newRegion, k) ==> e in ranked
  {
    var home := RegionOf(newRegion);
    if home.Some? {
      TakenAreRanked(Affinity(home.value), ranked, 0, HomeSlots(k), []);
    }
    TakenAreRanked(Diversity, ranked, 0, k, PassZero(ranked, newRegion, k));
    TakenAreRanked(BoundOnly, ranked, 0, k, PassOne(ranked, newRegion, k));
    TakenAreRanked(Anyone, ranked, 0, k, PassTwo(ranked, newRegion, k));
  }

  lemma {:induction false} TakenAreRanked(p: Pass, ranked: seq<Scored>, i: nat, limit: int, chosen: seq<Scored>)
    requires i <= |ranked| && forall e :: e in chosen ==> e in ranked
    ensures forall e :: e in Take(p, ranked, i, limit, chosen) ==> e in ranked
    decreases |ranked| - i
  {
    if i < |ranked| && |chosen| < limit {
      TakenAreRanked(p, ranked, i + 1, limit, Next(p, ranked[i], chosen));
    }
  }

  lemma ChosenDistinct(ranked: seq<Scored>, newRegion: Option<string>, k: int)
    ensures Distinct(Chosen(ranked, newRegion, k))
  {
    var home := RegionOf(newRegion);
    if home.Some? {
      TakenDistinct(Affinity(home.value), ranked, 0, HomeSlots(k), []);
    }
    TakenDistinct(Diversity, ranked, 0, k, PassZero(ranked, newRegion, k));
    TakenDistinct(BoundOnly, ranked, 0, k, PassOne(ranked, newRegion, k));
    TakenDistinct(Anyone, ranked, 0, k, PassTwo(ranked, newRegion, k));
  }

  lemma {:induction false} TakenDistinct(p: Pass, ranked: seq<Scored>, i: nat, limit: int, chosen: seq<Scored>)
    requires i <= |ranked| && Distinct(chosen)
    ensures Distinct(Take(p, ranked, i, limit, chosen))
    decreases |ranked| - i
  {
    if i < |ranked| && |chosen| < limit {
      TakenDistinct(p, ranked, i + 1, limit, Next(p, ranked[i], chosen));
    }
  }

  /** Falling back hands out every admitted connection but the newcomer, once each. */
  lemma {:induction false} FallbackIntroducesAll(cs: seq<Candidate>, o: Options)
    requires Unique(cs)
    ensures forall c :: c in cs && IsAdmitted(c, o) ==> c.id in CandidateIds(Admitted(cs, o))
    ensures Distinct(CandidateIds(Admitted(cs, o)))
  {
    forall c | c in cs && IsAdmitted(c, o)
      ensures c.id in CandidateIds(Admitted(cs, o))
    {
      var i :| 0 <= i < |Admitted(cs, o)| && Admitted(cs, o)[i] == c;
      assert CandidateIds(Admitted(cs, o))[i] == c.id;
    }
    AdmittedUnique(cs, o);
    UniqueDistinct(Admitted(cs, o));
  }

  lemma {:induction false} AdmittedUnique(cs: seq<Candidate>, o: Options)
    requires Unique(cs)
    ensures Unique(Admitted(cs, o))
  {
    if cs != [] {
      AdmittedUnique(cs[1..], o);
      HandlesOfPart(cs[1..], Admitted(cs[1..], o));
      if IsAdmitted(cs[0], o) {
        assert Admitted(cs, o)[1..] == Admitted(cs[1..], o);
      } else {
        assert Admitted(cs, o) == Admitted(cs[1..], o);
      }
    }
  }

  lemma {:induction false} UniqueDistinct(cs: seq<Candidate>)
    requires Unique(cs)
    ensures forall i, j :: 0 <= i < j < |cs| ==> cs[i].id != cs[j].id
  {
    if cs != [] {
      UniqueDistinct(cs[1..]);
      assert forall j :: 1 <= j < |cs| ==> cs[j] == cs[1..][j - 1] && cs[j] in cs[1..];
    }
  }

  // ----- The loops -----

  /** One pass, as the source's `for` loop with its `usedRegions` set. */
  method RunPass(p: Pass, ranked: seq<Scored>, limit: int, chosen0: seq<Scored>, used0: set<string>)
      returns (chosen: seq<Scored>, used: set<string>)
    requires used0 == Regions(chosen0)
    ensures chosen == Take(p, ranked, 0, limit, chosen0)
    ensures used == Regions(chosen)
  {
    chosen, used := chosen0, used0;
    for i := 0 to |ranked|
      invariant used == Regions(chosen)
      invariant Take(p, ranked, i, limit, chosen) == Take(p, ranked, 0, limit, chosen0)
    {
      if |chosen| >= limit {
        break;
      }
      var e := ranked[i];
      if e !in chosen {
        var wanted := match p
          case Affinity(r) => e.region == Some(r)
          case Diversity => e.region.Some? && e.region.value !in used
          case BoundOnly => e.region.Some?
          case Anyone => true;
        if wanted {
          chosen := chosen + [e];
          if e.region.Some? {
            used := used + {e.region.value};
          }
        }
      }
    }
  }

  method FindMaxUses(cs: seq<Candidate>) returns (maxUses: nat)
    ensures maxUses == MaxUses(cs)
  {
    maxUses := 0;
    for i := 0 to |cs|
      invariant maxUses == MaxUses(cs[..i])
    {
      assert cs[..i + 1][..i] == cs[..i];
      if cs[i].uses > maxUses {
        maxUses := cs[i].uses;
      }
    }
    assert cs[..|cs|] == cs;
  }

  /** `selectAnchors`. */
  method SelectAnchors(cs: seq<Candidate>, o: Options) returns (r: Selection)
    ensures r == Select(cs, o)
  {
    var eligible := Eligible(cs, o);
    if |eligible| < o.minPool {
      return Selection(CandidateIds(Admitted(cs, o)), true, |eligible|);
    }
    var maxUses := FindMaxUses(eligible);
    var ranked := SortByScore(Scores(eligible, o, maxUses));
    var chosen, used: set<string> := [], {};
    var home := RegionOf(o.newRegion);
    if home.Some? {
      chosen, used := RunPass(Affinity(home.value), ranked, HomeSlots(o.k), chosen, used);
    }
    chosen, used := RunPass(Diversity, ranked, o.k, chosen, used);
    chosen, used := RunPass(BoundOnly, ranked, o.k, chosen, used);
    chosen, used := RunPass(Anyone, ranked, o.k, chosen, used);
    return Selection(ScoredIds(chosen), false, |eligible|);
  }

  // ----- Same region first -----

  type RegionMap = map<ConnId, Option<string>>

  /** The peers whose region is `region`, in order. */
  function Mates(peers: seq<ConnId>, regionOf: RegionMap, region: Option<string>, mates: bool): seq<ConnId> {
    if peers == [] then []
    else
      var n := |peers| - 1;
      var isMate := peers[n] in regionOf && regionOf[peers[n]] == region;
      Mates(peers[..n], regionOf, region, mates) + (if isMate == mates then [peers[n]] else [])
  }

  function SameRegionFirst(peers: seq<ConnId>, regionOf: RegionMap, newRegion: Option<string>): seq<ConnId> {
    var home := RegionOf(newRegion);
    if home == None then peers
    else Mates(peers, regionOf, home, true) + Mates(peers, regionOf, home, false)
  }

  lemma {:induction false} MatesRearrange(peers: seq<ConnId>, regionOf: RegionMap, region: Option<string>)
    ensures multiset(Mates(peers, regionOf, region, true)) + multiset(Mates(peers, regionOf, region, false)) ==
        multiset(peers)
  {
    if peers != [] {
      MatesRearrange(peers[..|peers| - 1], regionOf, region);
      assert peers == peers[..|peers| - 1] + [peers[|peers| - 1]];
    }
  }

  lemma {:induction false} MatesAreMates(peers: seq<ConnId>, regionOf: RegionMap, region: Option<string>, mates: bool)
    ensures forall x :: x in Mates(peers, regionOf, region, mates) ==> (x in regionOf && regionOf[x] == region) == mates
  {
    if peers != [] {
      MatesAreMates(peers[..|peers| - 1], regionOf, region, mates);
    }
  }

  lemma {:induction false} MatesOfSame(peers: seq<ConnId>, regionOf: RegionMap, region: Option<string>, m: bool,
      w: bool)
    requires forall x :: x in peers ==> (x in regionOf && regionOf[x] == region) == m
    ensures Mates(peers, regionOf, region, w) == if m == w then peers else []
  {
    if peers != [] {
      MatesOfSame(peers[..|peers| - 1], regionOf, region, m, w);
      assert peers == peers[..|peers| - 1] + [peers[|peers| - 1]];
    }
  }

  lemma {:induction false} MatesConcat(a: seq<ConnId>, b: seq<ConnId>, regionOf: RegionMap, region: Option<string>,
      w: bool)
    ensures Mates(a + b, regionOf, region, w) == Mates(a, regionOf, region, w) + Mates(b, regionOf, region, w)
  {
    if b == [] {
      assert a + b == a;
    } else {
      var n := |b| - 1;
      assert (a + b)[..|a + b| - 1] == a + b[..n];
      MatesConcat(a, b[..n], regionOf, region, w);
    }
  }

  /** The reordering loses no peer and puts exactly the region-mates in front. */
  lemma OrderPutsMatesFirst(peers: seq<ConnId>, regionOf: RegionMap, newRegion: Option<string>)
    ensures var r := SameRegionFirst(peers, regionOf, newRegion);
            var home := RegionOf(newRegion);
      && multiset(r) == multiset(peers)
      && (home.Some? ==>
            forall i :: 0 <= i < |r| ==>
              ((r[i] in regionOf && regionOf[r[i]] == home) <==> i < |Mates(peers, regionOf, home, true)|))
  {
    var home := RegionOf(newRegion);
    if home.Some? {
      MatesRearrange(peers, regionOf, home);
      MatesAreMates(peers, regionOf, home, true);
      MatesAreMates(peers, regionOf, home, false);
    }
  }

  /** Region-mates keep their order among themselves, and so do the others. */
  lemma OrderIsStable(peers: seq<ConnId>, regionOf: RegionMap, newRegion: Option<string>, mates: bool)
    requires RegionOf(newRegion).Some?
    ensures Mates(SameRegionFirst(peers, regionOf, newRegion), regionOf, RegionOf(newRegion), mates)
         == Mates(peers, regionOf, RegionOf(newRegion), mates)
  {
    var home := RegionOf(newRegion);
    var front, back := Mates(peers, regionOf, home, true), Mates(peers, regionOf, home, false);
    MatesAreMates(peers, regionOf, home, true);
    MatesAreMates(peers, regionOf, home, false);
    MatesOfSame(front, regionOf, home, true, mates);
    MatesOfSame(back, regionOf, home, false, mates);
    MatesConcat(front, back, regionOf, home, mates);
  }

  /** `orderSameRegionFirst`; a handle without an entry in `regionOf` is unbound. */
  method OrderSameRegionFirst(peers: seq<ConnId>, regionOf: RegionMap, newRegion: Option<string>)
    returns (r: seq<ConnId>)
    ensures r == SameRegionFirst(peers, regionOf, newRegion)
  {
    var home := RegionOf(newRegion);
    if home == None {
      return peers;
    }
    var same, rest := [], [];
    for i := 0 to |peers|
      invariant same == Mates(peers[..i], regionOf, home, true)
      invariant rest == Mates(peers[..i], regionOf, home, false)
    {
      assert peers[..i + 1][..i] == peers[..i];
      if peers[i] in regionOf && regionOf[peers[i]] == home {
        same := same + [peers[i]];
      } else {
        rest := rest + [peers[i]];
      }
    }
    assert peers[..|peers|] == peers;
    return same + rest;
  }
}
