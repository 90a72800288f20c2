/** Which connection graduates off the bridge (src/graduation_select.js). */
module GraduationSelect {
  import opened Collections

  datatype Candidate = Candidate(
    id: ConnId, region: Option<string>, since: int, meshBound: Option<int>, kernelOk: bool, inCooldown: bool)

  datatype Rules = Rules(now: int, safeFloor: int, minUptimeMs: int, maxNurseryMs: int)

  datatype Basis = Vitality | Ceiling | Uptime

  datatype Pick = Pick(id: ConnId, region: string, meshBound: Option<int>, basis: Basis)

  function BasisOf(c: Candidate, r: Rules): Option<Basis> {
    if c.meshBound.Some? && c.meshBound.value >= r.safeFloor then Some(Vitality)
    else if r.now - c.since >= r.maxNurseryMs then Some(Ceiling)
    else if c.meshBound.None? && r.now - c.since >= r.minUptimeMs then Some(Uptime)
    else None
  }

  predicate IsEligible(c: Candidate, r: Rules) {
    c.kernelOk && c.region.Some? && !c.inCooldown && BasisOf(c, r).Some?
  }

  function Eligible(cs: seq<Candidate>, r: Rules): (e: seq<Candidate>)
    ensures forall c :: c in e <==> c in cs && IsEligible(c, r)
  {
    if cs == [] then [] else (if IsEligible(cs[0], r) then [cs[0]] else []) + Eligible(cs[1..], r)
  }

  /** How many connections a region has at the door, eligible or not. */
  function Occupancy(cs: seq<Candidate>, region: Option<string>): nat {
    if cs == [] then 0
    else
      var n := |cs| - 1;
      Occupancy(cs[..n], region) + if cs[n].region == region then 1 else 0
  }

  function MeshKey(c: Candidate): int {
    if c.meshBound.None? then -1 else c.meshBound.value
  }

  /** `a` goes before `b`: fuller region, then larger mesh, then older. */
  predicate Ahead(all: seq<Candidate>, a: Candidate, b: Candidate) {
    var oa, ob := Occupancy(all, a.region), Occupancy(all, b.region);
    || oa > ob
    || (oa == ob && MeshKey(a) > MeshKey(b))
    || (oa == ob && MeshKey(a) == MeshKey(b) && a.since < b.since)
  }

  function Insert(all: seq<Candidate>, e: Candidate, s: seq<Candidate>): seq<Candidate> {
    if s == [] || !Ahead(all, s[0], e) then [e] + s else [s[0]] + Insert(all, e, s[1..])
  }

  /** The stable sort by rank. */
  function Ranked(all: seq<Candidate>, s: seq<Candidate>): seq<Candidate> {
    if s == [] then [] else Insert(all, s[0], Ranked(all, s[1..]))
  }

  /** The first in the ranking whose region would keep a member. */
  function Walk(all: seq<Candidate>, s: seq<Candidate>): Option<Candidate> {
    if s == [] then None
    else if Occupancy(all, s[0].region) > 1 then Some(s[0])
    else Walk(all, s[1..])
  }

  /** The chosen descriptor. */
  function Winner(cs: seq<Candidate>, r: Rules): Option<Candidate> {
    Walk(cs, Ranked(cs, Eligible(cs, r)))
  }

  /** `selectGraduate`. */
  function Select(cs: seq<Candidate>, r: Rules): Option<Pick> {
    var w := Winner(cs, r);
    if w.None? then None
    else
      WinnerIsOptimal(cs, r);
      Some(Pick(w.value.id, w.value.region.value, w.value.meshBound, BasisOf(w.value, r).value))
  }

  ghost predicate InOrder(all: seq<Candidate>, s: seq<Candidate>) {
    s != [] ==> (forall c :: c in s ==> !Ahead(all, c, s[0])) && InOrder(all, s[1..])
  }

  /** The candidates that neither precede nor follow `c`, in order. */
  ghost function Ties(all: seq<Candidate>, s: seq<Candidate>, c: Candidate): seq<Candidate> {
    if s == [] then []
    else (if !Ahead(all, s[0], c) && !Ahead(all, c, s[0]) then [s[0]] else []) + Ties(all, s[1..], c)
  }

  lemma {:induction false} InsertKeeps(all: seq<Candidate>, e: Candidate, s: seq<Candidate>, c: Candidate)
    requires InOrder(all, s)
    ensures InOrder(all, Insert(all, e, s))
    ensures forall x :: x in Insert(all, e, s) <==> x in s || x == e
    ensures Ties(all, Insert(all, e, s), c) == Ties(all, [e], c) + Ties(all, s, c)
  {
    var t := Insert(all, e, s);
    assert [e][1..] == [];
    if s == [] || !Ahead(all, s[0], e) {
      assert t[1..] == s;
    } else {
      InsertKeeps(all, e, s[1..], c);
      assert t[1..] == Insert(all, e, s[1..]);
      assert s == [s[0]] + s[1..];
    }
  }

  lemma {:induction false} RankedKeeps(all: seq<Candidate>, s: seq<Candidate>, c: Candidate)
    ensures InOrder(all, Ranked(all, s))
    ensures forall x :: x in Ranked(all, s) <==> x in s
    ensures Ties(all, Ranked(all, s), c) == Ties(all, s, c)
  {
    if s != [] {
      RankedKeeps(all, s[1..], c);
      InsertKeeps(all, s[0], Ranked(all, s[1..]), c);
      assert s == [s[0]] + s[1..] && [s[0]][1..] == [];
    }
  }

  lemma {:induction false} WalkFindsFirst(all: seq<Candidate>, s: seq<Candidate>)
    requires InOrder(all, s)
    ensures Walk(all, s).None? <==> forall c :: c in s ==> Occupancy(all, c.region) <= 1
    ensures var w := Walk(all, s);
      w.Some? ==>
        && w.value in s && Occupancy(all, w.value.region) > 1
        && (forall c :: c in s && Occupancy(all, c.region) > 1 ==> !Ahead(all, c, w.value))
        && [w.value] <= Ties(all, s, w.value)
  {
    if s != [] {
      assert s == [s[0]] + s[1..];
      if Occupancy(all, s[0].region) <= 1 {
        WalkFindsFirst(all, s[1..]);
      }
    }
  }

  /**
   The pick is the lexicographic optimum (region occupancy, mesh size, age) among the
   eligible peers whose region has at least two members, the first of equals; there is no
   pick only when there is no such peer.
  */
  lemma WinnerIsOptimal(cs: seq<Candidate>, r: Rules)
    ensures Winner(cs, r).None? <==>
            forall c :: c in cs && IsEligible(c, r) ==> Occupancy(cs, c.region) <= 1
    ensures var w := Winner(cs, r);
      w.Some? ==>
        && w.value in cs && IsEligible(w.value, r) && Occupancy(cs, w.value.region) > 1
        && (forall c :: c in cs && IsEligible(c, r) && Occupancy(cs, c.region) > 1 ==> !Ahead(cs, c, w.value))
        && [w.value] <= Ties(cs, Eligible(cs, r), w.value)
  {
    var e := Eligible(cs, r);
    var ranked := Ranked(cs, e);
    if cs != [] {
      var w := Walk(cs, ranked);
      RankedKeeps(cs, e, if w.Some? then w.value else cs[0]);
      WalkFindsFirst(cs, ranked);
    }
  }

  /** What the pick reports: who, from where, with how much mesh, and on what grounds. */
  lemma PickReports(cs: seq<Candidate>, r: Rules)
    requires Select(cs, r).Some?
    ensures
      var p := Select(cs, r).value;
      exists c :: c in cs && Winner(cs, r) == Some(c) && p.id == c.id && c.region == Some(p.region)
        && p.meshBound == c.meshBound
        && (p.basis == Vitality <==> c.meshBound.Some? && c.meshBound.value >= r.safeFloor)
        && (p.basis == Ceiling <==> p.basis != Vitality && r.now - c.since >= r.maxNurseryMs)
        && (p.basis == Uptime ==> c.meshBound.None? && r.now - c.since >= r.minUptimeMs)
  {
    WinnerIsOptimal(cs, r);
    var c := Winner(cs, r).value;
    assert c in cs;
  }

  // ----- The pick, said without the ranking -----

  /** The places of a region's connections, eligible or not. */
  ghost function Members(cs: seq<Candidate>, region: Option<string>): set<int> {
    set k | 0 <= k < |cs| && cs[k].region == region
  }

  lemma {:induction false} OccupancyIs(cs: seq<Candidate>, region: Option<string>)
    ensures Occupancy(cs, region) == |Members(cs, region)|
  {
    if cs != [] {
      var n := |cs| - 1;
      OccupancyIs(cs[..n], region);
      assert Members(cs, region) == Members(cs[..n], region) + if cs[n].region == region then {n} else {};
    }
  }

  /** Able to reconnect, bound, rested, ready on some ground, and not alone in its region. */
  ghost predicate MayGo(cs: seq<Candidate>, r: Rules, i: nat) {
    && i < |cs|
    && var c := cs[i];
       && c.kernelOk && c.region.Some? && !c.inCooldown && |Members(cs, c.region)| >= 2
       && (|| (c.meshBound.Some? && c.meshBound.value >= r.safeFloor)
           || r.now - c.since >= r.maxNurseryMs
           || (c.meshBound.None? && r.now - c.since >= r.minUptimeMs))
  }

  /**
   A fuller region first, then a larger mesh, an unknown one counting as -1, then the older, then
   the first listed.
  */
  ghost predicate GoesBefore(cs: seq<Candidate>, i: nat, j: nat)
    requires i < |cs| && j < |cs|
  {
    var m, n := |Members(cs, cs[i].region)|, |Members(cs, cs[j].region)|;
    var x := if cs[i].meshBound.Some? then cs[i].meshBound.value else -1;
    var y := if cs[j].meshBound.Some? then cs[j].meshBound.value else -1;
    || m > n
    || (m == n && x > y)
    || (m == n && x == y && cs[i].since < cs[j].since)
    || (m == n && x == y && cs[i].since == cs[j].since && i <= j)
  }

  lemma {:induction false} FirstTie(
      all: seq<Candidate>, cs: seq<Candidate>, r: Rules, w: Candidate, j: nat) returns (i: nat)
    requires j < |cs| && IsEligible(cs[j], r) && !Ahead(all, cs[j], w) && !Ahead(all, w, cs[j])
    requires IsEligible(w, r) && [w] <= Ties(all, Eligible(cs, r), w)
    ensures i <= j && cs[i] == w && forall k :: 0 <= k < i ==> cs[k] != w
  {
    var rest := Eligible(cs[1..], r);
    if IsEligible(cs[0], r) {
      assert Eligible(cs, r)[0] == cs[0] && Eligible(cs, r)[1..] == rest;
      if !Ahead(all, cs[0], w) && !Ahead(all, w, cs[0]) {
        assert Ties(all, Eligible(cs, r), w) == [cs[0]] + Ties(all, rest, w);
        assert Ties(all, Eligible(cs, r), w)[0] == w;
        i := 0;
        return;
      }
    } else {
      assert Eligible(cs, r) == rest;
    }
    assert cs[0] != w;
    var k := FirstTie(all, cs[1..], r, w, j - 1);
    i := k + 1;
  }

  lemma AheadIff(cs: seq<Candidate>, i: nat, j: nat)
    requires i < |cs| && j < |cs|
    ensures GoesBefore(cs, i, j) <==>
      (Ahead(cs, cs[i], cs[j]) || (!Ahead(cs, cs[j], cs[i]) && i <= j))
  {
    OccupancyIs(cs, cs[i].region);
    OccupancyIs(cs, cs[j].region);
  }

  lemma MayGoIff(cs: seq<Candidate>, r: Rules, i: nat)
    requires i < |cs|
    ensures MayGo(cs, r, i) <==> IsEligible(cs[i], r) && Occupancy(cs, cs[i].region) > 1
  {
    OccupancyIs(cs, cs[i].region);
  }

  /**
   The pick is the one among those who may go that goes before all the others, and there is none
   only if nobody may.
  */
  lemma PickIsFirst(cs: seq<Candidate>, r: Rules) returns (i: nat)
    ensures Select(cs, r).None? <==> forall j: nat :: !MayGo(cs, r, j)
    ensures Select(cs, r).Some? ==>
      && MayGo(cs, r, i) && Select(cs, r).value.id == cs[i].id
      && forall j: nat :: MayGo(cs, r, j) ==> GoesBefore(cs, i, j)
  {
    WinnerIsOptimal(cs, r);
    WhoMayGo(cs, r);
    i := 0;
    if Winner(cs, r).Some? {
      var w := Winner(cs, r).value;
      var k: nat :| k < |cs| && cs[k] == w;
      i := FirstTie(cs, cs, r, w, k);
      forall j: nat | MayGo(cs, r, j)
        ensures GoesBefore(cs, i, j)
      {
        FirstGoesBefore(cs, r, w, i, j);
      }
    }
  }

  lemma WhoMayGo(cs: seq<Candidate>, r: Rules)
    ensures (forall j: nat :: !MayGo(cs, r, j)) <==>
            forall c :: c in cs && IsEligible(c, r) ==> Occupancy(cs, c.region) <= 1
    ensures forall j: nat :: MayGo(cs, r, j) ==>
              j < |cs| && IsEligible(cs[j], r) && Occupancy(cs, cs[j].region) > 1
    ensures forall j: nat :: j < |cs| && IsEligible(cs[j], r) && Occupancy(cs, cs[j].region) > 1 ==> MayGo(cs, r, j)
  {
    forall j: nat | j < |cs|
      ensures MayGo(cs, r, j) <==> IsEligible(cs[j], r) && Occupancy(cs, cs[j].region) > 1
    {
      MayGoIff(cs, r, j);
    }
    if c :| c in cs && IsEligible(c, r) && Occupancy(cs, c.region) > 1 {
      var j: nat :| j < |cs| && cs[j] == c;
      assert MayGo(cs, r, j);
    }
  }

  lemma FirstGoesBefore(cs: seq<Candidate>, r: Rules, w: Candidate, i: nat, j: nat)
    requires i < |cs| && cs[i] == w && IsEligible(w, r) && j < |cs| && MayGo(cs, r, j) && !Ahead(cs, cs[j], w)
    requires [w] <= Ties(cs, Eligible(cs, r), w) && forall k :: 0 <= k < i ==> cs[k] != w
    ensures GoesBefore(cs, i, j)
  {
    MayGoIff(cs, r, j);
    AheadIff(cs, i, j);
    FirstStands(cs, r, w, i, j);
  }

  /** An optimum's first place is before every tie. */
  lemma FirstStands(cs: seq<Candidate>, r: Rules, w: Candidate, i: nat, j: nat)
    requires i < |cs| && j < |cs| && cs[i] == w && IsEligible(w, r) && IsEligible(cs[j], r) && !Ahead(cs, cs[j], w)
    requires [w] <= Ties(cs, Eligible(cs, r), w) && forall k :: 0 <= k < i ==> cs[k] != w
    ensures Ahead(cs, w, cs[j]) || i <= j
  {
    if !Ahead(cs, w, cs[j]) { var k := FirstTie(cs, cs, r, w, j); }
  }

  /** An optimum that is first among its equals is the only one. */
  lemma OptimumIsUnique(cs: seq<Candidate>, r: Rules, a: Candidate, b: Candidate)
    requires a in cs && IsEligible(a, r) && b in cs && IsEligible(b, r)
    requires !Ahead(cs, a, b) && !Ahead(cs, b, a)
    requires [a] <= Ties(cs, Eligible(cs, r), a) && [b] <= Ties(cs, Eligible(cs, r), b)
    ensures a == b
  {
    TiesAgree(cs, Eligible(cs, r), a, b);
  }

  lemma {:induction false} TiesAgree(all: seq<Candidate>, s: seq<Candidate>, a: Candidate, b: Candidate)
    requires !Ahead(all, a, b) && !Ahead(all, b, a)
    ensures Ties(all, s, a) == Ties(all, s, b)
  {
    if s != [] { TiesAgree(all, s[1..], a, b); }
  }

  /** The region tally the source builds first, with its loop. */
  method CountRegions(cs: seq<Candidate>) returns (counts: map<string, nat>)
    ensures forall g :: (if g in counts then counts[g] else 0) == Occupancy(cs, Some(g))
  {
    counts := map[];
    for i := 0 to |cs|
      invariant forall g :: (if g in counts then counts[g] else 0) == Occupancy(cs[..i], Some(g))
    {
      assert cs[..i + 1][..i] == cs[..i];
      var region := cs[i].region;
      if region.Some? {
        var g := region.value;
        counts := counts[g := (if g in counts then counts[g] else 0) + 1];
      }
    }
    assert cs[..|cs|] == cs;
  }

  method SelectGraduate(cs: seq<Candidate>, r: Rules) returns (pick: Option<Pick>)
    ensures pick == Select(cs, r)
  {
    var counts := CountRegions(cs);
    var ranked := Ranked(cs, Eligible(cs, r));
    RankingIsOfEligible(cs, r);
    for i := 0 to |ranked|
      invariant Walk(cs, ranked[i..]) == Winner(cs, r)
    {
      var c := ranked[i];
      assert c in ranked && ranked[i..][1..] == ranked[i + 1..];
      var g := c.region.value;
      if (if g in counts then counts[g] else 0) > 1 {
        return Some(Pick(c.id, g, c.meshBound, BasisOf(c, r).value));
      }
    }
    return None;
  }

  lemma RankingIsOfEligible(cs: seq<Candidate>, r: Rules)
    ensures forall c :: c in Ranked(cs, Eligible(cs, r)) ==> c in cs && IsEligible(c, r)
  {
    if cs != [] { RankedKeeps(cs, Eligible(cs, r), cs[0]); }
  }
}
