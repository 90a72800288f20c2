/** Anti-concentration over a whole run (src/anchor_select.js with the `anchorUses` bump of src/server.js). */
module AnchorBalance {
  import opened Collections
  import opened AnchorSelect

  // Choosing anchors and then bumping their use counters, again and again, keeps the counters level.

  /** A fixed pool at full uptime, all of it eligible for this newcomer. */
  ghost predicate Saturated(cs: seq<Candidate>, o: Options) {
    && o.minUptimeMs >= 0 && o.wLoad > 0.0 && o.k >= 1
    && forall c :: c in cs ==>
         c.admitted && c.id != o.newId && o.now - c.since >= 10 * o.minUptimeMs && o.now > c.since
  }

  ghost predicate OneRegion(cs: seq<Candidate>) {
    forall c, d :: c in cs && d in cs ==> RegionOf(c.region) == RegionOf(d.region)
  }

  function Bump(cs: seq<Candidate>, ids: seq<ConnId>): (r: seq<Candidate>)
    ensures |r| == |cs|
    ensures forall i :: 0 <= i < |cs| ==> r[i] == if cs[i].id in ids then cs[i].(uses := cs[i].uses + 1) else cs[i]
  {
    seq(|cs|, i requires 0 <= i < |cs| => if cs[i].id in ids then cs[i].(uses := cs[i].uses + 1) else cs[i])
  }

  /** One newcomer: choose, then bump the chosen. */
  function Introduce(cs: seq<Candidate>, o: Options): seq<Candidate> {
    Bump(cs, Select(cs, o).anchors)
  }

  function Introductions(cs: seq<Candidate>, os: seq<Options>): seq<Candidate>
    decreases |os|
  {
    if os == [] then cs
    else Introduce(Introductions(cs, os[..|os| - 1]), os[|os| - 1])
  }

  /** No anchor has been used more than `gap` times oftener than another. */
  ghost predicate Level(cs: seq<Candidate>, gap: int) {
    forall c, d :: c in cs && d in cs ==> c.uses - d.uses <= gap
  }

  lemma DivideMonotone(a: real, b: real, m: real)
    requires m > 0.0 && a < b
    ensures a / m < b / m
  {
  }

  lemma ScaleMonotone(w: real, x: real, y: real)
    requires w > 0.0 && x < y
    ensures w * x < w * y
  {
  }

  lemma AtLeastOne(a: real, m: real)
    requires m > 0.0 && a >= m
    ensures a / m >= 1.0
  {
    if a > m { DivideMonotone(m, a, m); }
    assert m / m == 1.0;
  }

  /** At full uptime a better or equal score means no more uses. */
  lemma ScoreOrdersByUse(c: Candidate, d: Candidate, o: Options, maxUses: nat)
    requires o.minUptimeMs >= 0 && o.wLoad > 0.0 && c.uses <= maxUses && d.uses <= maxUses
    requires o.now - c.since >= 10 * o.minUptimeMs && o.now - d.since >= 10 * o.minUptimeMs
    requires Score(c, o, maxUses) >= Score(d, o, maxUses)
    ensures c.uses <= d.uses
  {
    if o.minUptimeMs > 0 {
      AtLeastOne((o.now - c.since) as real, (o.minUptimeMs * 10) as real);
      AtLeastOne((o.now - d.since) as real, (o.minUptimeMs * 10) as real);
    }
    if c.uses > d.uses {
      var m := maxUses as real;
      DivideMonotone(d.uses as real, c.uses as real, m);
      ScaleMonotone(o.wLoad, d.uses as real / m, c.uses as real / m);
    }
  }

  /**
   Of two equally used anchors the older never scores lower, and scores higher until the
   younger's uptime saturates; of two equally old ones the less used scores higher.
  */
  lemma ScoreWeighsAgeAndUse(c: Candidate, d: Candidate, o: Options, maxUses: nat)
    ensures c.uses == d.uses && c.since <= d.since && o.minUptimeMs >= 0 ==>
        Score(c, o, maxUses) >= Score(d, o, maxUses)
    ensures c.uses == d.uses && c.since < d.since && o.now - d.since < 10 * o.minUptimeMs && o.minUptimeMs > 0 ==>
              Score(c, o, maxUses) > Score(d, o, maxUses)
    ensures c.since == d.since && o.wLoad > 0.0 && c.uses < d.uses <= maxUses ==>
              Score(c, o, maxUses) > Score(d, o, maxUses)
  {
    var m := (o.minUptimeMs * 10) as real;
    if c.since < d.since && o.minUptimeMs > 0 {
      DivideMonotone((o.now - d.since) as real, (o.now - c.since) as real, m);
      if o.now - d.since < 10 * o.minUptimeMs {
        DivideMonotone((o.now - d.since) as real, m, m);
        assert m / m == 1.0;
      }
    }
    if c.since == d.since && o.wLoad > 0.0 && c.uses < d.uses <= maxUses {
      var n := maxUses as real;
      DivideMonotone(c.uses as real, d.uses as real, n);
      ScaleMonotone(o.wLoad, c.uses as real / n, d.uses as real / n);
    }
  }

  /** Inside one region, a chosen entry stands before one that is not. */
  lemma ChosenStandsFirst(ranked: seq<Scored>, chosen: seq<Scored>, x: nat, y: nat)
    requires Closed(ranked, chosen) && x < |ranked| && y < |ranked|
    requires ranked[x] in chosen && ranked[y] !in chosen && ranked[x].region == ranked[y].region
    ensures x < y
  {
  }

  /** Whoever is introduced has been used no more than whoever is not. */
  lemma LeastUsedFirst(cs: seq<Candidate>, o: Options, c: Candidate, d: Candidate)
    requires Unique(cs) && Saturated(cs, o) && OneRegion(cs)
    requires c in cs && d in cs && c.id in Select(cs, o).anchors && d.id !in Select(cs, o).anchors
    ensures c.uses <= d.uses
  {
    if |Eligible(cs, o)| < o.minPool {
      FallbackIntroducesAll(cs, o);
    } else {
      var ranked := Ranking(cs, o);
      var chosen := Chosen(ranked, o.newRegion, o.k);
      var ec, x := EntryOf(cs, o, c);
      var ed, y := EntryOf(cs, o, d);
      RankingIsEligible(cs, o);
      BestOfEachRegion(ranked, o.newRegion, o.k);
      ChosenByHandle(ranked, o.newRegion, o.k, ec);
      ChosenByHandle(ranked, o.newRegion, o.k, ed);
      ChosenStandsFirst(ranked, chosen, x, y);
      DescendingAt(ranked, x, y);
      ScoreOrdersByUse(c, d, o, MaxUses(Eligible(cs, o)));
    }
  }

  /** One introduction leaves the counters as level as they were, or within one. */
  lemma IntroduceKeepsLevel(cs: seq<Candidate>, o: Options, gap: int)
    requires Unique(cs) && Saturated(cs, o) && OneRegion(cs) && Level(cs, gap) && gap >= 1
    ensures Level(Introduce(cs, o), gap)
  {
    var after := Introduce(cs, o);
    forall c', d' | c' in after && d' in after
      ensures c'.uses - d'.uses <= gap
    {
      var i :| 0 <= i < |after| && after[i] == c';
      var j :| 0 <= j < |after| && after[j] == d';
      assert cs[i] in cs && cs[j] in cs;
      if cs[i].id in Select(cs, o).anchors && cs[j].id !in Select(cs, o).anchors {
        LeastUsedFirst(cs, o, cs[i], cs[j]);
      }
    }
  }

  lemma {:induction false} BumpKeepsHandles(cs: seq<Candidate>, ids: seq<ConnId>)
    requires Unique(cs)
    ensures Unique(Bump(cs, ids)) && Handles(Bump(cs, ids)) == Handles(cs)
  {
    if cs != [] {
      var r := Bump(cs, ids);
      assert r[1..] == Bump(cs[1..], ids);
      BumpKeepsHandles(cs[1..], ids);
      assert cs == [cs[0]] + cs[1..] && r == [r[0]] + r[1..];
      assert Handles(cs) == {cs[0].id} + Handles(cs[1..]);
      assert Handles(r) == {r[0].id} + Handles(r[1..]);
    }
  }

  lemma BumpKeepsPool(cs: seq<Candidate>, ids: seq<ConnId>, o: Options)
    requires Saturated(cs, o)
    ensures Saturated(Bump(cs, ids), o)
  {
    var r := Bump(cs, ids);
    forall c | c in r
      ensures c.admitted && c.id != o.newId && o.now - c.since >= 10 * o.minUptimeMs && o.now > c.since
    {
      var i :| 0 <= i < |r| && r[i] == c;
      assert cs[i] in cs;
    }
  }

  lemma BumpKeepsRegion(cs: seq<Candidate>, ids: seq<ConnId>)
    requires OneRegion(cs)
    ensures OneRegion(Bump(cs, ids))
  {
    var r := Bump(cs, ids);
    forall c, d | c in r && d in r
      ensures RegionOf(c.region) == RegionOf(d.region)
    {
      var i :| 0 <= i < |r| && r[i] == c;
      var j :| 0 <= j < |r| && r[j] == d;
      assert cs[i] in cs && cs[j] in cs;
    }
  }

  /**
   For a fixed single-region pool at full uptime, however many newcomers come and whatever
   each one's options, the most used anchor never leads the least used by more than
   max(1, the initial gap).
  */
  lemma {:induction false} IntroductionsStayBalanced(cs: seq<Candidate>, os: seq<Options>, gap: int)
    requires Unique(cs) && OneRegion(cs) && Level(cs, gap)
    requires forall i :: 0 <= i < |os| ==> Saturated(cs, os[i])
    ensures Level(Introductions(cs, os), Max(1, gap))
    ensures Unique(Introductions(cs, os)) && OneRegion(Introductions(cs, os))
    ensures forall o :: Saturated(cs, o) ==> Saturated(Introductions(cs, os), o)
    decreases |os|
  {
    if os != [] {
      var front, o := os[..|os| - 1], os[|os| - 1];
      IntroductionsStayBalanced(cs, front, gap);
      var before := Introductions(cs, front);
      IntroduceKeepsLevel(before, o, Max(1, gap));
      BumpKeepsHandles(before, Select(before, o).anchors);
      BumpKeepsRegion(before, Select(before, o).anchors);
      forall p | Saturated(cs, p)
        ensures Saturated(Introductions(cs, os), p)
      {
        BumpKeepsPool(before, Select(before, o).anchors, p);
      }
    }
  }
}
