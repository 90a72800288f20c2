/** Graduation over whole runs of the door: the keyspace stays covered, and departures are paced. */
module DoorGraduation {
  import opened Collections
  import opened Door
  import DoorViews
  import G = GraduationSelect

  // ----- The pick -----

  /** An admitted connection that the gate does not hold: only these are counted, and only these can go. */
  predicate Counted(cfg: Config, c: Conn, now: int) {
    c.admitted && !Held(cfg, c, now)
  }

  /** The gate lets through whoever has been introduced outside the cohort or has reached the nursery's ceiling. */
  predicate LetThrough(cfg: Config, c: Conn, now: int) {
    c.admitted && (!cfg.gateOn || c.reached || now - c.since >= cfg.rules.maxNurseryMs)
  }

  /** The counted connections of a region. */
  ghost function Carriers(cfg: Config, cs: seq<Conn>, now: int, region: string): nat {
    if cs == [] then 0
    else
      var c := cs[|cs| - 1];
      Carriers(cfg, cs[..|cs| - 1], now, region) + if Counted(cfg, c, now) && Region(c) == Some(region) then 1 else 0
  }

  lemma {:induction false} DescriptorOf(s: State, cfg: Config, cs: seq<Conn>, now: int, d: G.Candidate)
    requires d in Descriptors(s, cfg, cs, now)
    ensures exists i :: 0 <= i < |cs| && Counted(cfg, cs[i], now) && d == Descriptor(s, cfg, cs[i], now)
  {
    var n := |cs| - 1;
    if d in Descriptors(s, cfg, cs[..n], now) {
      DescriptorOf(s, cfg, cs[..n], now, d);
      var i :| 0 <= i < n && Counted(cfg, cs[..n][i], now) && d == Descriptor(s, cfg, cs[..n][i], now);
      assert cs[i] == cs[..n][i];
    } else {
      assert d == Descriptor(s, cfg, cs[n], now);
    }
  }

  lemma {:induction false} Described(s: State, cfg: Config, cs: seq<Conn>, now: int, i: nat)
    requires i < |cs| && Counted(cfg, cs[i], now)
    ensures Descriptor(s, cfg, cs[i], now) in Descriptors(s, cfg, cs, now)
  {
    var n := |cs| - 1;
    if i < n { Described(s, cfg, cs[..n], now, i); }
  }

  lemma OneMoreOccupant(all: seq<G.Candidate>, d: G.Candidate, region: Option<string>)
    ensures G.Occupancy(all + [d], region) == G.Occupancy(all, region) + if d.region == region then 1 else 0
  {
    assert (all + [d])[..|all|] == all;
  }

  /** What the selection counts in a region are its admitted connections that the gate lets through. */
  lemma {:induction false} OccupancyIsCarriers(s: State, cfg: Config, cs: seq<Conn>, now: int, region: string)
    ensures G.Occupancy(Descriptors(s, cfg, cs, now), Some(region)) == Carriers(cfg, cs, now, region)
  {
    if cs != [] {
      var n := |cs| - 1;
      OccupancyIsCarriers(s, cfg, cs[..n], now, region);
      var front, all := Descriptors(s, cfg, cs[..n], now), Descriptors(s, cfg, cs, now);
      if Counted(cfg, cs[n], now) {
        assert all == front + [Descriptor(s, cfg, cs[n], now)];
        OneMoreOccupant(front, Descriptor(s, cfg, cs[n], now), Some(region));
      } else {
        assert all == front;
      }
    }
  }

  lemma {:induction false} LoneCarrier(cfg: Config, cs: seq<Conn>, now: int, region: string, i: nat)
    requires forall j :: 0 <= j < |cs| && Counted(cfg, cs[j], now) && Region(cs[j]) == Some(region) ==> j == i
    ensures Carriers(cfg, cs, now, region) <= (if i < |cs| then 1 else 0)
  {
    if cs != [] {
      var n := |cs| - 1;
      forall j | 0 <= j < n && Counted(cfg, cs[..n][j], now) && Region(cs[..n][j]) == Some(region)
        ensures j == i
      {
        assert cs[j] == cs[..n][j];
      }
      LoneCarrier(cfg, cs[..n], now, region, i);
    }
  }

  lemma {:induction false} Carries(cfg: Config, cs: seq<Conn>, now: int, region: string, i: nat, j: nat)
    requires i <= j < |cs|
    requires Counted(cfg, cs[i], now) && Region(cs[i]) == Some(region)
    requires Counted(cfg, cs[j], now) && Region(cs[j]) == Some(region)
    ensures Carriers(cfg, cs, now, region) >= if i < j then 2 else 1
  {
    var n := |cs| - 1;
    if j < n {
      Carries(cfg, cs[..n], now, region, i, j);
    } else if i < n {
      Carries(cfg, cs[..n], now, region, i, i);
    }
  }

  /** Another connection of its region is counted. */
  ghost predicate HasMate(cfg: Config, cs: seq<Conn>, i: nat, now: int)
    requires i < |cs|
  {
    exists j :: 0 <= j < |cs| && j != i && Counted(cfg, cs[j], now) && Region(cs[j]) == Region(cs[i])
  }

  lemma CrowdedIff(s: State, cfg: Config, cs: seq<Conn>, i: nat, now: int)
    requires i < |cs| && Counted(cfg, cs[i], now) && Region(cs[i]).Some?
    ensures G.Occupancy(Descriptors(s, cfg, cs, now), Region(cs[i])) > 1 <==> HasMate(cfg, cs, i, now)
  {
    var region := Region(cs[i]).value;
    OccupancyIsCarriers(s, cfg, cs, now, region);
    if j :| 0 <= j < |cs| && j != i && Counted(cfg, cs[j], now) && Region(cs[j]) == Region(cs[i]) {
      Carries(cfg, cs, now, region, if i < j then i else j, if i < j then j else i);
    } else {
      LoneCarrier(cfg, cs, now, region, i);
    }
  }

  /** The position of the graduate. */
  ghost function PickedAt(s: State, cfg: Config, now: int): nat {
    var pick := GraduationPick(s, cfg, now);
    if pick.Some? then Find(s.conns, pick.value.id) else |s.conns|
  }

  /** The graduate's descriptor is the winner, and its record is the one picked. */
  lemma PickedConn(s: State, cfg: Config, now: int)
    requires DoorViews.Numbered(s) && GraduationPick(s, cfg, now).Some?
    ensures var i, all := PickedAt(s, cfg, now), Descriptors(s, cfg, s.conns, now);
      && i < |s.conns| && Counted(cfg, s.conns[i], now)
      && G.Winner(all, RulesAt(cfg, now)) == Some(Descriptor(s, cfg, s.conns[i], now))
      && G.Occupancy(all, Region(s.conns[i])) > 1
          && G.IsEligible(Descriptor(s, cfg, s.conns[i], now), RulesAt(cfg, now))
  {
    var all, r := Descriptors(s, cfg, s.conns, now), RulesAt(cfg, now);
    G.WinnerIsOptimal(all, r);
    var w := G.Winner(all, r).value;
    DescriptorOf(s, cfg, s.conns, now, w);
    var i :| 0 <= i < |s.conns| && Counted(cfg, s.conns[i], now) && w == Descriptor(s, cfg, s.conns[i], now);
    assert s.conns[i].id == w.id == GraduationPick(s, cfg, now).value.id;
    FindOf(s.conns, i);
  }

  /** The graduate is a bound, admitted connection out of cooldown, and not the last of its region. */
  lemma PickIsReplaceable(s: State, cfg: Config, now: int)
    requires DoorViews.Numbered(s) && GraduationPick(s, cfg, now).Some?
    ensures var i := PickedAt(s, cfg, now);
      && i < |s.conns| && s.conns[i].admitted && Region(s.conns[i]) == Some(GraduationPick(s, cfg, now).value.region)
      && s.conns[i].id == GraduationPick(s, cfg, now).value.id
      && s.conns[i].node.Some? && !InCooldown(s, cfg, s.conns[i].node, now)
      && HasMate(cfg, s.conns, i, now)
  {
    PickedConn(s, cfg, now);
    CrowdedIff(s, cfg, s.conns, PickedAt(s, cfg, now), now);
  }

  /** Ready to go: a fresh report of enough mesh, or the nursery ceiling, or no fresh report and enough uptime. */
  ghost predicate Ready(cfg: Config, c: Conn, now: int) {
    || (c.meshBound.Some? && c.meshBound.value >= cfg.rules.safeFloor && now - c.meshBoundAt < cfg.vitalityTtlMs)
    || now - c.since >= cfg.rules.maxNurseryMs
    || ((c.meshBound.None? || now - c.meshBoundAt >= cfg.vitalityTtlMs) && now - c.since >= cfg.rules.minUptimeMs)
  }

  /**
   Could the i-th connection go: it is counted, fit, bound, out of cooldown, and so is another
   of its region counted.
  */
  ghost predicate MayGo(s: State, cfg: Config, i: nat, now: int) {
    && i < |s.conns| && Counted(cfg, s.conns[i], now)
    && Region(s.conns[i]).Some?
    && !(s.conns[i].node.value in s.cooldown && now - s.cooldown[s.conns[i].node.value] < cfg.cooldownMs)
    && s.conns[i].kernelOk && Ready(cfg, s.conns[i], now)
    && HasMate(cfg, s.conns, i, now)
  }

  lemma EligibleIff(s: State, cfg: Config, i: nat, now: int)
    requires i < |s.conns| && Counted(cfg, s.conns[i], now)
    ensures
      var d := Descriptor(s, cfg, s.conns[i], now);
      G.IsEligible(d, RulesAt(cfg, now)) && G.Occupancy(Descriptors(s, cfg, s.conns, now), d.region) > 1
      <==> MayGo(s, cfg, i, now)
  {
    if Region(s.conns[i]).Some? { CrowdedIff(s, cfg, s.conns, i, now); }
  }

  /**
   Exactly when a tick graduates someone: above the threshold, an interval after the last, and
   when somebody may go. A mate that the gate holds does not count as one.
  */
  lemma SomeoneGraduatesIff(s: State, cfg: Config, now: int)
    ensures GraduationPick(s, cfg, now).Some? <==>
      (&& cfg.nurseryOn && now - s.lastGraduationAt >= cfg.intervalMs && AdmittedCount(s.conns) > cfg.high
       && exists i: nat :: MayGo(s, cfg, i, now))
  {
    var all, r := Descriptors(s, cfg, s.conns, now), RulesAt(cfg, now);
    G.WinnerIsOptimal(all, r);
    if G.Winner(all, r).Some? {
      DescriptorOf(s, cfg, s.conns, now, G.Winner(all, r).value);
      var i :| 0 <= i < |s.conns| && Counted(cfg, s.conns[i], now)
               && G.Winner(all, r).value == Descriptor(s, cfg, s.conns[i], now);
      EligibleIff(s, cfg, i, now);
    }
    if i: nat :| MayGo(s, cfg, i, now) {
      EligibleIff(s, cfg, i, now);
      Described(s, cfg, s.conns, now, i);
    }
  }

  /** Whoever goes can reconnect through the mesh, is ready, and has met the outside or waited long enough. */
  lemma GraduateIsFit(s: State, cfg: Config, now: int)
    requires DoorViews.Numbered(s) && GraduationPick(s, cfg, now).Some?
    ensures var i := PickedAt(s, cfg, now);
      && i < |s.conns| && s.conns[i].kernelOk && Ready(cfg, s.conns[i], now)
      && (cfg.gateOn ==> s.conns[i].reached || now - s.conns[i].since >= cfg.rules.maxNurseryMs)
    ensures cfg.nurseryOn && now - s.lastGraduationAt >= cfg.intervalMs && AdmittedCount(s.conns) > cfg.high
  {
    PickedConn(s, cfg, now);
  }

  /** What a graduation of the i-th connection does to the door. */
  ghost predicate GraduatedAt(s: State, s': State, cfg: Config, i: nat, now: int) {
    && i < |s.conns| && s.conns[i].node.Some?
    && s' == s.(conns := s.conns[i := s.conns[i].(closing := true)],
                cooldown := Pruned(s.cooldown[s.conns[i].node.value := now], cfg, now),
                lastGraduationAt := now,
                grads := s.grads + [Grad(s.conns[i].id, s.conns[i].node.value, now)])
  }

  lemma GraduateIs(s: State, cfg: Config, now: int)
    requires DoorViews.Numbered(s) && GraduationPick(s, cfg, now).Some?
    ensures GraduatedAt(s, Graduate(s, cfg, now), cfg, PickedAt(s, cfg, now), now)
  {
    PickIsReplaceable(s, cfg, now);
  }

  // ----- Which one -----

  /** The places of a region's connections that the gate lets through. */
  ghost function CountedIn(cfg: Config, cs: seq<Conn>, now: int, region: Option<string>): set<int> {
    set k | 0 <= k < |cs| && Counted(cfg, cs[k], now) && Region(cs[k]) == region
  }

  lemma {:induction false} CarriersAre(cfg: Config, cs: seq<Conn>, now: int, region: string)
    ensures Carriers(cfg, cs, now, region) == |CountedIn(cfg, cs, now, Some(region))|
  {
    if cs != [] {
      var n := |cs| - 1;
      CarriersAre(cfg, cs[..n], now, region);
      assert CountedIn(cfg, cs, now, Some(region)) == CountedIn(cfg, cs[..n], now, Some(region))
        + if Counted(cfg, cs[n], now) && Region(cs[n]) == Some(region) then {n} else {};
    }
  }

  /** The mesh a connection last reported, if the report is fresh, else -1. */
  ghost function FreshMesh(cfg: Config, c: Conn, now: int): int {
    if c.meshBound.Some? && now - c.meshBoundAt < cfg.vitalityTtlMs then c.meshBound.value else -1
  }

  /**
   No one else who may go would be a better choice than the graduate: its region is as full, of
   regions as full its fresh mesh is as large, and of equal meshes it has been here as long.
  */
  lemma GraduateIsBest(s: State, cfg: Config, now: int, j: nat)
    requires DoorViews.Numbered(s) && GraduationPick(s, cfg, now).Some? && MayGo(s, cfg, j, now)
    ensures
      var i := PickedAt(s, cfg, now);
      && i < |s.conns|
      && var m := |CountedIn(cfg, s.conns, now, Region(s.conns[i]))|;
         var n := |CountedIn(cfg, s.conns, now, Region(s.conns[j]))|;
         var x, y := FreshMesh(cfg, s.conns[i], now), FreshMesh(cfg, s.conns[j], now);
         || m > n
         || (m == n && x > y)
         || (m == n && x == y && s.conns[i].since <= s.conns[j].since)
  {
    var i, all := PickedAt(s, cfg, now), Descriptors(s, cfg, s.conns, now);
    PickedConn(s, cfg, now);
    EligibleIff(s, cfg, j, now);
    Described(s, cfg, s.conns, now, j);
    G.WinnerIsOptimal(all, RulesAt(cfg, now));
    OccupancyIsCarriers(s, cfg, s.conns, now, Region(s.conns[i]).value);
    OccupancyIsCarriers(s, cfg, s.conns, now, Region(s.conns[j]).value);
    CarriersAre(cfg, s.conns, now, Region(s.conns[i]).value);
    CarriersAre(cfg, s.conns, now, Region(s.conns[j]).value);
  }

  // ----- Graduations whose closes take effect -----

  ghost predicate NoneClosing(cs: seq<Conn>) {
    forall i :: 0 <= i < |cs| ==> !cs[i].closing
  }

  /** The regions with an admitted connection that is not on its way out. */
  ghost function Covered(cs: seq<Conn>): set<string> {
    set i | 0 <= i < |cs| && cs[i].admitted && !cs[i].closing && Region(cs[i]).Some? :: Region(cs[i]).value
  }

  /** One tick, and the close event of the graduate, if there is one. */
  function GraduateAndClose(s: State, cfg: Config, now: int): State {
    var pick := GraduationPick(s, cfg, now);
    if pick.None? then s else Close(Graduate(s, cfg, now), pick.value.id)
  }

  /** Whatever else happens at the door, and then a tick whose close takes effect. */
  datatype Round = Round(others: seq<Event>, now: int)

  function Rounds(s: State, cfg: Config, rs: seq<Round>): State
    decreases |rs|
  {
    if rs == [] then s else GraduateAndClose(BeforeTick(s, cfg, rs), cfg, rs[|rs| - 1].now)
  }

  /** The state the last tick finds. */
  function BeforeTick(s: State, cfg: Config, rs: seq<Round>): State
    requires rs != []
    decreases |rs|, 0
  {
    Run(Rounds(s, cfg, rs[..|rs| - 1]), cfg, rs[|rs| - 1].others)
  }

  /** No tick finds a close still pending. */
  ghost predicate Settled(s: State, cfg: Config, rs: seq<Round>)
    decreases |rs|
  {
    rs != [] ==> Settled(s, cfg, rs[..|rs| - 1]) && NoneClosing(BeforeTick(s, cfg, rs).conns)
  }

  /** The regions that the other events uncovered along the way, those they newly covered, and how many left by them. */
  ghost function Lost(s: State, cfg: Config, rs: seq<Round>): set<string>
    decreases |rs|
  {
    if rs == [] then {}
    else
      var front := rs[..|rs| - 1];
      Lost(s, cfg, front) + (Covered(Rounds(s, cfg, front).conns) - Covered(BeforeTick(s, cfg, rs).conns))
  }

  ghost function Gained(s: State, cfg: Config, rs: seq<Round>): set<string>
    decreases |rs|
  {
    if rs == [] then {}
    else
      var front := rs[..|rs| - 1];
      Gained(s, cfg, front) + (Covered(BeforeTick(s, cfg, rs).conns) - Covered(Rounds(s, cfg, front).conns))
  }

  ghost function Departed(s: State, cfg: Config, rs: seq<Round>): nat
    decreases |rs|
  {
    if rs == [] then 0
    else
      var front := rs[..|rs| - 1];
      Departed(s, cfg, front)
      + Max(0, AdmittedCount(Rounds(s, cfg, front).conns) - AdmittedCount(BeforeTick(s, cfg, rs).conns))
  }

  lemma {:induction false} CountWithout(cs: seq<Conn>, i: nat)
    requires i < |cs|
    ensures AdmittedCount(cs[..i] + cs[i + 1..]) == AdmittedCount(cs) - (if cs[i].admitted then 1 else 0)
  {
    var n := |cs| - 1;
    var left := cs[..i] + cs[i + 1..];
    if i == n {
      assert left == cs[..n];
    } else {
      CountWithout(cs[..n], i);
      assert left[..|left| - 1] == cs[..n][..i] + cs[..n][i + 1..];
      assert left[|left| - 1] == cs[n];
    }
  }

  lemma {:induction false} CountSame(a: seq<Conn>, b: seq<Conn>)
    requires |a| == |b| && forall i :: 0 <= i < |a| ==> a[i].admitted == b[i].admitted
    ensures AdmittedCount(a) == AdmittedCount(b)
  {
    if a != [] {
      CountSame(a[..|a| - 1], b[..|b| - 1]);
    }
  }

  lemma FindOf(cs: seq<Conn>, i: nat)
    requires i < |cs| && forall j :: 0 <= j < |cs| && j != i ==> cs[j].id != cs[i].id
    ensures Find(cs, cs[i].id) == i
  {
  }

  /** The connections after the i-th has graduated and its close has been broadcast. */
  lemma ClosedAfter(s: State, g: State, cfg: Config, i: nat, now: int)
    requires DoorViews.Numbered(s) && GraduatedAt(s, g, cfg, i, now)
    ensures Close(g, s.conns[i].id).conns == Broadcast(s.conns[..i] + s.conns[i + 1..], Left(s.conns[i].id), None)
  {
    FindOf(g.conns, i);
    assert g.conns[..i] == s.conns[..i] && g.conns[i + 1..] == s.conns[i + 1..];
  }

  lemma CoverageAfter(s: State, s': State, i: nat)
    requires DoorViews.Numbered(s) && i < |s.conns| && s.conns[i].admitted && NoneClosing(s.conns)
    requires s'.conns == Broadcast(s.conns[..i] + s.conns[i + 1..], Left(s.conns[i].id), None)
    requires exists j :: 0 <= j < |s.conns| && j != i && s.conns[j].admitted && Region(s.conns[j]) == Region(s.conns[i])
    ensures NoneClosing(s'.conns) && Covered(s'.conns) == Covered(s.conns)
    ensures AdmittedCount(s'.conns) == AdmittedCount(s.conns) - 1
  {
    var left := s.conns[..i] + s.conns[i + 1..];
    CountWithout(s.conns, i);
    ToldStaySame(left, Left(s.conns[i].id));
    CountSame(left, s'.conns);
    CoverageWithout(s.conns, i, left, s'.conns);
  }

  lemma ToldStaySame(cs: seq<Conn>, f: Frame)
    ensures var told := Broadcast(cs, f, None);
      forall k :: 0 <= k < |cs| ==>
        told[k].admitted == cs[k].admitted && told[k].closing == cs[k].closing && told[k].node == cs[k].node
  {
  }

  lemma GraduateAndCloseKeeps(s: State, cfg: Config, now: int)
    requires DoorViews.Inv(s, cfg)
    ensures DoorViews.Inv(GraduateAndClose(s, cfg, now), cfg)
  {
    if GraduationPick(s, cfg, now).Some? {
      DoorViews.GraduateKeeps(s, cfg, now);
      DoorViews.CloseKeeps(Graduate(s, cfg, now), cfg, GraduationPick(s, cfg, now).value.id);
    }
  }

  /** A graduation whose close takes effect leaves every region covered and never goes below the threshold. */
  lemma GraduationKeepsCoverage(s: State, cfg: Config, now: int)
    requires DoorViews.Inv(s, cfg) && NoneClosing(s.conns)
    ensures var s' := GraduateAndClose(s, cfg, now);
      && DoorViews.Inv(s', cfg) && NoneClosing(s'.conns)
      && Covered(s'.conns) == Covered(s.conns)
      && AdmittedCount(s'.conns) == AdmittedCount(s.conns) - (if GraduationPick(s, cfg, now).Some? then 1 else 0)
      && AdmittedCount(s'.conns) >= Min(AdmittedCount(s.conns), cfg.high)
  {
    GraduateAndCloseKeeps(s, cfg, now);
    if GraduationPick(s, cfg, now).Some? {
      var i, g := PickedAt(s, cfg, now), Graduate(s, cfg, now);
      PickIsReplaceable(s, cfg, now);
      GraduateIs(s, cfg, now);
      ClosedAfter(s, g, cfg, i, now);
      CoverageAfter(s, Close(g, s.conns[i].id), i);
    }
  }

  lemma CoverageWithout(cs: seq<Conn>, i: nat, left: seq<Conn>, after: seq<Conn>)
    requires DoorViews.LeftOver(cs, i, left) && NoneClosing(cs)
    requires exists j :: 0 <= j < |cs| && j != i && cs[j].admitted && Region(cs[j]) == Region(cs[i])
    requires |after| == |left|
    requires forall k :: 0 <= k < |left| ==>
               after[k].admitted == left[k].admitted && after[k].closing == left[k].closing
                   && after[k].node == left[k].node
    ensures NoneClosing(after) && Covered(after) == Covered(cs)
  {
    var j :| 0 <= j < |cs| && j != i && cs[j].admitted && Region(cs[j]) == Region(cs[i]);
    forall r | r in Covered(cs)
      ensures r in Covered(after)
    {
      var k :| 0 <= k < |cs| && cs[k].admitted && Region(cs[k]) == Some(r);
      var m := if k == i then j else k;
      var m' := if m < i then m else m - 1;
      assert left[m'] == cs[m] && Region(after[m']) == Some(r);
    }
    forall r | r in Covered(after)
      ensures r in Covered(cs)
    {
      var k :| 0 <= k < |after| && after[k].admitted && Region(after[k]) == Some(r);
      assert left[k] == cs[if k < i then k else k + 1];
    }
  }

  lemma {:induction false} RunKeepsFrom(s: State, cfg: Config, es: seq<Event>)
    requires DoorViews.Inv(s, cfg)
    ensures DoorViews.Inv(Run(s, cfg, es), cfg)
    decreases |es|
  {
    if es != [] {
      RunKeepsFrom(s, cfg, es[..|es| - 1]);
      DoorViews.StepKeeps(Run(s, cfg, es[..|es| - 1]), cfg, es[|es| - 1]);
    }
  }

  lemma RoundKeepsCoverage(s: State, cfg: Config, rs: seq<Round>)
    requires rs != [] && DoorViews.Inv(BeforeTick(s, cfg, rs), cfg) && NoneClosing(BeforeTick(s, cfg, rs).conns)
    ensures
      var m, s' := BeforeTick(s, cfg, rs), Rounds(s, cfg, rs);
      && DoorViews.Inv(s', cfg) && Covered(s'.conns) == Covered(m.conns)
      && AdmittedCount(s'.conns) >= Min(AdmittedCount(m.conns), cfg.high)
  {
    GraduationKeepsCoverage(BeforeTick(s, cfg, rs), cfg, rs[|rs| - 1].now);
  }

  /**
   Over any run in which no tick finds a close pending, whatever else happens in between, the
   graduations uncover no region and cover none, and never drive the admitted count below cap
   plus slack: every difference is the doing of the other events.
  */
  lemma {:induction false} GraduationsKeepKeyspaceCovered(s: State, cfg: Config, rs: seq<Round>)
    requires DoorViews.Inv(s, cfg) && Settled(s, cfg, rs)
    ensures var s' := Rounds(s, cfg, rs);
      && DoorViews.Inv(s', cfg)
      && Covered(s.conns) <= Covered(s'.conns) + Lost(s, cfg, rs)
      && Covered(s'.conns) <= Covered(s.conns) + Gained(s, cfg, rs)
      && AdmittedCount(s'.conns) + Departed(s, cfg, rs) >= Min(AdmittedCount(s.conns), cfg.high)
    decreases |rs|
  {
    if rs != [] {
      var front := rs[..|rs| - 1];
      GraduationsKeepKeyspaceCovered(s, cfg, front);
      RunKeepsFrom(Rounds(s, cfg, front), cfg, rs[|rs| - 1].others);
      RoundKeepsCoverage(s, cfg, rs);
    }
  }

  // ----- Pacing and cooldown, over every run of the door -----

  function TimeOf(e: Event): Option<int> {
    match e
    case Connects(now) => Some(now)
    case Admits(_, _, now, _) => Some(now)
    case Pings(_, _, now) => Some(now)
    case Graduates(now) => Some(now)
    case ReleasesBootstrap(_, _, now) => Some(now)
    case _ => None
  }

  /** The last clock reading of a run. */
  function Clock(es: seq<Event>): int {
    if es == [] then 0
    else if TimeOf(es[|es| - 1]).Some? then TimeOf(es[|es| - 1]).value
    else Clock(es[..|es| - 1])
  }

  /** The clock never runs backwards. */
  ghost predicate Timely(es: seq<Event>) {
    es != [] ==> Timely(es[..|es| - 1]) && Clock(es[..|es| - 1]) <= Clock(es)
  }

  /** It was graduated or released. */
  ghost predicate Went(s: State, g: Grad) {
    g in s.grads || g in s.releases
  }

  /** What the cooldown map says of a departure made at `g.at`. */
  ghost predicate Remembered(s: State, cfg: Config, clock: int, g: Grad) {
    && g.at <= clock
    && (if g.node in s.cooldown then g.at <= s.cooldown[g.node] else clock - g.at > cfg.cooldownMs)
  }

  /** The map holds nothing but departures. */
  ghost predicate Justified(s: State, node: string) {
    node in s.cooldown ==> exists g :: Went(s, g) && g.node == node && g.at == s.cooldown[node]
  }

  ghost predicate CooldownKept(s: State, cfg: Config, clock: int) {
    && (forall g :: Went(s, g) ==> Remembered(s, cfg, clock, g))
    && (forall node :: Justified(s, node))
  }

  ghost predicate Spaced(grads: seq<Grad>, interval: int) {
    forall i :: 0 < i < |grads| ==> grads[i].at - grads[i - 1].at >= interval
  }

  ghost predicate CooledDown(grads: seq<Grad>, cooldown: int) {
    forall i, j :: 0 <= i < j < |grads| && grads[i].node == grads[j].node ==> grads[j].at - grads[i].at >= cooldown
  }

  lemma OneMoreGrad(grads: seq<Grad>, g: Grad, interval: int, cooldown: int)
    requires Spaced(grads, interval) && CooledDown(grads, cooldown)
    requires grads != [] ==> g.at - grads[|grads| - 1].at >= interval
    requires forall k :: 0 <= k < |grads| && grads[k].node == g.node ==> g.at - grads[k].at >= cooldown
    ensures Spaced(grads + [g], interval) && CooledDown(grads + [g], cooldown)
  {
  }

  ghost predicate Paced(s: State, cfg: Config, clock: int) {
    && s.lastGraduationAt <= clock
    && (s.grads != [] ==> s.grads[|s.grads| - 1].at == s.lastGraduationAt)
    && Spaced(s.grads, cfg.intervalMs)
    && CooldownKept(s, cfg, clock)
    && CooledDown(s.grads, cfg.cooldownMs)
  }

  lemma PacedLater(s: State, cfg: Config, clock: int, now: int)
    requires Paced(s, cfg, clock) && clock <= now
    ensures Paced(s, cfg, now)
  {
    assert forall g :: Went(s, g) && Remembered(s, cfg, clock, g) ==> Remembered(s, cfg, now, g);
  }

  /** One more departure, marked now; pruned or not, the map goes on remembering the others. */
  lemma MarkKeeps(s: State, s': State, cfg: Config, g: Grad, now: int)
    requires CooldownKept(s, cfg, now) && g.at == now
    requires forall x :: Went(s', x) <==> Went(s, x) || x == g
    requires s'.cooldown == s.cooldown[g.node := now] || s'.cooldown == Pruned(s.cooldown[g.node := now], cfg, now)
    ensures CooldownKept(s', cfg, now)
  {
    forall x | Went(s', x)
      ensures Remembered(s', cfg, now, x)
    {
      if Went(s, x) { assert Remembered(s, cfg, now, x); }
    }
    forall node
      ensures Justified(s', node)
    {
      if node in s'.cooldown {
        if node == g.node {
          assert Went(s', g);
        } else {
          assert Justified(s, node);
          var x :| Went(s, x) && x.node == node && x.at == s.cooldown[node];
          assert Went(s', x);
        }
      }
    }
  }

  lemma GraduatePaced(s: State, s': State, cfg: Config, i: nat, now: int)
    requires Paced(s, cfg, now) && GraduatedAt(s, s', cfg, i, now)
    requires !InCooldown(s, cfg, s.conns[i].node, now) && now - s.lastGraduationAt >= cfg.intervalMs
    ensures Paced(s', cfg, now)
  {
    var node := s.conns[i].node.value;
    var g := Grad(s.conns[i].id, node, now);
    forall k | 0 <= k < |s.grads| && s.grads[k].node == node
      ensures now - s.grads[k].at >= cfg.cooldownMs
    {
      assert Went(s, s.grads[k]) && Remembered(s, cfg, now, s.grads[k]);
    }
    OneMoreGrad(s.grads, g, cfg.intervalMs, cfg.cooldownMs);
    MarkKeeps(s, s', cfg, g, now);
  }

  lemma ReleasePaced(s: State, cfg: Config, id: ConnId, doorBound: bool, now: int)
    requires Paced(s, cfg, now)
    ensures Paced(ReleaseBootstrap(s, cfg, id, doorBound, now), cfg, now)
  {
    var s', i := ReleaseBootstrap(s, cfg, id, doorBound, now), Find(s.conns, id);
    if s'.releases != s.releases {
      var g := Grad(s.conns[i].id, s.conns[i].node.value, now);
      assert s'.releases == s.releases + [g];
      MarkKeeps(s, s', cfg, g, now);
    } else {
      SameMarks(s, s', cfg, now);
    }
  }

  lemma SameMarks(s: State, s': State, cfg: Config, clock: int)
    requires CooldownKept(s, cfg, clock)
    requires s'.grads == s.grads && s'.releases == s.releases && s'.cooldown == s.cooldown
    ensures CooldownKept(s', cfg, clock)
  {
    forall g | Went(s', g)
      ensures Remembered(s', cfg, clock, g)
    {
      assert Went(s, g) && Remembered(s, cfg, clock, g);
    }
    forall node
      ensures Justified(s', node)
    {
      assert Justified(s, node);
      if node in s'.cooldown {
        var g :| Went(s, g) && g.node == node && g.at == s.cooldown[node];
        assert Went(s', g);
      }
    }
  }

  /** Every other event leaves the graduation records alone. */
  lemma RecordsUnchanged(s: State, cfg: Config, e: Event)
    requires !e.Graduates? && !e.ReleasesBootstrap?
    ensures var s' := Step(s, cfg, e);
      && s'.grads == s.grads && s'.releases == s.releases
      && s'.cooldown == s.cooldown && s'.lastGraduationAt == s.lastGraduationAt
  {
    if e.Admits? { AdmitLeavesRecords(s, cfg, e.id, e.hello, e.now, e.listed); }
  }

  lemma AdmitLeavesRecords(s: State, cfg: Config, id: ConnId, h: Hello, now: int, listed: bool)
    ensures var s' := Admit(s, cfg, id, h, now, listed);
      && s'.grads == s.grads && s'.releases == s.releases
      && s'.cooldown == s.cooldown && s'.lastGraduationAt == s.lastGraduationAt
  {
  }

  lemma StepPaced(s: State, cfg: Config, e: Event, clock: int)
    requires Paced(s, cfg, clock) && DoorViews.Numbered(s)
    requires TimeOf(e).Some? ==> TimeOf(e).value == clock
    ensures Paced(Step(s, cfg, e), cfg, clock)
  {
    match e
    case Graduates(now) =>
      if GraduationPick(s, cfg, now).Some? {
        PickIsReplaceable(s, cfg, now);
        GraduateIs(s, cfg, now);
        GraduatePaced(s, Graduate(s, cfg, now), cfg, PickedAt(s, cfg, now), now);
      }
    case ReleasesBootstrap(id, doorBound, now) => ReleasePaced(s, cfg, id, doorBound, now);
    case _ =>
      RecordsUnchanged(s, cfg, e);
      SameRecordsPaced(s, Step(s, cfg, e), cfg, clock);
  }

  lemma SameRecordsPaced(s: State, s': State, cfg: Config, clock: int)
    requires Paced(s, cfg, clock)
    requires s'.grads == s.grads && s'.releases == s.releases
    requires s'.cooldown == s.cooldown && s'.lastGraduationAt == s.lastGraduationAt
    ensures Paced(s', cfg, clock)
  {
    SameMarks(s, s', cfg, clock);
  }

  lemma {:induction false} RunPaced(cfg: Config, es: seq<Event>)
    requires Timely(es)
    ensures Paced(Run(Opening(), cfg, es), cfg, Clock(es))
    decreases |es|
  {
    if es != [] {
      var front := es[..|es| - 1];
      RunPaced(cfg, front);
      DoorViews.RunKeeps(cfg, front);
      PacedLater(Run(Opening(), cfg, front), cfg, Clock(front), Clock(es));
      StepPaced(Run(Opening(), cfg, front), cfg, es[|es| - 1], Clock(es));
    }
  }

  lemma {:induction false} GapsAddUp(grads: seq<Grad>, interval: int, i: nat, j: nat)
    requires forall k :: 0 < k < |grads| ==> grads[k].at - grads[k - 1].at >= interval
    requires i <= j < |grads|
    ensures grads[j].at - grads[i].at >= (j - i) * interval
  {
    if i < j {
      GapsAddUp(grads, interval, i, j - 1);
      assert (j - i) * interval == (j - 1 - i) * interval + interval;
    }
  }

  /** In every run of the door, N graduations span at least N - 1 intervals. */
  lemma GraduationsArePaced(cfg: Config, es: seq<Event>, i: nat, j: nat)
    requires Timely(es) && i <= j < |Run(Opening(), cfg, es).grads|
    ensures var grads := Run(Opening(), cfg, es).grads;
      grads[j].at - grads[i].at >= (j - i) * cfg.intervalMs
  {
    RunPaced(cfg, es);
    GapsAddUp(Run(Opening(), cfg, es).grads, cfg.intervalMs, i, j);
  }

  /** In every run of the door, no identity is graduated twice within the cooldown. */
  lemma NoRegraduationInCooldown(cfg: Config, es: seq<Event>, i: nat, j: nat)
    requires Timely(es) && i < j < |Run(Opening(), cfg, es).grads|
    requires Run(Opening(), cfg, es).grads[i].node == Run(Opening(), cfg, es).grads[j].node
    ensures var grads := Run(Opening(), cfg, es).grads;
      grads[j].at - grads[i].at >= cfg.cooldownMs
  {
    RunPaced(cfg, es);
  }

  /** A graduation leaves a cooldown map of a thousand alone; from a larger one it takes exactly what has run out. */
  lemma PruneDoes(cooldown: map<string, int>, cfg: Config, now: int, node: string)
    ensures |cooldown| <= 1000 ==> Pruned(cooldown, cfg, now) == cooldown
    ensures |cooldown| > 1000 ==>
      (node in Pruned(cooldown, cfg, now) <==> node in cooldown && now - cooldown[node] <= cfg.cooldownMs)
    ensures node in Pruned(cooldown, cfg, now) ==>
      node in cooldown && Pruned(cooldown, cfg, now)[node] == cooldown[node]
  {
  }

  /**
   In every run of the door an identity is in cooldown exactly when it was graduated or released
   less than the cooldown ago, although the map is pruned.
  */
  lemma CooldownIsExact(cfg: Config, es: seq<Event>, node: string, now: int)
    requires Timely(es) && Clock(es) <= now
    ensures
      var s := Run(Opening(), cfg, es);
      (node in s.cooldown && now - s.cooldown[node] < cfg.cooldownMs) <==> LatelyGone(s, cfg, node, now)
    ensures
      var s := Run(Opening(), cfg, es);
      InCooldown(s, cfg, Some(node), now) <==> LatelyGone(s, cfg, node, now)
  {
    RunPaced(cfg, es);
    var s := Run(Opening(), cfg, es);
    if node in s.cooldown {
      assert Justified(s, node);
      var g :| Went(s, g) && g.node == node && g.at == s.cooldown[node];
    }
    if g :| Went(s, g) && g.node == node && now - g.at < cfg.cooldownMs {
      assert Remembered(s, cfg, Clock(es), g);
    }
  }

  /** Graduated or released less than the cooldown ago. */
  ghost predicate LatelyGone(s: State, cfg: Config, node: string, now: int) {
    exists g :: Went(s, g) && g.node == node && now - g.at < cfg.cooldownMs
  }

  /** In every run, who may go by the history alone: fit, not lately gone, and with a mate let through as well. */
  lemma MayGoByHistory(cfg: Config, es: seq<Event>, i: nat, now: int)
    requires Timely(es) && Clock(es) <= now && i < |Run(Opening(), cfg, es).conns|
    ensures
      var s := Run(Opening(), cfg, es);
      var c := s.conns[i];
      var fit := LetThrough(cfg, c, now) && c.kernelOk && Ready(cfg, c, now) && Region(c).Some?;
      MayGo(s, cfg, i, now) <==>
        (&& fit && !LatelyGone(s, cfg, c.node.value, now)
         && exists j :: 0 <= j < |s.conns| && j != i && LetThrough(cfg, s.conns[j], now)
              && Region(s.conns[j]) == Region(c))
  {
    var s := Run(Opening(), cfg, es);
    if Region(s.conns[i]).Some? { CooldownIsExact(cfg, es, s.conns[i].node.value, now); }
    assert forall j :: 0 <= j < |s.conns| ==> (Counted(cfg, s.conns[j], now) <==> LetThrough(cfg, s.conns[j], now));
  }

  // ----- Why the closes must take effect -----

  /** The i-th connection is already leaving, or another open one of its region stays. */
  ghost predicate LeavesRegionCovered(cs: seq<Conn>, i: nat)
    requires i < |cs|
  {
    || cs[i].closing
    || exists j :: 0 <= j < |cs| && j != i && cs[j].admitted && !cs[j].closing && Region(cs[j]) == Region(cs[i])
  }

  /**
   A graduation leaves the coverage alone exactly when another open connection of the pick's
   region stays (or the pick was leaving anyway).
  */
  lemma CoverageKeptIff(s: State, cfg: Config, now: int)
    requires DoorViews.Numbered(s) && GraduationPick(s, cfg, now).Some?
    ensures var i := PickedAt(s, cfg, now);
      && i < |s.conns|
      && (Covered(Graduate(s, cfg, now).conns) == Covered(s.conns) <==> LeavesRegionCovered(s.conns, i))
  {
    PickIsReplaceable(s, cfg, now);
    GraduateIs(s, cfg, now);
    CoverageIff(s.conns, PickedAt(s, cfg, now));
  }

  lemma CoverageIff(cs: seq<Conn>, i: nat)
    requires i < |cs| && cs[i].admitted && Region(cs[i]).Some?
    ensures Covered(cs[i := cs[i].(closing := true)]) == Covered(cs) <==> LeavesRegionCovered(cs, i)
  {
    var region, after := Region(cs[i]).value, cs[i := cs[i].(closing := true)];
    assert forall k :: 0 <= k < |cs| && k != i ==> after[k] == cs[k];
    if cs[i].closing {
      assert after == cs;
    } else if j :| 0 <= j < |cs| && j != i && cs[j].admitted && !cs[j].closing && Region(cs[j]) == Region(cs[i]) {
      forall r | r in Covered(cs)
        ensures r in Covered(after)
      {
        var k :| 0 <= k < |cs| && cs[k].admitted && !cs[k].closing && Region(cs[k]) == Some(r);
        var m := if k == i then j else k;
        assert after[m] == cs[m];
      }
    } else {
      assert region in Covered(cs);
      assert region !in Covered(after);
    }
  }

  /**
   A bootstrap release has no such guard: it goes by the socket's own evidence, and keeps the
   coverage only when the socket it takes is not the last open one of its region.
  */
  lemma ReleaseKeepsCoverageIff(s: State, cfg: Config, id: ConnId, doorBound: bool, now: int)
    requires ReleaseBootstrap(s, cfg, id, doorBound, now) != s
    ensures var s', i := ReleaseBootstrap(s, cfg, id, doorBound, now), Find(s.conns, id);
      && doorBound && i < |s.conns| && s.conns[i].admitted && s.conns[i].kernelOk
      && s.conns[i].meshBound.Some? && s.conns[i].meshBound.value >= cfg.rules.safeFloor
      && now - s.conns[i].meshBoundAt < cfg.vitalityTtlMs
      && s'.conns[i].closing && s'.grads == s.grads && s'.lastGraduationAt == s.lastGraduationAt
      && (Covered(s'.conns) == Covered(s.conns) <==> Region(s.conns[i]).None? || LeavesRegionCovered(s.conns, i))
  {
    var i := Find(s.conns, id);
    if Region(s.conns[i]).Some? {
      CoverageIff(s.conns, i);
    } else {
      var after := s.conns[i := s.conns[i].(closing := true)];
      assert forall k :: 0 <= k < |after| && k != i ==> after[k] == s.conns[k];
      assert forall r :: r in Covered(s.conns) ==> r in Covered(after) by {
        forall r | r in Covered(s.conns)
          ensures r in Covered(after)
        {
          var k :| 0 <= k < |s.conns| && s.conns[k].admitted && !s.conns[k].closing && Region(s.conns[k]) == Some(r);
          assert after[k] == s.conns[k];
        }
      }
    }
  }

  // ----- And the threshold -----

  /** Admitted and not on the way out: who is really there. */
  ghost function OpenCount(cs: seq<Conn>): nat {
    if cs == [] then 0
    else OpenCount(cs[..|cs| - 1]) + if cs[|cs| - 1].admitted && !cs[|cs| - 1].closing then 1 else 0
  }

  lemma {:induction false} OpenWithout(cs: seq<Conn>, i: nat)
    requires i < |cs|
    ensures OpenCount(cs[i := cs[i].(closing := true)])
         == OpenCount(cs) - if cs[i].admitted && !cs[i].closing then 1 else 0
  {
    var n := |cs| - 1;
    var after := cs[i := cs[i].(closing := true)];
    if i == n {
      assert after[..n] == cs[..n];
    } else {
      OpenWithout(cs[..n], i);
      assert after[..n] == cs[..n][i := cs[..n][i].(closing := true)];
    }
  }

  /**
   The tick counts sockets that are already leaving, so it can go on below the threshold: it
   does not drive the open ones under cap plus slack exactly when there are more than that
   open, or the pick was leaving anyway.
  */
  lemma ThresholdKeptIff(s: State, cfg: Config, now: int)
    requires DoorViews.Numbered(s) && GraduationPick(s, cfg, now).Some?
    ensures var i := PickedAt(s, cfg, now);
      && i < |s.conns|
      && (OpenCount(Graduate(s, cfg, now).conns) >= Min(OpenCount(s.conns), cfg.high)
          <==> s.conns[i].closing || OpenCount(s.conns) > cfg.high)
  {
    PickIsReplaceable(s, cfg, now);
    GraduateIs(s, cfg, now);
    OpenWithout(s.conns, PickedAt(s, cfg, now));
  }
}
