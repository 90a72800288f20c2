/**
 Runs of the door, from its opening, in which the conditions of DoorGraduation fail.

 Two peers connect to a door with room for one, are admitted, bind and report their mesh. What
 graduation reads of their records is followed through the run; what is sent to them is not.
*/
module DoorRuns {
  import opened Collections
  import opened Door
  import opened DoorGraduation
  import DoorViews
  import G = GraduationSelect

  /** A door for one peer, without slack. */
  function SmallDoor(): Config {
    Config(true, 8, 15000, 0.35, 24, false, 60000, false, 1, 1, 60000, 20000, G.Rules(0, 4, 30000, 600000))
  }

  const PLAIN_HELLO := Hello(false, false, true, None)

  /** Two peers connect and are admitted, bind, and report five links each. */
  function Admissions(): seq<Event> {
    [] + [Connects(0)] + [Connects(0)] + [Admits(1, PLAIN_HELLO, 0, false)] + [Admits(2, PLAIN_HELLO, 0, false)]
  }

  function Bindings(a: string, b: string): seq<Event> {
    Admissions() + [Binds(1, Some(a))] + [Binds(2, Some(b))]
  }

  function Arrivals(a: string, b: string): seq<Event> {
    Bindings(a, b) + [Pings(1, 5, 0)] + [Pings(2, 5, 0)]
  }

  /** What graduation reads of a record. */
  function Core(c: Conn): Conn {
    c.(turnOnly := false, takesSelf := false, claimed := None, uses := 0, reached := false, stamp := None,
        outbox := [], view := {})
  }

  ghost predicate SameCores(a: State, b: State) {
    && |a.conns| == |b.conns| && a.cooldown == b.cooldown && a.lastGraduationAt == b.lastGraduationAt
    && forall k :: 0 <= k < |a.conns| ==> Core(a.conns[k]) == Core(b.conns[k])
  }

  function Peer0(id: ConnId, admitted: bool, node: Option<string>, meshBound: Option<int>): Conn {
    Conn(id, 0, admitted, false, false, false, admitted, None, 0, meshBound, 0, node, false, None, [], {})
  }

  /** Two records, whatever has been sent to them. */
  ghost predicate Pairing(s: State, c: Conn, d: Conn) {
    && |s.conns| == 2 && s.cooldown == map[] && s.lastGraduationAt == 0
    && Core(s.conns[0]) == c && Core(s.conns[1]) == d
  }

  lemma IntroduceCores(s: State, i: nat, list: seq<Ref>, reaches: bool)
    requires i < |s.conns|
    ensures SameCores(Introduce(s, i, list, reaches), s)
  {
  }

  lemma BumpCores(s: State, cfg: Config, ids: seq<ConnId>)
    ensures SameCores(s.(conns := BumpUses(s.conns, cfg, ids)), s)
  {
  }

  lemma AnnounceCores(s: State, cfg: Config, i: nat, now: int, listed: bool)
    requires i < |s.conns|
    ensures SameCores(Announce(s, cfg, i, now, listed), s)
  {
    var c := s.conns[i];
    var chosen := Chosen(s.conns, cfg, c, now);
    var s1 := s.(conns := BumpUses(s.conns, cfg, chosen));
    BumpCores(s, cfg, chosen);
    IntroduceCores(s1, i, ListFor(s.conns, cfg, c, now), listed || ReachesOut(s.conns, cfg, c, chosen));
  }

  /** Of what graduation reads, an admission sets the newcomer's admission and kernel alone. */
  lemma AdmitCores(s: State, cfg: Config, i: nat, h: Hello, now: int, listed: bool)
    requires i < |s.conns| && Find(s.conns, s.conns[i].id) == i && !s.conns[i].admitted && !h.turnOnly
    ensures SameCores(Admit(s, cfg, s.conns[i].id, h, now, listed),
                      s.(conns := s.conns[i := s.conns[i].(admitted := true, kernelOk := h.kernelOk)]))
  {
    var id := s.conns[i].id;
    var s1 := s.(conns := s.conns[i := Welcomed(s.conns[i], h)], everAdmitted := s.everAdmitted + {id});
    AnnounceCores(s1, cfg, i, now, listed);
  }

  lemma AdmitPairing(s: State, cfg: Config, i: nat, h: Hello, c: Conn, d: Conn)
    requires Pairing(s, c, d) && c.id == 1 && d.id == 2 && i < 2 && !s.conns[i].admitted && !h.turnOnly
    ensures var admit := (x: Conn) => x.(admitted := true, kernelOk := h.kernelOk);
      Pairing(Admit(s, cfg, i + 1, h, 0, false), if i == 0 then admit(c) else c, if i == 1 then admit(d) else d)
  {
    AdmitCores(s, cfg, i, h, 0, false);
  }

  lemma BindPairing(s: State, i: nat, node: Option<string>, c: Conn, d: Conn)
    requires Pairing(s, c, d) && c.id == 1 && d.id == 2 && i < 2
    ensures Pairing(Rebind(s, i + 1, node), if i == 0 then c.(node := node) else c,
                    if i == 1 then d.(node := node) else d)
  {
  }

  lemma PingPairing(s: State, i: nat, m: nat, c: Conn, d: Conn)
    requires Pairing(s, c, d) && c.id == 1 && d.id == 2 && i < 2 && c.admitted && d.admitted
    ensures var report := (x: Conn) => x.(meshBound := Some(m), meshBoundAt := 0);
      Pairing(Ping(s, i + 1, m, 0), if i == 0 then report(c) else c, if i == 1 then report(d) else d)
  {
  }

  lemma RunMore(cfg: Config, es: seq<Event>, e: Event)
    ensures Run(Opening(), cfg, es + [e]) == Step(Run(Opening(), cfg, es), cfg, e)
  {
    assert (es + [e])[..|es|] == es;
  }

  lemma TwoConnect(cfg: Config)
    ensures Pairing(Run(Opening(), cfg, [] + [Connects(0)] + [Connects(0)]), Peer0(1, false, None, None),
        Peer0(2, false, None, None))
  {
    RunMore(cfg, [], Connects(0));
    RunMore(cfg, [] + [Connects(0)], Connects(0));
    assert Run(Opening(), cfg, []) == Opening();
  }

  lemma TwoAdmitted(cfg: Config)
    ensures Pairing(Run(Opening(), cfg, Admissions()), Peer0(1, true, None, None), Peer0(2, true, None, None))
  {
    var es := [] + [Connects(0)] + [Connects(0)];
    var e1, e2 := Admits(1, PLAIN_HELLO, 0, false), Admits(2, PLAIN_HELLO, 0, false);
    TwoConnect(cfg);
    RunMore(cfg, es, e1);
    RunMore(cfg, es + [e1], e2);
    AdmitPairing(Run(Opening(), cfg, es), cfg, 0, PLAIN_HELLO, Peer0(1, false, None, None),
        Peer0(2, false, None, None));
    AdmitPairing(Run(Opening(), cfg, es + [e1]), cfg, 1, PLAIN_HELLO, Peer0(1, true, None, None),
        Peer0(2, false, None, None));
  }

  lemma TwoBound(cfg: Config, a: string, b: string)
    ensures Pairing(Run(Opening(), cfg, Bindings(a, b)), Peer0(1, true, Some(a), None), Peer0(2, true, Some(b), None))
  {
    var es, e1, e2 := Admissions(), Binds(1, Some(a)), Binds(2, Some(b));
    TwoAdmitted(cfg);
    RunMore(cfg, es, e1);
    RunMore(cfg, es + [e1], e2);
    BindPairing(Run(Opening(), cfg, es), 0, Some(a), Peer0(1, true, None, None), Peer0(2, true, None, None));
    BindPairing(Run(Opening(), cfg, es + [e1]), 1, Some(b), Peer0(1, true, Some(a), None), Peer0(2, true, None, None));
  }

  /** The door after the arrivals. */
  lemma Arrived(cfg: Config, a: string, b: string)
    ensures Pairing(Run(Opening(), cfg, Arrivals(a, b)), Peer0(1, true, Some(a), Some(5)),
        Peer0(2, true, Some(b), Some(5)))
    ensures DoorViews.Inv(Run(Opening(), cfg, Arrivals(a, b)), cfg)
  {
    var es, e1, e2 := Bindings(a, b), Pings(1, 5, 0), Pings(2, 5, 0);
    TwoBound(cfg, a, b);
    RunMore(cfg, es, e1);
    RunMore(cfg, es + [e1], e2);
    PingPairing(Run(Opening(), cfg, es), 0, 5, Peer0(1, true, Some(a), None), Peer0(2, true, Some(b), None));
    PingPairing(Run(Opening(), cfg, es + [e1]), 1, 5, Peer0(1, true, Some(a), Some(5)), Peer0(2, true, Some(b), None));
    DoorViews.RunKeeps(cfg, Arrivals(a, b));
  }

  /** A pair of one region; either may be closing or cooling down, but one is still free to go. */
  ghost predicate Pair(s: State, now: int, free: nat) {
    && |s.conns| == 2 && free < 2 && s.lastGraduationAt < now < 20000 && DoorViews.Numbered(s)
    && Core(s.conns[0]) == Peer0(1, true, Some("aa01"), Some(5)).(closing := s.conns[0].closing)
    && Core(s.conns[1]) == Peer0(2, true, Some("aa02"), Some(5)).(closing := s.conns[1].closing)
    && s.conns[free].node.value !in s.cooldown
  }

  lemma PairDescriptors(s: State, now: int, free: nat)
    requires Pair(s, now, free)
    ensures var cfg := SmallDoor();
      && Region(s.conns[0]) == Region(s.conns[1]) == Some("aa")
      && AdmittedCount(s.conns) == 2
      && Descriptors(s, cfg, s.conns, now) == [Descriptor(s, cfg, s.conns[0], now), Descriptor(s, cfg, s.conns[1], now)]
  {
    var cfg, cs := SmallDoor(), s.conns;
    assert "aa01"[..2] == "aa" && "aa02"[..2] == "aa";
    assert cs[..1] == [cs[0]] && cs[..1][..0] == [];
    assert Descriptors(s, cfg, cs[..1][..0], now) == [];
    assert Descriptors(s, cfg, cs[..1], now) == [Descriptor(s, cfg, cs[0], now)];
    assert AdmittedCount(cs[..1][..0]) == 0;
    assert AdmittedCount(cs[..1]) == 1;
  }

  lemma PairOccupancy(d0: G.Candidate, d1: G.Candidate)
    requires d0.region == d1.region
    ensures G.Occupancy([d0, d1], d0.region) == 2
  {
    assert [d0, d1][..1] == [d0] && [d0][..0] == [];
    assert G.Occupancy([d0], d0.region) == 1;
  }

  lemma FreeIsEligible(s: State, now: int, free: nat)
    requires Pair(s, now, free)
    ensures G.IsEligible(Descriptor(s, SmallDoor(), s.conns[free], now), RulesAt(SmallDoor(), now))
  {
    assert "aa01"[..2] == "aa" && "aa02"[..2] == "aa";
  }

  lemma SomeoneGoes(all: seq<G.Candidate>, r: G.Rules, d: G.Candidate)
    requires d in all && G.IsEligible(d, r) && G.Occupancy(all, d.region) > 1
    ensures G.Select(all, r).Some?
  {
    G.WinnerIsOptimal(all, r);
  }

  lemma PairGraduates(s: State, now: int, free: nat)
    requires Pair(s, now, free)
    ensures GraduatedAt(s, Graduate(s, SmallDoor(), now), SmallDoor(), PickedAt(s, SmallDoor(), now), now)
    ensures !InCooldown(s, SmallDoor(), s.conns[PickedAt(s, SmallDoor(), now)].node, now)
  {
    var d0, d1 := Descriptor(s, SmallDoor(), s.conns[0], now), Descriptor(s, SmallDoor(), s.conns[1], now);
    PairDescriptors(s, now, free);
    PairOccupancy(d0, d1);
    FreeIsEligible(s, now, free);
    SomeoneGoes([d0, d1], RulesAt(SmallDoor(), now), if free == 0 then d0 else d1);
    PickIsReplaceable(s, SmallDoor(), now);
    GraduateIs(s, SmallDoor(), now);
  }

  lemma PairAfter(s: State, s1: State, i: nat)
    requires Pair(s, 1, 0) && s.cooldown == map[] && GraduatedAt(s, s1, SmallDoor(), i, 1)
    requires DoorViews.Numbered(s1)
    ensures Pair(s1, 2, 1 - i) && s1.conns[i].closing && s1.conns[i].node.value in s1.cooldown
    ensures s1.cooldown[s1.conns[i].node.value] == 1
  {
  }

  lemma OpenOfTwo(cs: seq<Conn>)
    requires |cs| == 2
    ensures OpenCount(cs) == (if cs[0].admitted && !cs[0].closing then 1 else 0)
                           + (if cs[1].admitted && !cs[1].closing then 1 else 0)
  {
    assert cs[..1] == [cs[0]] && cs[..1][..0] == [];
    assert OpenCount(cs[..1]) == if cs[0].admitted && !cs[0].closing then 1 else 0;
  }

  lemma BothClosing(s1: State, s2: State, i: nat)
    requires i < 2 && |s1.conns| == 2 && s1.conns[i].closing && GraduatedAt(s1, s2, SmallDoor(), 1 - i, 2)
    ensures Covered(s2.conns) == {} && OpenCount(s2.conns) == 0
  {
    assert s2.conns[i].closing && s2.conns[1 - i].closing;
    OpenOfTwo(s2.conns);
  }

  lemma PairCovered(s: State)
    requires |s.conns| == 2 && !s.conns[0].closing && !s.conns[1].closing && s.conns[0].admitted && s.conns[1].admitted
    requires Region(s.conns[0]).Some? && Region(s.conns[1]).Some?
    ensures NoneClosing(s.conns) && OpenCount(s.conns) == 2
    ensures Covered(s.conns) == {Region(s.conns[0]).value, Region(s.conns[1]).value}
  {
    OpenOfTwo(s.conns);
    var a, b := Region(s.conns[0]).value, Region(s.conns[1]).value;
    forall r
      ensures r in Covered(s.conns) <==> r in {a, b}
    {
      if r == a { assert Region(s.conns[0]) == Some(r); }
      if r == b { assert Region(s.conns[1]) == Some(r); }
    }
  }

  lemma PairGoes(s: State, s1: State, s2: State)
    requires Pair(s, 1, 0) && s.cooldown == map[] && s1 == Graduate(s, SmallDoor(), 1)
        && s2 == Graduate(s1, SmallDoor(), 2)
    requires DoorViews.Numbered(s1)
    ensures Covered(s2.conns) == {} && OpenCount(s2.conns) == 0
  {
    PairGraduates(s, 1, 0);
    var i := PickedAt(s, SmallDoor(), 1);
    PairAfter(s, s1, i);
    PairGraduates(s1, 2, 1 - i);
    assert PickedAt(s1, SmallDoor(), 2) != i;
    BothClosing(s1, s2, i);
  }

  lemma PairStarts(s: State)
    requires Pairing(s, Peer0(1, true, Some("aa01"), Some(5)), Peer0(2, true, Some("aa02"), Some(5)))
    requires DoorViews.Numbered(s)
    ensures Pair(s, 1, 0) && s.cooldown == map[]
    ensures NoneClosing(s.conns) && Covered(s.conns) == {"aa"} && OpenCount(s.conns) == 2
  {
    PairDescriptors(s, 1, 0);
    PairCovered(s);
  }

  /**
   A close takes effect only with its close event; until then the socket is still counted. A
   run of the door in which two graduations before any close event take both members of a
   region, and leave no one where the threshold is one.
  */
  lemma PendingClosesCanOrphanARegion()
    ensures
      var es := Arrivals("aa01", "aa02");
      var s := Run(Opening(), SmallDoor(), es);
      var t := Run(Opening(), SmallDoor(), es + [Graduates(1)] + [Graduates(2)]);
      && NoneClosing(s.conns) && Covered(s.conns) == {"aa"} && OpenCount(s.conns) == 2
      && Covered(t.conns) == {} && OpenCount(t.conns) == 0 < SmallDoor().high
  {
    var cfg, es := SmallDoor(), Arrivals("aa01", "aa02");
    var s, s1 := Run(Opening(), cfg, es), Run(Opening(), cfg, es + [Graduates(1)]);
    Arrived(cfg, "aa01", "aa02");
    TwoTicks(cfg, es);
    PairStarts(s);
    PairGoes(s, s1, Graduate(s1, cfg, 2));
  }

  lemma Tick(cfg: Config, es: seq<Event>, now: int)
    ensures Run(Opening(), cfg, es + [Graduates(now)]) == Graduate(Run(Opening(), cfg, es), cfg, now)
  {
    RunMore(cfg, es, Graduates(now));
  }

  lemma RunNumbered(cfg: Config, es: seq<Event>)
    ensures DoorViews.Numbered(Run(Opening(), cfg, es))
  {
    DoorViews.RunKeeps(cfg, es);
  }

  lemma TwoTicks(cfg: Config, es: seq<Event>)
    ensures
      var s, s1 := Run(Opening(), cfg, es), Run(Opening(), cfg, es + [Graduates(1)]);
      && s1 == Graduate(s, cfg, 1) && DoorViews.Numbered(s1)
      && Run(Opening(), cfg, es + [Graduates(1)] + [Graduates(2)]) == Graduate(s1, cfg, 2)
  {
    Tick(cfg, es, 1);
    Tick(cfg, es + [Graduates(1)], 2);
    RunNumbered(cfg, es + [Graduates(1)]);
  }

  // ----- The gate -----

  /** Nobody has been introduced outside the cohort of those who came at time 0. */
  ghost predicate Apart(s: State) {
    forall i :: 0 <= i < |s.conns| ==> s.conns[i].since == 0 && !s.conns[i].reached
  }

  predicate Quiet(e: Event) {
    e == Connects(0) || e.Binds? || e.Pings? || (e.Admits? && !e.listed)
  }

  lemma QuietKeepsApart(s: State, cfg: Config, e: Event)
    requires Apart(s) && Quiet(e) && cfg.cohortMs >= 0
    ensures Apart(Step(s, cfg, e))
  {
    if e.Admits? && Find(s.conns, e.id) < |s.conns| && !e.hello.turnOnly {
      var i := Find(s.conns, e.id);
      var s1 := s.(conns := s.conns[i := Welcomed(s.conns[i], e.hello)], everAdmitted := s.everAdmitted + {e.id});
      AnnounceKeepsApart(s1, cfg, i, e.now);
    }
  }

  lemma AnnounceKeepsApart(s: State, cfg: Config, i: nat, now: int)
    requires Apart(s) && i < |s.conns| && cfg.cohortMs >= 0
    ensures Apart(Announce(s, cfg, i, now, false))
  {
    var c := s.conns[i];
    var chosen := Chosen(s.conns, cfg, c, now);
    assert !ReachesOut(s.conns, cfg, c, chosen);
    var s1 := s.(conns := BumpUses(s.conns, cfg, chosen));
    assert Apart(s1);
    IntroduceKeepsApart(s1, i, ListFor(s.conns, cfg, c, now));
  }

  lemma IntroduceKeepsApart(s: State, i: nat, list: seq<Ref>)
    requires Apart(s) && i < |s.conns|
    ensures Apart(Introduce(s, i, list, false))
  {
  }

  lemma {:induction false} QuietRun(cfg: Config, es: seq<Event>)
    requires cfg.cohortMs >= 0 && forall e :: e in es ==> Quiet(e)
    ensures Apart(Run(Opening(), cfg, es))
    decreases |es|
  {
    if es != [] {
      QuietRun(cfg, es[..|es| - 1]);
      QuietKeepsApart(Run(Opening(), cfg, es[..|es| - 1]), cfg, es[|es| - 1]);
    }
  }

  function GatedDoor(): Config {
    SmallDoor().(gateOn := true)
  }

  lemma MeetsOutside(s: State, c: Conn, d: Conn)
    requires Pairing(s, c, d) && c.id == 1 && Apart(s)
    ensures
      var t := MeetOutside(s, 1);
      Pairing(t, c, d) && t.conns[0].reached && !t.conns[1].reached
  {
    assert s.conns[0].id == Core(s.conns[0]).id;
    assert Find(s.conns, 1) == 0;
  }

  /** The run up to the tick. */
  lemma GateRun()
    ensures
      var s := Run(Opening(), GatedDoor(), Arrivals("aa01", "aa02") + [DoorBinds(1)]);
      && Pairing(s, Peer0(1, true, Some("aa01"), Some(5)), Peer0(2, true, Some("aa02"), Some(5)))
      && s.conns[0].reached && !s.conns[1].reached
  {
    var cfg, es := GatedDoor(), Arrivals("aa01", "aa02");
    Arrived(cfg, "aa01", "aa02");
    QuietArrivals("aa01", "aa02");
    QuietRun(cfg, es);
    RunMore(cfg, es, DoorBinds(1));
    MeetsOutside(Run(Opening(), cfg, es), Peer0(1, true, Some("aa01"), Some(5)), Peer0(2, true, Some("aa02"), Some(5)));
  }

  lemma QuietArrivals(a: string, b: string)
    ensures forall e :: e in Arrivals(a, b) ==> Quiet(e)
  {
  }

  lemma GateHolds(s: State)
    requires Pairing(s, Peer0(1, true, Some("aa01"), Some(5)), Peer0(2, true, Some("aa02"), Some(5)))
    requires s.conns[0].reached && !s.conns[1].reached
    ensures MayGo(s, SmallDoor(), 0, 1) && Counted(GatedDoor(), s.conns[0], 1) && Held(GatedDoor(), s.conns[1], 1)
    ensures Region(s.conns[0]) == Region(s.conns[1]) == Some("aa") && OpenCount(s.conns) == 2
    ensures Graduate(s, GatedDoor(), 1) == s
  {
    OpenOfTwo(s.conns);
    assert "aa01"[..2] == "aa" && "aa02"[..2] == "aa";
    assert Counted(SmallDoor(), s.conns[1], 1);
    SomeoneGraduatesIff(s, GatedDoor(), 1);
  }

  /**
   A mate that the gate holds is not counted, although it stays: a run of the door above its
   threshold in which a connection that may otherwise go is kept as if it were the last of its region.
  */
  lemma GateHeldMateDoesNotCount()
    ensures
      var es := Arrivals("aa01", "aa02") + [DoorBinds(1)];
      var s := Run(Opening(), GatedDoor(), es);
      && |s.conns| == 2 && OpenCount(s.conns) == 2 > GatedDoor().high
      && Region(s.conns[0]) == Region(s.conns[1]) == Some("aa")
      && MayGo(s, SmallDoor(), 0, 1) && !Held(GatedDoor(), s.conns[0], 1)
      && Run(Opening(), GatedDoor(), es + [Graduates(1)]) == s
  {
    var es := Arrivals("aa01", "aa02") + [DoorBinds(1)];
    GateRun();
    GateHolds(Run(Opening(), GatedDoor(), es));
    Tick(GatedDoor(), es, 1);
  }

  /** A run of the door in which a bootstrap release takes the only open connection of a region. */
  lemma ReleaseCanOrphanARegion()
    ensures
      var es := Arrivals("aa01", "bb02");
      var s := Run(Opening(), SmallDoor(), es);
      var t := Run(Opening(), SmallDoor(), es + [ReleasesBootstrap(1, true, 1)]);
      Covered(s.conns) == {"aa", "bb"} && "aa" !in Covered(t.conns)
  {
    var cfg, es := SmallDoor(), Arrivals("aa01", "bb02");
    Arrived(cfg, "aa01", "bb02");
    RunMore(cfg, es, ReleasesBootstrap(1, true, 1));
    var s := Run(Opening(), cfg, es);
    var t := ReleaseBootstrap(s, cfg, 1, true, 1);
    assert "aa01"[..2] == "aa" && "bb02"[..2] == "bb" && "aa"[0] != "bb"[0];
    PairCovered(s);
    assert Find(s.conns, 1) == 0;
    assert t.conns[0].closing && Region(t.conns[1]) == Some("bb");
  }
}
