/** The server of src/server.js as an object: its handlers, with their loops, against the door's transitions. */
module DoorServer {
  import opened Collections
  import opened Door
  import DoorViews
  import H = DoorHandlers
  import A = AnchorSelect
  import G = GraduationSelect

  /** How many a broadcast reaches. */
  function Audience(cs: seq<Conn>, except: Option<ConnId>): nat {
    if cs == [] then 0
    else
      var c := cs[|cs| - 1];
      Audience(cs[..|cs| - 1], except) + if c.admitted && Some(c.id) != except then 1 else 0
  }

  lemma {:induction false} AudienceIsAdmitted(cs: seq<Conn>)
    ensures Audience(cs, None) == AdmittedCount(cs)
  {
    if cs != [] { AudienceIsAdmitted(cs[..|cs| - 1]); }
  }

  lemma {:induction false} SameAdmitted(a: seq<Conn>, b: seq<Conn>)
    requires |a| == |b| && forall i :: 0 <= i < |a| ==> a[i].admitted == b[i].admitted
    ensures AdmittedCount(a) == AdmittedCount(b)
  {
    if a != [] { SameAdmitted(a[..|a| - 1], b[..|b| - 1]); }
  }

  /** Bumping one more handle. */
  lemma BumpOne(cs: seq<Conn>, cfg: Config, ids: seq<ConnId>, k: nat, i: nat)
    requires k < |ids| && i < |cs| && cs[i].id == ids[k] && ids[k] !in ids[..k] && cfg.nurseryOn
    requires forall j :: 0 <= j < |cs| && j != i ==> cs[j].id != cs[i].id
    ensures var done := BumpUses(cs, cfg, ids[..k]);
      BumpUses(cs, cfg, ids[..k + 1]) == done[i := done[i].(uses := done[i].uses + 1)]
  {
    assert ids[..k + 1] == ids[..k] + [ids[k]];
  }

  lemma ReachesOneMore(s: State, cfg: Config, c: Conn, ids: seq<ConnId>, k: nat)
    requires DoorViews.Numbered(s) && k < |ids|
    ensures var i := Find(s.conns, ids[k]);
      ReachesOut(s.conns, cfg, c, ids[..k + 1])
        == (ReachesOut(s.conns, cfg, c, ids[..k])
            || (i < |s.conns| && s.conns[i].admitted && c.since - s.conns[i].since > cfg.cohortMs))
  {
    assert ids[..k + 1] == ids[..k] + [ids[k]];
  }

  /** The anchors are distinct handles, whatever k. */
  lemma AnchorsDistinct(s: State, o: A.Options)
    requires DoorViews.Numbered(s)
    ensures Distinct(A.Select(Candidates(s.conns), o).anchors)
  {
    DoorViews.CandidatesUnique(s);
    var cands := Candidates(s.conns);
    A.FallbackIntroducesAll(cands, o);
    var ranked := A.Ranking(cands, o);
    A.RankingIsEligible(cands, o);
    A.ChosenAreRanked(ranked, o.newRegion, o.k);
    A.ChosenDistinct(ranked, o.newRegion, o.k);
    A.HandlesOfDistinct(ranked, A.Chosen(ranked, o.newRegion, o.k));
  }

  class Server {
    const cfg: Config
    var conns: seq<Conn>
    var nextId: ConnId
    var lastGraduationAt: int
    var graduatedRecently: map<string, int>
    /** The announcements made so far; a connection's stamp is its place among them. */
    var intros: seq<Intro>
    ghost var everAdmitted: set<ConnId>
    ghost var grads: seq<Grad>
    ghost var releases: seq<Grad>

    ghost function Model(): State
      reads this
    {
      State(conns, nextId, lastGraduationAt, graduatedRecently, intros, everAdmitted, grads, releases)
    }

    /** No ghosts, no double offers. */
    ghost predicate Valid()
      reads this
    {
      DoorViews.Inv(Model(), cfg)
    }

    constructor (cfg: Config)
      ensures Valid() && Model() == Opening() && this.cfg == cfg
    {
      this.cfg := cfg;
      conns, nextId, lastGraduationAt, graduatedRecently := [], 1, 0, map[];
      intros, everAdmitted, grads, releases := [], {}, [], [];
    }

    method OnConnection(now: int) returns (id: ConnId)
      requires Valid()
      modifies this
      ensures Valid() && Model() == Connect(old(Model()), now) && id == old(nextId)
    {
      DoorViews.ConnectKeeps(Model(), cfg, now);
      id := nextId;
      var c := Conn(id, now, false, false, false, false, false, None, 0, None, 0, None, false, None, [VersionGate], {});
      nextId := nextId + 1;
      conns := conns + [c];
    }

    /** `broadcast`. */
    method SendAll(f: Frame, except: Option<ConnId>) returns (count: nat)
      modifies `conns
      ensures conns == Broadcast(old(conns), f, except)
      ensures count == Audience(old(conns), except)
    {
      count := 0;
      ghost var cs := conns;
      for i := 0 to |conns|
        invariant |conns| == |cs|
        invariant forall k :: 0 <= k < |cs| ==> conns[k] == if k < i then Broadcast(cs, f, except)[k] else cs[k]
        invariant count == Audience(cs[..i], except)
      {
        assert cs[..i + 1][..i] == cs[..i];
        var c := conns[i];
        if Some(c.id) != except && c.admitted {
          conns := conns[i := Push(c, f)];
          count := count + 1;
        }
      }
      assert cs[..|cs|] == cs;
    }

    /** The admitted connections other than `id`, as both list builders gather them. */
    method GatherOthers(id: ConnId) returns (peers: seq<ConnId>)
      ensures peers == Others(conns, id)
    {
      peers := [];
      for i := 0 to |conns|
        invariant peers == Others(conns[..i], id)
      {
        assert conns[..i + 1][..i] == conns[..i];
        if conns[i].id != id && conns[i].admitted {
          peers := peers + [conns[i].id];
        }
      }
      assert conns[..|conns|] == conns;
    }

    /** `recordIntroduction`'s question: is anyone on the list older than the newcomer's cohort? */
    method OlderThanCohort(c: Conn, ids: seq<ConnId>) returns (older: bool)
      requires DoorViews.Numbered(Model())
      ensures older == ReachesOut(conns, cfg, c, ids)
    {
      older := false;
      for k := 0 to |ids|
        invariant older == ReachesOut(conns, cfg, c, ids[..k])
      {
        ReachesOneMore(Model(), cfg, c, ids, k);
        var i := Find(conns, ids[k]);
        if i < |conns| && conns[i].admitted && c.since - conns[i].since > cfg.cohortMs {
          older := true;
        }
      }
      assert ids[..|ids|] == ids;
    }

    /** Record the anchors' usage, one by one. */
    method BumpAnchors(ids: seq<ConnId>)
      requires DoorViews.Numbered(Model()) && Distinct(ids) && cfg.nurseryOn
      modifies `conns
      ensures conns == BumpUses(old(conns), cfg, ids)
    {
      ghost var cs := conns;
      assert ids[..0] == [] && BumpUses(cs, cfg, []) == cs;
      for k := 0 to |ids|
        invariant conns == BumpUses(cs, cfg, ids[..k])
      {
        assert ids[..k + 1] == ids[..k] + [ids[k]];
        assert ids[k] !in ids[..k];
        var i := Find(conns, ids[k]);
        if i < |conns| {
          BumpOne(cs, cfg, ids, k, i);
          conns := conns[i := conns[i].(uses := conns[i].uses + 1)];
        } else {
          assert forall j :: 0 <= j < |cs| ==> conns[j].id == cs[j].id && cs[j].id != ids[k];
          assert BumpUses(cs, cfg, ids[..k + 1]) == BumpUses(cs, cfg, ids[..k]);
        }
      }
      assert ids[..|ids|] == ids;
    }

    /** `admitConnection`, for a client-hello that has passed the version gates. */
    method AdmitConnection(id: ConnId, h: Hello, now: int, listed: bool)
      requires Valid()
      modifies this
      ensures Valid() && Model() == Admit(old(Model()), cfg, id, h, now, listed)
    {
      ghost var s := Model();
      DoorViews.AdmitKeeps(s, cfg, id, h, now, listed);
      var i := Find(conns, id);
      if i == |conns| || conns[i].admitted {
        return;
      }
      DoorViews.WelcomeKeeps(s, cfg, i, h);
      conns := conns[i := Welcomed(conns[i], h)];
      everAdmitted := everAdmitted + {id};
      if h.turnOnly {
        return;
      }
      AnnounceNewcomer(i, now, listed);
    }

    /** Whom to introduce the newcomer to. */
    method ChooseFor(c: Conn, now: int) returns (chosen: seq<ConnId>)
      requires DoorViews.Numbered(Model())
      ensures chosen == Chosen(conns, cfg, c, now)
      ensures cfg.nurseryOn ==> Distinct(chosen)
    {
      if cfg.nurseryOn {
        AnchorsDistinct(Model(), AnchorOptions(cfg, c, now));
        var sel := A.SelectAnchors(Candidates(conns), AnchorOptions(cfg, c, now));
        chosen := sel.anchors;
      } else {
        chosen := GatherOthers(c.id);
      }
    }

    method IntroduceAt(i: nat, list: seq<Ref>, reaches: bool)
      requires i < |conns|
      modifies this
      ensures Model() == Introduce(old(Model()), i, list, reaches)
    {
      var id := conns[i].id;
      conns := conns[i := Listed(conns[i], reaches, list, |intros|)];
      intros := intros + [Intro(id, list)];
      var _ := SendAll(Joined(id), Some(id));
    }

    method AnnounceNewcomer(i: nat, now: int, listed: bool)
      requires DoorViews.Numbered(Model()) && i < |conns|
      modifies this
      ensures Model() == Announce(old(Model()), cfg, i, now, listed)
    {
      var c := conns[i];
      var chosen := ChooseFor(c, now);
      var ordered := A.OrderSameRegionFirst(chosen, RegionMap(conns), c.claimed);
      var older := OlderThanCohort(c, chosen);
      if cfg.nurseryOn {
        BumpAnchors(chosen);
      } else {
        assert conns == BumpUses(conns, cfg, chosen);
      }
      IntroduceAt(i, SelfFirst(cfg, c, ordered), listed || older);
    }

    /** `peer-list-request`: the current admitted list, to an admitted client. */
    method OnPeerListRequest(id: ConnId, listed: bool)
      requires Valid()
      modifies this
      ensures Valid() && Model() == ListRequest(old(Model()), cfg, id, listed)
    {
      DoorViews.ListRequestKeeps(Model(), cfg, id, listed);
      var i := Find(conns, id);
      if i == |conns| || !conns[i].admitted {
        return;
      }
      var c := conns[i];
      var others := GatherOthers(id);
      var older := OlderThanCohort(c, others);
      var c2 := c.(reached := c.reached || listed || older);
      conns := conns[i := Push(c2, PeerList(SelfFirst(cfg, c, others)))];
    }

    method OnSignal(from: ConnId, to: ConnId) returns (relayed: bool)
      requires Valid()
      modifies this
      ensures Valid() && Model() == Relay(old(Model()), from, to)
      ensures relayed <==> H.IsMember(old(Model()), from) && H.IsPresent(old(Model()), to)
    {
      H.FindIs(Model(), from);
      H.FindIs(Model(), to);
      DoorViews.RelayKeeps(Model(), cfg, from, to);
      var i, j := Find(conns, from), Find(conns, to);
      if i == |conns| || !conns[i].admitted || j == |conns| {
        return false;
      }
      conns := conns[j := Push(conns[j], Signal(from))];
      return true;
    }

    method RecordReport(id: ConnId, meshBound: int, now: int)
      requires Valid()
      modifies this
      ensures Valid() && Model() == Ping(old(Model()), id, meshBound, now)
    {
      DoorViews.FieldsKeep(Model(), cfg, Pings(id, meshBound, now));
      var i := Find(conns, id);
      if i < |conns| && conns[i].admitted && meshBound >= 0 {
        conns := conns[i := conns[i].(meshBound := Some(meshBound), meshBoundAt := now)];
      }
    }

    /** `maybeCloseBootstrapSocket`; `doorBound` says that the release is on and the channel to the bridge bound. */
    method MaybeCloseBootstrapSocket(id: ConnId, doorBound: bool, now: int) returns (released: bool)
      requires Valid()
      modifies this
      ensures Valid() && Model() == ReleaseBootstrap(old(Model()), cfg, id, doorBound, now)
      ensures released <==> H.Releasable(old(Model()), cfg, Find(old(conns), id), doorBound, now)
    {
      DoorViews.FieldsKeep(Model(), cfg, ReleasesBootstrap(id, doorBound, now));
      var i := Find(conns, id);
      if !doorBound || i == |conns| || !conns[i].admitted {
        return false;
      }
      var mb := FreshMeshBound(conns[i], cfg, now);
      if mb.None? || mb.value < cfg.rules.safeFloor || !conns[i].kernelOk {
        return false;
      }
      ReleaseConn(i, now);
      return true;
    }

    method ReleaseConn(i: nat, now: int)
      requires i < |conns|
      modifies this
      ensures Model() == Release(old(Model()), i, now)
    {
      var c := conns[i];
      conns := conns[i := c.(closing := true)];
      if c.node.Some? {
        graduatedRecently := graduatedRecently[c.node.value := now];
        releases := releases + [Grad(c.id, c.node.value, now)];
      }
    }

    /** A heartbeat: a report that is not negative is recorded, and may release the socket. */
    method OnPing(id: ConnId, meshBound: int, doorBound: bool, now: int, later: int)
      requires Valid()
      modifies this
      ensures Valid()
      ensures Model() ==
        if meshBound < 0 then old(Model())
        else ReleaseBootstrap(Ping(old(Model()), id, meshBound, now), cfg, id, doorBound, later)
    {
      if meshBound >= 0 {
        RecordReport(id, meshBound, now);
        var _ := MaybeCloseBootstrapSocket(id, doorBound, later);
      }
    }

    /** The bridge's node reports the connection's channel to it bound; the graduation gate reads this. */
    method OnDoorBound(id: ConnId)
      requires Valid()
      modifies this
      ensures Valid() && Model() == MeetOutside(old(Model()), id)
    {
      DoorViews.FieldsKeep(Model(), cfg, DoorBinds(id));
      var i := Find(conns, id);
      if i < |conns| {
        conns := conns[i := conns[i].(reached := true)];
      }
    }

    /** The close event. */
    method OnClose(id: ConnId) returns (notified: nat)
      requires Valid()
      modifies this
      ensures Valid() && Model() == Close(old(Model()), id)
      ensures notified == if H.IsPresent(old(Model()), id) then AdmittedCount(conns) else 0
    {
      H.FindIs(Model(), id);
      DoorViews.CloseKeeps(Model(), cfg, id);
      notified := ForgetConn(id);
    }

    method ForgetConn(id: ConnId) returns (notified: nat)
      modifies `conns
      ensures Model() == Close(old(Model()), id)
      ensures notified == if Find(old(conns), id) < |old(conns)| then AdmittedCount(conns) else 0
    {
      var i := Find(conns, id);
      if i == |conns| {
        return 0;
      }
      conns := conns[..i] + conns[i + 1..];
      notified := TellEveryone(Left(id));
    }

    method TellEveryone(f: Frame) returns (told: nat)
      modifies `conns
      ensures conns == Broadcast(old(conns), f, None) && told == AdmittedCount(conns)
    {
      AudienceIsAdmitted(conns);
      SameAdmitted(conns, Broadcast(conns, f, None));
      told := SendAll(f, None);
    }

    method CountAdmitted() returns (n: nat)
      ensures n == AdmittedCount(conns)
    {
      n := 0;
      for i := 0 to |conns|
        invariant n == AdmittedCount(conns[..i])
      {
        assert conns[..i + 1][..i] == conns[..i];
        if conns[i].admitted {
          n := n + 1;
        }
      }
      assert conns[..|conns|] == conns;
    }

    /** Each admitted connection as a plain descriptor, less those the gate holds. */
    method DescribeAdmitted(now: int) returns (cands: seq<G.Candidate>)
      ensures cands == Descriptors(Model(), cfg, conns, now)
    {
      cands := [];
      ghost var s := Model();
      for i := 0 to |conns|
        invariant cands == Descriptors(s, cfg, conns[..i], now)
      {
        assert conns[..i + 1][..i] == conns[..i];
        var c := conns[i];
        if c.admitted && !(cfg.gateOn && !c.reached && now - c.since < cfg.rules.maxNurseryMs) {
          var inCooldown := c.node.Some? && c.node.value in graduatedRecently
                            && now - graduatedRecently[c.node.value] < cfg.cooldownMs;
          cands := cands + [G.Candidate(c.id, Region(c), c.since, FreshMeshBound(c, cfg, now), c.kernelOk, inCooldown)];
        }
      }
      assert conns[..|conns|] == conns;
    }

    /** `maybeGraduate`. */
    method MaybeGraduate(now: int)
      requires Valid()
      modifies this
      ensures Valid() && Model() == Graduate(old(Model()), cfg, now)
    {
      DoorViews.GraduateKeeps(Model(), cfg, now);
      if !cfg.nurseryOn || now - lastGraduationAt < cfg.intervalMs {
        return;
      }
      var n := CountAdmitted();
      if n <= cfg.high {
        return;
      }
      var cands := DescribeAdmitted(now);
      var pick := G.SelectGraduate(cands, RulesAt(cfg, now));
      if pick.None? {
        return;
      }
      GraduateConn(pick.value.id, now);
    }

    method GraduateConn(id: ConnId, now: int)
      modifies this
      ensures Model() ==
        var s := old(Model());
        var i := Find(s.conns, id);
        if i == |s.conns| then s
        else
          var node := s.conns[i].node;
          s.(conns := s.conns[i := s.conns[i].(closing := true)],
             cooldown := Pruned(if node.Some? then s.cooldown[node.value := now] else s.cooldown, cfg, now),
             lastGraduationAt := now,
             grads := s.grads + [Grad(id, if node.Some? then node.value else "", now)])
    {
      var i := Find(conns, id);
      if i == |conns| {
        return;
      }
      var node := conns[i].node;
      conns := conns[i := conns[i].(closing := true)];
      if node.Some? {
        graduatedRecently := graduatedRecently[node.value := now];
      }
      lastGraduationAt := now;
      grads := grads + [Grad(id, if node.Some? then node.value else "", now)];
      if |graduatedRecently| > 1000 {
        graduatedRecently :=
          map k | k in graduatedRecently && now - graduatedRecently[k] <= cfg.cooldownMs :: graduatedRecently[k];
      }
    }
  }
}
