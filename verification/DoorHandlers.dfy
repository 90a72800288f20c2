/** What each handler of the door (src/server.js) does, and to whom: the frames, their order, and what stays. */
module DoorHandlers {
  import opened Collections
  import opened Door
  import opened DoorViews
  import A = AnchorSelect
  import C = AnchorChoice

  /** All records but the i-th are as they were. */
  ghost predicate OnlyAt(s: State, s': State, i: nat) {
    && |s'.conns| == |s.conns| && i < |s.conns|
    && forall k :: 0 <= k < |s.conns| && k != i ==> s'.conns[k] == s.conns[k]
  }

  /** Nothing of the server's state but its records and its list of introductions has changed. */
  ghost predicate SameBooks(s: State, s': State) {
    && s'.nextId == s.nextId && s'.lastGraduationAt == s.lastGraduationAt && s'.cooldown == s.cooldown
    && s'.grads == s.grads && s'.releases == s.releases
  }

  ghost predicate Quietly(s: State, s': State, i: nat) {
    OnlyAt(s, s', i) && SameBooks(s, s') && s'.intros == s.intros && s'.everAdmitted == s.everAdmitted
  }

  /** The record after these frames: an open socket gets them in order, a closing one none. */
  ghost function Sent(c: Conn, frames: seq<Frame>): Conn {
    if c.closing then c else c.(outbox := c.outbox + frames)
  }

  ghost predicate IsAt(s: State, i: nat, id: ConnId) {
    i < |s.conns| && s.conns[i].id == id
  }

  ghost predicate IsPresent(s: State, id: ConnId) {
    exists i :: 0 <= i < |s.conns| && s.conns[i].id == id
  }

  ghost predicate IsMember(s: State, id: ConnId) {
    exists i :: 0 <= i < |s.conns| && s.conns[i].id == id && s.conns[i].admitted
  }

  lemma FindIs(s: State, id: ConnId)
    requires Numbered(s)
    ensures forall i :: 0 <= i < |s.conns| && s.conns[i].id == id ==> Find(s.conns, id) == i
    ensures Find(s.conns, id) == |s.conns| <==> !IsPresent(s, id)
    ensures IsMember(s, id) <==> Find(s.conns, id) < |s.conns| && s.conns[Find(s.conns, id)].admitted
  {
  }

  // ----- Signals -----

  /**
   A signal of an admitted sender goes to the recipient, who need only be there, and to no one
   else; any other is lost.
  */
  lemma RelayDoes(s: State, from: ConnId, to: ConnId, j: nat)
    requires Numbered(s)
    ensures var s' := Relay(s, from, to);
      && (!(IsMember(s, from) && IsPresent(s, to)) ==> s' == s)
      && (IsMember(s, from) && IsAt(s, j, to) ==>
            Quietly(s, s', j) && s'.conns[j] == Sent(s.conns[j], [Signal(from)]))
  {
    FindIs(s, from);
    FindIs(s, to);
  }

  // ----- Lists -----

  /**
   The bridge first, if it offers itself and the client takes it; then each admitted other, in
   order of connection.
  */
  ghost predicate FullList(list: seq<Ref>, cs: seq<Conn>, cfg: Config, c: Conn) {
    && (Self in list <==> cfg.offersSelf && c.takesSelf)
    && (forall a :: 0 < a < |list| ==> list[a] != Self)
    && (forall x :: Peer(x) in list <==> x != c.id && x in AdmittedIds(cs))
    && (forall a, b :: 0 <= a < b < |list| && list[a].Peer? && list[b].Peer? ==> list[a].id < list[b].id)
  }

  /** Someone on the list is admitted and came more than the cohort's width before the client. */
  ghost predicate MeetsElders(list: seq<Ref>, cs: seq<Conn>, cfg: Config, c: Conn) {
    exists k :: 0 <= k < |cs| && cs[k].admitted && Peer(cs[k].id) in list && c.since - cs[k].since > cfg.cohortMs
  }

  lemma {:induction false} OthersAscend(cs: seq<Conn>, id: ConnId)
    requires forall i, j :: 0 <= i < j < |cs| ==> cs[i].id < cs[j].id
    ensures forall a, b :: 0 <= a < b < |Others(cs, id)| ==> Others(cs, id)[a] < Others(cs, id)[b]
  {
    if cs != [] {
      var n := |cs| - 1;
      var front := Others(cs[..n], id);
      OthersAscend(cs[..n], id);
      forall a | 0 <= a < |front|
        ensures front[a] < cs[n].id
      {
        assert front[a] in front;
        var c :| c in cs[..n] && c.id == front[a];
        var k :| 0 <= k < n && cs[..n][k] == c;
      }
    }
  }

  /** What putting the bridge first does to a list. */
  lemma SelfFirstIs(cfg: Config, c: Conn, ids: seq<ConnId>)
    ensures var list, own := SelfFirst(cfg, c, ids), if cfg.offersSelf && c.takesSelf then 1 else 0;
      && |list| == own + |ids| && (own == 1 ==> list[0] == Self)
      && (forall a :: own <= a < |list| ==> list[a] == Peer(ids[a - own]))
      && (forall x :: Peer(x) in list <==> x in ids)
      && (Self in list <==> own == 1)
  {
    var list, refs := SelfFirst(cfg, c, ids), Refs(ids);
    var own := if cfg.offersSelf && c.takesSelf then 1 else 0;
    forall x
      ensures Peer(x) in list <==> x in ids
    {
      if x in ids {
        var k :| 0 <= k < |ids| && ids[k] == x;
        assert list[own + k] == Peer(x);
      }
      if Peer(x) in list {
        var k :| 0 <= k < |list| && list[k] == Peer(x);
        assert ids[k - own] == x;
      }
    }
  }

  lemma FullListIs(s: State, cfg: Config, c: Conn)
    requires Numbered(s)
    ensures FullList(SelfFirst(cfg, c, Others(s.conns, c.id)), s.conns, cfg, c)
  {
    var ids := Others(s.conns, c.id);
    OthersAreAdmitted(s.conns, c.id);
    OthersAscend(s.conns, c.id);
    SelfFirstIs(cfg, c, ids);
    IsFullList(SelfFirst(cfg, c, ids), ids, s.conns, cfg, c);
  }

  lemma IsFullList(list: seq<Ref>, ids: seq<ConnId>, cs: seq<Conn>, cfg: Config, c: Conn)
    requires
      var own := if cfg.offersSelf && c.takesSelf then 1 else 0;
      && |list| == own + |ids| && (forall a :: own <= a < |list| ==> list[a] == Peer(ids[a - own]))
      && (own == 1 ==> list[0] == Self)
      && (Self in list <==> own == 1) && (forall x :: Peer(x) in list <==> x in ids)
    requires forall a, b :: 0 <= a < b < |ids| ==> ids[a] < ids[b]
    requires forall x :: x in ids <==> x != c.id && x in AdmittedIds(cs)
    ensures FullList(list, cs, cfg, c)
  {
  }

  lemma EldersIs(cs: seq<Conn>, cfg: Config, c: Conn, ids: seq<ConnId>)
    ensures ReachesOut(cs, cfg, c, ids) <==> MeetsElders(SelfFirst(cfg, c, ids), cs, cfg, c)
  {
    SelfFirstIs(cfg, c, ids);
  }

  /**
   A list request of an admitted client is answered with the bridge, where it applies, and every
   admitted other, in order; nothing else changes but whether the client has met its elders. Of
   anyone else it is ignored.
  */
  lemma ListRequestDoes(s: State, cfg: Config, id: ConnId, listed: bool, i: nat)
    requires Numbered(s)
    ensures var s' := ListRequest(s, cfg, id, listed);
      && (!IsMember(s, id) ==> s' == s)
      && (IsMember(s, id) && IsAt(s, i, id) ==>
            var c := s.conns[i];
            Quietly(s, s', i) && exists list ::
              && FullList(list, s.conns, cfg, c)
              && s'.conns[i] == Sent(c.(reached := c.reached || listed || MeetsElders(list, s.conns, cfg, c)),
                                     [PeerList(list)]))
  {
    FindIs(s, id);
    if IsMember(s, id) && IsAt(s, i, id) {
      var c := s.conns[i];
      var others := Others(s.conns, id);
      FullListIs(s, cfg, c);
      EldersIs(s.conns, cfg, c, others);
      var list := SelfFirst(cfg, c, others);
      assert FullList(list, s.conns, cfg, c);
    }
  }

  /** So an open client that asks comes to see every admitted other, and the bridge where it applies. */
  lemma AskerSeesEveryone(s: State, cfg: Config, id: ConnId, listed: bool, i: nat, x: ConnId)
    requires Numbered(s) && IsAt(s, i, id) && s.conns[i].admitted && !s.conns[i].closing
    ensures var d := ListRequest(s, cfg, id, listed).conns[i];
      && (x != id && x in AdmittedIds(s.conns) ==> Peer(x) in Final(d))
      && (cfg.offersSelf && s.conns[i].takesSelf ==> Self in Final(d))
  {
    ListRequestDoes(s, cfg, id, listed, i);
    var c, d := s.conns[i], ListRequest(s, cfg, id, listed).conns[i];
    var list :| FullList(list, s.conns, cfg, c)
             && d == Sent(c.(reached := c.reached || listed || MeetsElders(list, s.conns, cfg, c)), [PeerList(list)]);
    ListIsSeen(c, d, c.reached || listed || MeetsElders(list, s.conns, cfg, c), list);
  }

  lemma ListIsSeen(c: Conn, d: Conn, reached: bool, list: seq<Ref>)
    requires !c.closing && d == Sent(c.(reached := reached), [PeerList(list)])
    ensures forall p :: p in list ==> p in Final(d)
  {
    PushFinal(c.(reached := reached), PeerList(list));
    assert d == Push(c.(reached := reached), PeerList(list));
  }

  // ----- Admissions -----

  /** The candidates the nursery chooses from: the records as they stand, each in the region of its bound identity. */
  ghost predicate Mirrors(cands: seq<A.Candidate>, cs: seq<Conn>) {
    && |cands| == |cs|
    && forall k :: 0 <= k < |cs| ==>
         cands[k] == A.Candidate(cs[k].id, cs[k].admitted, cs[k].since, cs[k].uses, RegionOfNode(cs[k].node))
  }

  /** The identity's top byte as it is spelled. */
  ghost function RegionOfNode(node: Option<string>): Option<string> {
    if node.Some? && |node.value| >= 2 then Some(node.value[..2]) else None
  }

  ghost function NurseryOptions(cfg: Config, c: Conn, now: int): A.Options {
    A.Options(c.id, c.claimed, now, cfg.anchorK, cfg.anchorMinUptimeMs, cfg.wLoad, cfg.anchorMinPool)
  }

  ghost predicate IsMate(cs: seq<Conn>, x: ConnId, region: string) {
    exists k :: 0 <= k < |cs| && cs[k].id == x && RegionOfNode(cs[k].node) == Some(region)
  }

  /** Nobody stands before a mate of the newcomer's claimed region but other mates, and the bridge. */
  ghost predicate MatesFirst(list: seq<Ref>, cs: seq<Conn>, claimed: Option<string>) {
    claimed.Some? && claimed.value != "" ==>
      forall a, b :: 0 <= a < b < |list| && list[a].Peer? && list[b].Peer? && IsMate(cs, list[b].id, claimed.value) ==>
        IsMate(cs, list[a].id, claimed.value)
  }

  /** Exactly the nursery's anchors or, with the nursery off, every admitted other; the bridge first; each once. */
  ghost predicate FirstList(list: seq<Ref>, cs: seq<Conn>, cfg: Config, c: Conn, now: int) {
    && (Self in list <==> cfg.offersSelf && c.takesSelf)
    && (forall a :: 0 < a < |list| ==> list[a] != Self)
    && (!cfg.nurseryOn ==> forall x :: Peer(x) in list <==> x != c.id && x in AdmittedIds(cs))
    && (cfg.nurseryOn ==> forall cands, x :: Mirrors(cands, cs) ==>
          (Peer(x) in list <==> x in A.Select(cands, NurseryOptions(cfg, c, now)).anchors))
    && MatesFirst(list, cs, c.claimed)
  }

  lemma MirrorIsCandidates(cands: seq<A.Candidate>, cs: seq<Conn>)
    requires Mirrors(cands, cs)
    ensures cands == Candidates(cs)
  {
  }

  lemma {:induction false} RegionMapIs(cs: seq<Conn>, x: ConnId, region: string)
    requires forall i, j :: 0 <= i < j < |cs| ==> cs[i].id < cs[j].id
    ensures x in RegionMap(cs) && RegionMap(cs)[x] == Some(region) <==> IsMate(cs, x, region)
  {
    if cs != [] {
      var n := |cs| - 1;
      RegionMapIs(cs[..n], x, region);
      if IsMate(cs[..n], x, region) {
        var k :| 0 <= k < n && cs[..n][k].id == x && RegionOfNode(cs[..n][k].node) == Some(region);
        assert cs[k].id == x;
      }
      if IsMate(cs, x, region) {
        var k :| 0 <= k < |cs| && cs[k].id == x && RegionOfNode(cs[k].node) == Some(region);
        assert k < n ==> cs[..n][k] == cs[k];
      }
    }
  }

  /** In a list of handles the mates of the claimed region stand in front. */
  ghost predicate MatesInFront(r: seq<ConnId>, cs: seq<Conn>, claimed: Option<string>) {
    claimed.Some? && claimed.value != "" ==>
      forall a, b :: 0 <= a < b < |r| && IsMate(cs, r[b], claimed.value) ==> IsMate(cs, r[a], claimed.value)
  }

  lemma OrderFrontsMates(s: State, ids: seq<ConnId>, claimed: Option<string>)
    requires forall i, j :: 0 <= i < j < |s.conns| ==> s.conns[i].id < s.conns[j].id
    ensures MatesInFront(A.SameRegionFirst(ids, RegionMap(s.conns), claimed), s.conns, claimed)
  {
    if claimed.Some? && claimed.value != "" {
      var r := A.SameRegionFirst(ids, RegionMap(s.conns), claimed);
      A.OrderPutsMatesFirst(ids, RegionMap(s.conns), claimed);
      forall a | 0 <= a < |r|
        ensures IsMate(s.conns, r[a], claimed.value) <==> a < |A.Mates(ids, RegionMap(s.conns), claimed, true)|
      {
        RegionMapIs(s.conns, r[a], claimed.value);
      }
    }
  }

  lemma ListMembers(s: State, cfg: Config, c: Conn, now: int)
    requires forall i, j :: 0 <= i < j < |s.conns| ==> s.conns[i].id < s.conns[j].id
    ensures forall x :: Peer(x) in ListFor(s.conns, cfg, c, now) <==> x in Chosen(s.conns, cfg, c, now)
  {
    var chosen := Chosen(s.conns, cfg, c, now);
    var r := A.SameRegionFirst(chosen, RegionMap(s.conns), c.claimed);
    A.OrderPutsMatesFirst(chosen, RegionMap(s.conns), c.claimed);
    assert forall x :: x in r <==> x in multiset(r);
    assert forall x :: x in chosen <==> x in multiset(chosen);
    SelfFirstIs(cfg, c, r);
  }

  /** The bridge in front of a list with the mates first leaves the mates first. */
  lemma SelfKeepsMatesFirst(list: seq<Ref>, r: seq<ConnId>, own: nat, cs: seq<Conn>, claimed: Option<string>)
    requires |list| == own + |r| && (forall a :: own <= a < |list| ==> list[a] == Peer(r[a - own]))
    requires own <= 1 && (own == 1 ==> list[0] == Self)
    requires MatesInFront(r, cs, claimed)
    ensures MatesFirst(list, cs, claimed) && forall a :: 0 < a < |list| ==> list[a] != Self
  {
    if claimed.Some? && claimed.value != "" {
      forall a, b | 0 <= a < b < |list| && list[a].Peer? && list[b].Peer? && IsMate(cs, list[b].id, claimed.value)
        ensures IsMate(cs, list[a].id, claimed.value)
      {
        assert list[a] == Peer(r[a - own]) && list[b] == Peer(r[b - own]);
      }
    }
  }

  lemma ListForNames(s: State, cfg: Config, c: Conn, now: int)
    requires forall i, j :: 0 <= i < j < |s.conns| ==> s.conns[i].id < s.conns[j].id
    ensures var list := ListFor(s.conns, cfg, c, now);
      && (!cfg.nurseryOn ==> forall x :: Peer(x) in list <==> x != c.id && x in AdmittedIds(s.conns))
      && (cfg.nurseryOn ==> forall cands, x :: Mirrors(cands, s.conns) ==>
            (Peer(x) in list <==> x in A.Select(cands, NurseryOptions(cfg, c, now)).anchors))
  {
    ListMembers(s, cfg, c, now);
    OthersAreAdmitted(s.conns, c.id);
    forall cands | Mirrors(cands, s.conns)
      ensures cands == Candidates(s.conns)
    {
      MirrorIsCandidates(cands, s.conns);
    }
  }

  lemma ListForOrders(s: State, cfg: Config, c: Conn, now: int)
    requires forall i, j :: 0 <= i < j < |s.conns| ==> s.conns[i].id < s.conns[j].id
    ensures var list := ListFor(s.conns, cfg, c, now);
      && (Self in list <==> cfg.offersSelf && c.takesSelf)
      && (forall a :: 0 < a < |list| ==> list[a] != Self)
      && MatesFirst(list, s.conns, c.claimed)
  {
    var chosen := Chosen(s.conns, cfg, c, now);
    var r := A.SameRegionFirst(chosen, RegionMap(s.conns), c.claimed);
    SelfFirstIs(cfg, c, r);
    OrderFrontsMates(s, chosen, c.claimed);
    SelfKeepsMatesFirst(SelfFirst(cfg, c, r), r, if cfg.offersSelf && c.takesSelf then 1 else 0, s.conns, c.claimed);
  }

  lemma ListForIs(s: State, cfg: Config, c: Conn, now: int)
    requires forall i, j :: 0 <= i < j < |s.conns| ==> s.conns[i].id < s.conns[j].id
    ensures FirstList(ListFor(s.conns, cfg, c, now), s.conns, cfg, c, now)
  {
    ListForNames(s, cfg, c, now);
    ListForOrders(s, cfg, c, now);
  }

  /** The record of a client that has said hello: admitted, as it described itself. */
  ghost function Greeted(c: Conn, h: Hello): Conn {
    c.(admitted := true, turnOnly := h.turnOnly, takesSelf := h.takesSelf, kernelOk := h.kernelOk, claimed := h.claimed)
  }

  /** And welcomed. */
  ghost function Newcomer(c: Conn, h: Hello): Conn {
    Sent(Greeted(c, h), [Welcome(c.id)])
  }

  /** Somebody else's record after the announcement. */
  ghost function Hears(c: Conn, cfg: Config, list: seq<Ref>, id: ConnId): Conn {
    Sent(c.(uses := c.uses + if cfg.nurseryOn && Peer(c.id) in list then 1 else 0),
         if c.admitted then [Joined(id)] else [])
  }

  /** The newcomer `w` at i is sent its list, which goes on record, and everyone else admitted hears of it. */
  ghost predicate Announced(cs: seq<Conn>, s: State, s': State, cfg: Config, i: nat, now: int, listed: bool)
    requires i < |cs|
  {
    var w, n := cs[i], |s.intros|;
    && |s'.intros| == n + 1 && s'.intros[..n] == s.intros && s'.intros[n].id == w.id && |s'.conns| == |cs|
    && var list := s'.intros[n].list;
       && FirstList(list, cs, cfg, w, now)
       && s'.conns[i] == Sent(w.(reached := w.reached || listed || MeetsElders(list, cs, cfg, w), stamp := Some(n)),
                              [PeerList(list)])
       && forall k :: 0 <= k < |cs| && k != i ==> s'.conns[k] == Hears(cs[k], cfg, list, w.id)
  }

  /**
   A first admission welcomes the client. One that came only for a TURN credential gets no more;
   any other is sent its list, which goes on record, and everyone else admitted hears of it.
   With the nursery on the use counters of those on the list move by one. A client already
   admitted, or gone, changes nothing.
  */
  lemma AdmissionDoes(s: State, cfg: Config, id: ConnId, h: Hello, now: int, listed: bool, i: nat)
    requires Numbered(s)
    ensures var s' := Admit(s, cfg, id, h, now, listed);
      && (IsMember(s, id) || !IsPresent(s, id) ==> s' == s)
      && (IsAt(s, i, id) && !s.conns[i].admitted ==>
            var cs := s.conns[i := Newcomer(s.conns[i], h)];
            && SameBooks(s, s') && s'.everAdmitted == s.everAdmitted + {id}
            && if h.turnOnly then s'.conns == cs && s'.intros == s.intros
               else Announced(cs, s, s', cfg, i, now, listed))
  {
    FindIs(s, id);
    if IsAt(s, i, id) && !s.conns[i].admitted {
      var w := Welcomed(s.conns[i], h);
      assert w == Newcomer(s.conns[i], h);
      if !h.turnOnly {
        var s1 := s.(conns := s.conns[i := w], everAdmitted := s.everAdmitted + {id});
        AnnouncementDoes(s1, cfg, i, now, listed);
        assert Admit(s, cfg, id, h, now, listed) == Announce(s1, cfg, i, now, listed);
        SameAnnouncement(s1, s, Announce(s1, cfg, i, now, listed), cfg, i, now, listed);
      }
    }
  }

  lemma SameAnnouncement(s1: State, s: State, s': State, cfg: Config, i: nat, now: int, listed: bool)
    requires i < |s1.conns| && s1.intros == s.intros && Announced(s1.conns, s1, s', cfg, i, now, listed)
    ensures Announced(s1.conns, s, s', cfg, i, now, listed)
  {
  }

  lemma AnnouncementDoes(s: State, cfg: Config, i: nat, now: int, listed: bool)
    requires i < |s.conns| && forall j, k :: 0 <= j < k < |s.conns| ==> s.conns[j].id < s.conns[k].id
    ensures var s' := Announce(s, cfg, i, now, listed);
      SameBooks(s, s') && s'.everAdmitted == s.everAdmitted && Announced(s.conns, s, s', cfg, i, now, listed)
  {
    var c, chosen := s.conns[i], Chosen(s.conns, cfg, s.conns[i], now);
    var list, bumped := ListFor(s.conns, cfg, c, now), BumpUses(s.conns, cfg, chosen);
    ListForIs(s, cfg, c, now);
    ListMembers(s, cfg, c, now);
    AnnouncementIs(s, cfg, i, now, listed);
    IntroductionDoes(s.(conns := bumped), i, list, listed || MeetsElders(list, s.conns, cfg, c));
    IntroducedIsAnnounced(s, bumped, Announce(s, cfg, i, now, listed), cfg, i, now, listed, list);
  }

  lemma IntroducedIsAnnounced(
      s: State, bumped: seq<Conn>, s': State, cfg: Config, i: nat, now: int, listed: bool, list: seq<Ref>)
    requires i < |s.conns| && FirstList(list, s.conns, cfg, s.conns[i], now)
    requires s'.intros == s.intros + [Intro(s.conns[i].id, list)]
    requires |bumped| == |s.conns| == |s'.conns| && bumped[i] == s.conns[i]
    requires forall k :: 0 <= k < |s.conns| ==>
      bumped[k] == if cfg.nurseryOn && Peer(s.conns[k].id) in list then s.conns[k].(uses := s.conns[k].uses + 1)
                   else s.conns[k]
    requires var reaches, c := listed || MeetsElders(list, s.conns, cfg, s.conns[i]), s.conns[i];
      s'.conns[i] == Sent(c.(reached := c.reached || reaches, stamp := Some(|s.intros|)), [PeerList(list)])
    requires forall k :: 0 <= k < |s.conns| && k != i ==>
      s'.conns[k] == Sent(bumped[k], if bumped[k].admitted then [Joined(s.conns[i].id)] else [])
    ensures Announced(s.conns, s, s', cfg, i, now, listed)
  {
    OthersHear(s.conns, bumped, s'.conns, cfg, i, list);
  }

  lemma AnnouncementIs(s: State, cfg: Config, i: nat, now: int, listed: bool)
    requires i < |s.conns| && forall j, k :: 0 <= j < k < |s.conns| ==> s.conns[j].id < s.conns[k].id
    ensures
      var c := s.conns[i];
      var list, bumped := ListFor(s.conns, cfg, c, now), BumpUses(s.conns, cfg, Chosen(s.conns, cfg, c, now));
      && bumped[i] == c
      && Announce(s, cfg, i, now, listed)
      == Introduce(s.(conns := bumped), i, list, listed || MeetsElders(list, s.conns, cfg, c))
  {
    var c := s.conns[i];
    ListMembers(s, cfg, c, now);
    NotOnOwnList(s, cfg, c, now);
    assert ReachesOut(s.conns, cfg, c, Chosen(s.conns, cfg, c, now))
      <==> MeetsElders(ListFor(s.conns, cfg, c, now), s.conns, cfg, c);
  }

  lemma OthersHear(cs: seq<Conn>, bumped: seq<Conn>, after: seq<Conn>, cfg: Config, i: nat, list: seq<Ref>)
    requires i < |cs| == |bumped| == |after|
    requires forall k :: 0 <= k < |cs| ==>
      bumped[k] == if cfg.nurseryOn && Peer(cs[k].id) in list then cs[k].(uses := cs[k].uses + 1) else cs[k]
    requires forall k :: 0 <= k < |cs| && k != i ==>
      after[k] == Sent(bumped[k], if bumped[k].admitted then [Joined(cs[i].id)] else [])
    ensures forall k :: 0 <= k < |cs| && k != i ==> after[k] == Hears(cs[k], cfg, list, cs[i].id)
  {
  }

  lemma NotOnOwnList(s: State, cfg: Config, c: Conn, now: int)
    requires forall j, k :: 0 <= j < k < |s.conns| ==> s.conns[j].id < s.conns[k].id
    ensures c.id !in Chosen(s.conns, cfg, c, now)
  {
    CandidatesUniqueFrom(Candidates(s.conns));
    A.SelectIntroducesAdmitted(Candidates(s.conns), AnchorOptions(cfg, c, now));
  }

  lemma IntroductionDoes(s: State, i: nat, list: seq<Ref>, reaches: bool)
    requires i < |s.conns| && forall j, k :: 0 <= j < k < |s.conns| ==> s.conns[j].id < s.conns[k].id
    ensures var s', c := Introduce(s, i, list, reaches), s.conns[i];
      && SameBooks(s, s') && s'.everAdmitted == s.everAdmitted && s'.intros == s.intros + [Intro(c.id, list)]
      && |s'.conns| == |s.conns|
      && s'.conns[i] == Sent(c.(reached := c.reached || reaches, stamp := Some(|s.intros|)), [PeerList(list)])
      && forall k :: 0 <= k < |s.conns| && k != i ==>
           s'.conns[k] == Sent(s.conns[k], if s.conns[k].admitted then [Joined(c.id)] else [])
  {
    var c := s.conns[i];
    var sent := s.conns[i := Listed(c, reaches, list, |s.intros|)];
    forall k | 0 <= k < |s.conns| && k != i
      ensures sent[k] == s.conns[k] && s.conns[k].id != c.id && s.conns[k].outbox + [] == s.conns[k].outbox
    {
    }
    assert sent[i].id == c.id;
  }

  /** With the nursery off, or too few seasoned to choose from, the newcomer is introduced to every admitted other. */
  lemma SmallDoorIntroducesEveryone(s: State, cfg: Config, i: nat, list: seq<Ref>, now: int, x: ConnId)
    requires forall j, k :: 0 <= j < k < |s.conns| ==> s.conns[j].id < s.conns[k].id
    requires i < |s.conns| && FirstList(list, s.conns, cfg, s.conns[i], now)
    requires cfg.nurseryOn ==> |Seasoned(s.conns, cfg, s.conns[i].id, now)| < cfg.anchorMinPool
    ensures Peer(x) in list <==> x != s.conns[i].id && x in AdmittedIds(s.conns)
  {
    if cfg.nurseryOn {
      var cands, o := Candidates(s.conns), NurseryOptions(cfg, s.conns[i], now);
      CandidatesUniqueFrom(cands);
      assert Mirrors(cands, s.conns);
      SeasonedIs(s.conns, cfg, s.conns[i], now);
      C.FallbackIntroducesEveryone(cands, o);
      AdmittedCandidates(s.conns, x);
    }
  }

  lemma AdmittedCandidates(cs: seq<Conn>, x: ConnId)
    ensures (exists c :: c in Candidates(cs) && c.admitted && c.id == x) <==> x in AdmittedIds(cs)
  {
    var cands := Candidates(cs);
    if x in AdmittedIds(cs) {
      var k :| 0 <= k < |cs| && cs[k].admitted && cs[k].id == x;
      assert cands[k] in cands;
    }
    if c :| c in cands && c.admitted && c.id == x {
      var k :| 0 <= k < |cands| && cands[k] == c;
      assert cs[k].admitted;
    }
  }

  /** The admitted others that have been connected for long enough to be anchors. */
  ghost function Seasoned(cs: seq<Conn>, cfg: Config, id: ConnId, now: int): set<ConnId> {
    set k | 0 <= k < |cs| && cs[k].admitted && cs[k].id != id && now - cs[k].since >= cfg.anchorMinUptimeMs :: cs[k].id
  }

  lemma SeasonedIs(cs: seq<Conn>, cfg: Config, c: Conn, now: int)
    ensures C.SeasonedIds(Candidates(cs), NurseryOptions(cfg, c, now)) == Seasoned(cs, cfg, c.id, now)
  {
    var cands, o := Candidates(cs), NurseryOptions(cfg, c, now);
    forall x | x in Seasoned(cs, cfg, c.id, now)
      ensures x in C.SeasonedIds(cands, o)
    {
      var k :| 0 <= k < |cs| && cs[k].admitted && cs[k].id == x && x != c.id
               && now - cs[k].since >= cfg.anchorMinUptimeMs;
      assert cands[k] in cands && C.Seasoned(cands[k], o);
    }
    forall x | x in C.SeasonedIds(cands, o)
      ensures x in Seasoned(cs, cfg, c.id, now)
    {
      var a :| a in cands && C.Seasoned(a, o) && a.id == x;
      var k :| 0 <= k < |cands| && cands[k] == a;
      assert cs[k].id == x;
    }
  }

  // ----- Departures -----

  /** A close takes the one record out, leaves the others in their order, and tells everyone admitted who stays. */
  lemma CloseDoes(s: State, id: ConnId, n: nat)
    requires Numbered(s)
    ensures var s' := Close(s, id);
      && (!IsPresent(s, id) ==> s' == s)
      && (IsAt(s, n, id) ==>
            && SameBooks(s, s') && s'.intros == s.intros && s'.everAdmitted == s.everAdmitted
            && |s'.conns| == |s.conns| - 1
            && forall k :: 0 <= k < |s'.conns| ==>
                 var c := s.conns[if k < n then k else k + 1];
                 s'.conns[k] == Sent(c, if c.admitted then [Left(id)] else []))
  {
    FindIs(s, id);
    if IsAt(s, n, id) { LeftBehind(s.conns, n, id); }
  }

  lemma LeftBehind(cs: seq<Conn>, n: nat, id: ConnId)
    requires n < |cs|
    ensures var after := Broadcast(cs[..n] + cs[n + 1..], Left(id), None);
      && |after| == |cs| - 1
      && forall k :: 0 <= k < |after| ==>
           var c := cs[if k < n then k else k + 1];
           after[k] == Sent(c, if c.admitted then [Left(id)] else [])
  {
    var left := cs[..n] + cs[n + 1..];
    assert forall k :: 0 <= k < |left| ==> left[k] == cs[if k < n then k else k + 1];
    assert forall k :: 0 <= k < |left| ==> left[k].outbox + [] == left[k].outbox;
  }

  /**
   The socket may be released: admitted, its channel to the bridge bound, able to reconnect, and
   with a fresh report of enough mesh.
  */
  ghost predicate Releasable(s: State, cfg: Config, i: nat, doorBound: bool, now: int) {
    && i < |s.conns| && doorBound
    && var c := s.conns[i];
       && c.admitted && c.kernelOk && c.meshBound.Some? && c.meshBound.value >= cfg.rules.safeFloor
       && now - c.meshBoundAt < cfg.vitalityTtlMs
  }

  /** Then, and only then, its close starts, and its identity, if it has one, starts to cool down. */
  lemma ReleaseDoes(s: State, cfg: Config, id: ConnId, doorBound: bool, now: int, i: nat)
    requires Numbered(s) && IsAt(s, i, id)
    ensures var s', c := ReleaseBootstrap(s, cfg, id, doorBound, now), s.conns[i];
      if !Releasable(s, cfg, i, doorBound, now) then s' == s
      else
        && OnlyAt(s, s', i) && s'.conns[i] == c.(closing := true)
        && s'.nextId == s.nextId && s'.lastGraduationAt == s.lastGraduationAt && s'.grads == s.grads
        && s'.intros == s.intros && s'.everAdmitted == s.everAdmitted
        && s'.cooldown == (if c.node.Some? then s.cooldown[c.node.value := now] else s.cooldown)
        && s'.releases == s.releases + (if c.node.Some? then [Grad(id, c.node.value, now)] else [])
  {
    FindIs(s, id);
  }

  // ----- Marks -----

  /** The record after an event that only marks it. */
  ghost function Marked(c: Conn, e: Event): Conn {
    match e
    case Pings(_, m, now) => if c.admitted && m >= 0 then c.(meshBound := Some(m), meshBoundAt := now) else c
    case Binds(_, node) => c.(node := node)
    case DoorBinds(_) => c.(reached := true)
    case ServerCloses(_) => c.(closing := true)
    case Reads(_) =>
      if c.outbox == [] then c else c.(outbox := c.outbox[1..], view := Apply(c.view, c.outbox[0]))
    case _ => c
  }

  /** A report, a binding, a door mark, a close begun and a frame read each change the one record they name. */
  lemma MarksDo(s: State, cfg: Config, e: Event, i: nat)
    requires Numbered(s) && (e.Pings? || e.Binds? || e.DoorBinds? || e.ServerCloses? || e.Reads?)
    ensures !IsPresent(s, e.id) ==> Step(s, cfg, e) == s
    ensures IsAt(s, i, e.id) ==>
      Quietly(s, Step(s, cfg, e), i) && Step(s, cfg, e).conns[i] == Marked(s.conns[i], e)
  {
    FindIs(s, e.id);
    MarkIs(s, cfg, e);
  }

  lemma MarkIs(s: State, cfg: Config, e: Event)
    requires e.Pings? || e.Binds? || e.DoorBinds? || e.ServerCloses? || e.Reads?
    ensures
      var i := Find(s.conns, e.id);
      Step(s, cfg, e) == if i == |s.conns| then s else s.(conns := s.conns[i := Marked(s.conns[i], e)])
  {
    var i := Find(s.conns, e.id);
    if i < |s.conns| { assert s.conns[i := s.conns[i]] == s.conns; }
  }

  /** A connection is a new record under the next handle, told of the version gate and not yet admitted. */
  lemma ConnectionDoes(s: State, now: int)
    ensures var s' := Connect(s, now);
      && s'.conns[..|s.conns|] == s.conns && |s'.conns| == |s.conns| + 1 && s'.nextId == s.nextId + 1
      && s'.intros == s.intros && s'.everAdmitted == s.everAdmitted
      && var c := s'.conns[|s.conns|];
         && c.id == s.nextId && c.since == now && !c.admitted && !c.closing && !c.reached && c.uses == 0
         && c.node.None? && c.meshBound.None? && c.stamp.None? && c.outbox == [VersionGate] && c.view == {}
  {
  }

  lemma OneMoreAdmitted(cs: seq<Conn>)
    requires cs != []
    ensures AdmittedIds(cs) == AdmittedIds(cs[..|cs| - 1]) + if cs[|cs| - 1].admitted then {cs[|cs| - 1].id} else {}
  {
    var n := |cs| - 1;
    var front := cs[..n];
    forall x | x in AdmittedIds(cs)
      ensures x in AdmittedIds(front) || (cs[n].admitted && x == cs[n].id)
    {
      var k :| 0 <= k < |cs| && cs[k].admitted && cs[k].id == x;
      assert k < n ==> front[k] == cs[k];
    }
    forall x | x in AdmittedIds(front)
      ensures x in AdmittedIds(cs)
    {
      var k :| 0 <= k < n && front[k].admitted && front[k].id == x;
      assert cs[k] == front[k];
    }
  }

  /** The threshold counts the admitted connections, those on their way out included. */
  lemma {:induction false} CountIs(cs: seq<Conn>)
    requires forall i, j :: 0 <= i < j < |cs| ==> cs[i].id < cs[j].id
    ensures AdmittedCount(cs) == |AdmittedIds(cs)|
  {
    if cs == [] {
      assert AdmittedIds(cs) == {};
    } else {
      var n := |cs| - 1;
      CountIs(cs[..n]);
      OneMoreAdmitted(cs);
      assert cs[n].id !in AdmittedIds(cs[..n]);
    }
  }
}
