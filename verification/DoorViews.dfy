/**
 No ghosts and no double offers: what every run of the door keeps of the views it builds.

 The invariant is about final views: what a client will see once it has read everything sent
 to it. Each kind of event has a lemma of its own that keeps the invariant; a run is then an
 induction over its events, and the last section draws from it what a reader of one run sees.

 Handles are handed out in order and never again, a connection is admitted once, and its stamp
 numbers its announcement. What follows needs no more of the server's state than that.
*/
module DoorViews {
  import opened Collections
  import opened Door
  import A = AnchorSelect

  ghost function AdmittedIds(cs: seq<Conn>): set<ConnId> {
    set i | 0 <= i < |cs| && cs[i].admitted :: cs[i].id
  }

  /** Handles are handed out in order and never again, and stamps number the announcements. */
  ghost predicate Numbered(s: State) {
    && (forall i, j :: 0 <= i < j < |s.conns| ==> s.conns[i].id < s.conns[j].id)
    && (forall i :: 0 <= i < |s.conns| ==> s.conns[i].id < s.nextId)
    && (forall i :: 0 <= i < |s.conns| ==> (s.conns[i].admitted <==> s.conns[i].id in s.everAdmitted))
    && (forall x :: x in s.everAdmitted ==> x < s.nextId)
    && (forall i :: 0 <= i < |s.conns| ==> Stamped(s, s.conns[i]))
  }

  ghost predicate Stamped(s: State, c: Conn) {
    c.stamp.Some? ==> c.admitted && c.stamp.value < |s.intros| && s.intros[c.stamp.value].id == c.id
  }

  /** What the client at `c` may come to see: the bridge, and the admitted connections other than itself. */
  ghost predicate Visible(cs: seq<Conn>, c: Conn, p: Ref) {
    p == Self || (p.id != c.id && p.id in AdmittedIds(cs))
  }

  ghost predicate SeesOnly(cs: seq<Conn>, c: Conn) {
    && (!c.admitted ==> Final(c) == {})
    && forall p :: p in Final(c) ==> Visible(cs, c, p)
  }

  ghost predicate NoGhosts(s: State) {
    forall i :: 0 <= i < |s.conns| && !s.conns[i].closing ==> SeesOnly(s.conns, s.conns[i])
  }

  /** Both announced: does the first see the second? With the nursery, at least when the second came later. */
  ghost predicate MustSee(cfg: Config, c: Conn, d: Conn) {
    && c.stamp.Some? && d.stamp.Some? && c.id != d.id
    && (cfg.nurseryOn ==> c.stamp.value < d.stamp.value)
  }

  ghost predicate Knows(s: State, cfg: Config) {
    forall i, j :: 0 <= i < |s.conns| && 0 <= j < |s.conns| && !s.conns[i].closing
        && MustSee(cfg, s.conns[i], s.conns[j])
      ==> Peer(s.conns[j].id) in Final(s.conns[i])
  }

  /** First peer-lists name only what was already admitted. */
  ghost predicate Introduced(s: State) {
    && (forall i :: 0 <= i < |s.intros| ==> s.intros[i].id in s.everAdmitted)
    && (forall i, p :: 0 <= i < |s.intros| && p in s.intros[i].list && p.Peer? ==> p.id in s.everAdmitted)
    && (forall i, j :: 0 <= i <= j < |s.intros| ==> Peer(s.intros[j].id) !in s.intros[i].list)
  }

  ghost predicate Inv(s: State, cfg: Config) {
    Numbered(s) && NoGhosts(s) && Knows(s, cfg) && Introduced(s)
  }

  // ----- Events that change no view -----

  ghost predicate SameView(c: Conn, d: Conn) {
    && d.id == c.id && d.admitted == c.admitted && d.stamp == c.stamp
    && (c.closing ==> d.closing)
    && Final(d) == Final(c)
  }

  ghost predicate Quiet(s: State, s': State) {
    && s'.nextId == s.nextId && s'.intros == s.intros && s'.everAdmitted == s.everAdmitted
    && |s'.conns| == |s.conns|
    && forall i :: 0 <= i < |s.conns| ==> SameView(s.conns[i], s'.conns[i])
  }

  lemma QuietKeeps(s: State, s': State, cfg: Config)
    requires Inv(s, cfg) && Quiet(s, s')
    ensures Inv(s', cfg)
  {
    assert AdmittedIds(s'.conns) == AdmittedIds(s.conns);
    forall i | 0 <= i < |s'.conns|
      ensures Stamped(s', s'.conns[i])
      ensures !s'.conns[i].closing ==> SeesOnly(s'.conns, s'.conns[i])
    {
      assert SameView(s.conns[i], s'.conns[i]);
      assert Stamped(s, s.conns[i]);
      if !s'.conns[i].closing {
        assert SeesOnly(s.conns, s.conns[i]);
        assert forall p :: Visible(s.conns, s.conns[i], p) ==> Visible(s'.conns, s'.conns[i], p);
      }
    }
    forall i, j | 0 <= i < |s'.conns| && 0 <= j < |s'.conns| && !s'.conns[i].closing
        && MustSee(cfg, s'.conns[i], s'.conns[j])
      ensures Peer(s'.conns[j].id) in Final(s'.conns[i])
    {
      assert SameView(s.conns[i], s'.conns[i]) && SameView(s.conns[j], s'.conns[j]);
      assert MustSee(cfg, s.conns[i], s.conns[j]);
    }
  }

  /** One record changed, its view not. */
  lemma OneQuiet(s: State, s': State, cfg: Config, i: nat, d: Conn)
    requires Inv(s, cfg) && i < |s.conns| && SameView(s.conns[i], d)
    requires s'.conns == s.conns[i := d]
    requires s'.nextId == s.nextId && s'.intros == s.intros && s'.everAdmitted == s.everAdmitted
    ensures Inv(s', cfg)
  {
    QuietKeeps(s, s', cfg);
  }

  // ----- The events that do -----

  lemma ConnectKeeps(s: State, cfg: Config, now: int)
    requires Inv(s, cfg)
    ensures Inv(Connect(s, now), cfg)
  {
    var s' := Connect(s, now);
    var n := |s.conns|;
    assert forall i :: 0 <= i < n ==> s'.conns[i] == s.conns[i];
    assert AdmittedIds(s'.conns) == AdmittedIds(s.conns);
    var c := s'.conns[n];
    assert Final(c) == {} by {
      assert c.outbox[..0] == [];
      assert Absorb(c.view, []) == {};
    }
    assert forall i :: 0 <= i < n ==> Stamped(s, s.conns[i]);
    forall i | 0 <= i < |s'.conns| && !s'.conns[i].closing
      ensures SeesOnly(s'.conns, s'.conns[i])
    {
      if i < n { assert SeesOnly(s.conns, s.conns[i]); }
    }
  }

  /** A list of admitted others adds only what its reader may see. */
  lemma ListIsVisible(cs: seq<Conn>, cfg: Config, c: Conn, ids: seq<ConnId>)
    requires forall x :: x in ids ==> x != c.id && x in AdmittedIds(cs)
    ensures forall p :: p in SelfFirst(cfg, c, ids) ==> Visible(cs, c, p)
    ensures forall x :: x in ids ==> Peer(x) in SelfFirst(cfg, c, ids)
  {
    var list := SelfFirst(cfg, c, ids);
    var refs := Refs(ids);
    forall p | p in list
      ensures Visible(cs, c, p)
    {
      if p != Self {
        assert p in refs;
        var k :| 0 <= k < |refs| && refs[k] == p;
        assert ids[k] in ids;
      }
    }
    forall x | x in ids
      ensures Peer(x) in list
    {
      var k :| 0 <= k < |ids| && ids[k] == x;
      assert refs[k] == Peer(x);
      assert Peer(x) in refs;
    }
  }

  lemma OthersAreAdmitted(cs: seq<Conn>, id: ConnId)
    ensures forall x :: x in Others(cs, id) <==> x != id && x in AdmittedIds(cs)
  {
    forall x | x in Others(cs, id)
      ensures x != id && x in AdmittedIds(cs)
    {
      var c :| c in cs && c.admitted && c.id == x;
      var k :| 0 <= k < |cs| && cs[k] == c;
    }
  }

  lemma ListRequestKeeps(s: State, cfg: Config, id: ConnId, listed: bool)
    requires Inv(s, cfg)
    ensures Inv(ListRequest(s, cfg, id, listed), cfg)
  {
    var i := Find(s.conns, id);
    if i < |s.conns| && s.conns[i].admitted {
      var c := s.conns[i];
      var others := Others(s.conns, id);
      OthersAreAdmitted(s.conns, id);
      ListIsVisible(s.conns, cfg, c, others);
      var c2 := c.(reached := c.reached || listed || ReachesOut(s.conns, cfg, c, others));
      var list := SelfFirst(cfg, c, others);
      PushFinal(c2, PeerList(list));
      GrowKeeps(s, ListRequest(s, cfg, id, listed), cfg, i, list);
    }
  }

  /** One admitted connection is sent a list of what it may see. */
  lemma GrowKeeps(s: State, s': State, cfg: Config, i: nat, list: seq<Ref>)
    requires Inv(s, cfg) && i < |s.conns| && s.conns[i].admitted
    requires s'.nextId == s.nextId && s'.intros == s.intros && s'.everAdmitted == s.everAdmitted
    requires |s'.conns| == |s.conns| && forall k :: 0 <= k < |s.conns| && k != i ==> s'.conns[k] == s.conns[k]
    requires var c, d := s.conns[i], s'.conns[i];
      && d.id == c.id && d.admitted && d.stamp == c.stamp && d.closing == c.closing
      && (!c.closing ==> Final(d) == Final(c) + ToSet(list))
    requires forall p :: p in list ==> Visible(s.conns, s.conns[i], p)
    ensures Inv(s', cfg)
  {
    assert AdmittedIds(s'.conns) == AdmittedIds(s.conns) by {
      assert forall k :: 0 <= k < |s.conns| ==>
          s'.conns[k].id == s.conns[k].id && s'.conns[k].admitted == s.conns[k].admitted;
    }
    forall k | 0 <= k < |s'.conns|
      ensures Stamped(s', s'.conns[k])
      ensures !s'.conns[k].closing ==> SeesOnly(s'.conns, s'.conns[k])
    {
      assert Stamped(s, s.conns[k]);
      if !s'.conns[k].closing {
        assert SeesOnly(s.conns, s.conns[k]);
        assert forall p :: Visible(s.conns, s.conns[k], p) ==> Visible(s'.conns, s'.conns[k], p);
      }
    }
    forall k, j | 0 <= k < |s'.conns| && 0 <= j < |s'.conns| && !s'.conns[k].closing
        && MustSee(cfg, s'.conns[k], s'.conns[j])
      ensures Peer(s'.conns[j].id) in Final(s'.conns[k])
    {
      assert MustSee(cfg, s.conns[k], s.conns[j]);
    }
  }

  // ----- Closing -----

  /** The records left when the n-th is forgotten. */
  ghost predicate LeftOver(cs: seq<Conn>, n: nat, left: seq<Conn>) {
    && n < |cs| && |left| == |cs| - 1
    && forall k :: 0 <= k < |left| ==> left[k] == cs[if k < n then k else k + 1]
  }

  /** A record after everyone admitted was told that `id` left. */
  ghost predicate HeardLeft(c: Conn, d: Conn, id: ConnId) {
    && d.id == c.id && d.admitted == c.admitted && d.stamp == c.stamp && d.closing == c.closing
    && (!c.closing ==> Final(d) == if c.admitted then Final(c) - {Peer(id)} else Final(c))
  }

  lemma LeftOverIds(s: State, n: nat, left: seq<Conn>)
    requires Numbered(s) && LeftOver(s.conns, n, left)
    ensures AdmittedIds(left) == AdmittedIds(s.conns) - {s.conns[n].id}
    ensures forall k :: 0 <= k < |left| ==> left[k].id != s.conns[n].id
    ensures forall i, j :: 0 <= i < j < |left| ==> left[i].id < left[j].id
  {
    forall x | x in AdmittedIds(s.conns) - {s.conns[n].id}
      ensures x in AdmittedIds(left)
    {
      var k :| 0 <= k < |s.conns| && s.conns[k].admitted && s.conns[k].id == x;
      assert left[if k < n then k else k - 1] == s.conns[k];
    }
  }

  /** Those who stay still see only who stays, and still see whom they must. */
  lemma LeaveKeepsViews(s: State, s': State, cfg: Config, n: nat, left: seq<Conn>)
    requires NoGhosts(s) && Knows(s, cfg) && LeftOver(s.conns, n, left)
    requires |s'.conns| == |left| && forall k :: 0 <= k < |left| ==> HeardLeft(left[k], s'.conns[k], s.conns[n].id)
    requires AdmittedIds(s'.conns) == AdmittedIds(s.conns) - {s.conns[n].id}
    requires forall k :: 0 <= k < |left| ==> left[k].id != s.conns[n].id
    ensures NoGhosts(s') && Knows(s', cfg)
  {
    var id := s.conns[n].id;
    forall k | 0 <= k < |left| && !s'.conns[k].closing
      ensures SeesOnly(s'.conns, s'.conns[k])
    {
      assert HeardLeft(left[k], s'.conns[k], id);
      assert SeesOnly(s.conns, left[k]);
      assert forall p :: Visible(s.conns, left[k], p) && p != Peer(id) ==> Visible(s'.conns, s'.conns[k], p);
    }
    forall k, j | 0 <= k < |left| && 0 <= j < |left| && !s'.conns[k].closing && MustSee(cfg, s'.conns[k], s'.conns[j])
      ensures Peer(s'.conns[j].id) in Final(s'.conns[k])
    {
      assert HeardLeft(left[k], s'.conns[k], id) && HeardLeft(left[j], s'.conns[j], id);
      assert MustSee(cfg, left[k], left[j]);
    }
  }

  lemma LeftIsHeard(left: seq<Conn>, id: ConnId)
    ensures
      var told := Broadcast(left, Left(id), None);
      && (forall k :: 0 <= k < |left| ==> HeardLeft(left[k], told[k], id))
      && AdmittedIds(told) == AdmittedIds(left)
  {
    var told := Broadcast(left, Left(id), None);
    forall k | 0 <= k < |left|
      ensures HeardLeft(left[k], told[k], id)
    {
      PushFinal(left[k], Left(id));
    }
    assert forall k :: 0 <= k < |left| ==> told[k].id == left[k].id && told[k].admitted == left[k].admitted;
  }

  lemma CloseKeeps(s: State, cfg: Config, id: ConnId)
    requires Inv(s, cfg)
    ensures Inv(Close(s, id), cfg)
  {
    var n := Find(s.conns, id);
    if n < |s.conns| {
      var s' := Close(s, id);
      var left := s.conns[..n] + s.conns[n + 1..];
      LeftOverIds(s, n, left);
      LeftIsHeard(left, id);
      LeaveKeepsViews(s, s', cfg, n, left);
      LeaveKeepsNumbers(s, s', n, left);
    }
  }

  lemma LeaveKeepsNumbers(s: State, s': State, n: nat, left: seq<Conn>)
    requires Numbered(s) && LeftOver(s.conns, n, left)
    requires |s'.conns| == |left| && forall k :: 0 <= k < |left| ==> HeardLeft(left[k], s'.conns[k], s.conns[n].id)
    requires s'.nextId == s.nextId && s'.everAdmitted == s.everAdmitted && s'.intros == s.intros
    requires forall i, j :: 0 <= i < j < |left| ==> left[i].id < left[j].id
    ensures Numbered(s')
  {
    forall k | 0 <= k < |left|
      ensures Stamped(s', s'.conns[k]) && s'.conns[k].id == left[k].id && s'.conns[k].id < s'.nextId
      ensures s'.conns[k].admitted <==> s'.conns[k].id in s'.everAdmitted
    {
      assert HeardLeft(left[k], s'.conns[k], s.conns[n].id);
      assert Stamped(s, left[k]);
    }
  }

  // ----- Admission -----

  /** A record after the welcome: admitted, its view as it was. */
  ghost predicate GotWelcome(c: Conn, d: Conn) {
    && d.id == c.id && d.admitted && d.stamp == c.stamp && d.closing == c.closing && Final(d) == Final(c)
  }

  lemma WelcomeIs(c: Conn, h: Hello)
    ensures GotWelcome(c, Welcomed(c, h))
  {
    var base := c.(admitted := true, turnOnly := h.turnOnly, takesSelf := h.takesSelf, kernelOk := h.kernelOk,
        claimed := h.claimed);
    PushFinal(base, Welcome(c.id));
    assert Final(base) == Final(c);
  }

  /** Admitted but not announced: the welcome changes no view and makes the newcomer visible. */
  lemma WelcomeKeeps(s: State, cfg: Config, i: nat, h: Hello)
    requires Inv(s, cfg) && i < |s.conns| && !s.conns[i].admitted
    ensures var id := s.conns[i].id;
            var s1 := s.(conns := s.conns[i := Welcomed(s.conns[i], h)], everAdmitted := s.everAdmitted + {id});
      Inv(s1, cfg) && s1.conns[i].admitted && s1.conns[i].stamp == None
      && (!s1.conns[i].closing ==> Final(s1.conns[i]) == {})
      && forall k :: 0 <= k < |s.intros| ==> s.intros[k].id != id && Peer(id) !in s.intros[k].list
  {
    WelcomeIs(s.conns[i], h);
    AdmittedKeeps(s, cfg, i, Welcomed(s.conns[i], h));
  }

  lemma AdmittedKeeps(s: State, cfg: Config, i: nat, d: Conn)
    requires Inv(s, cfg) && i < |s.conns| && !s.conns[i].admitted && GotWelcome(s.conns[i], d)
    ensures var s1 := s.(conns := s.conns[i := d], everAdmitted := s.everAdmitted + {d.id});
      Inv(s1, cfg) && d.stamp == None && (!d.closing ==> Final(d) == {})
      && forall k :: 0 <= k < |s.intros| ==> s.intros[k].id != d.id && Peer(d.id) !in s.intros[k].list
  {
    var s1 := s.(conns := s.conns[i := d], everAdmitted := s.everAdmitted + {d.id});
    assert Stamped(s, s.conns[i]);
    assert d.id !in s.everAdmitted;
    assert AdmittedIds(s.conns) <= AdmittedIds(s1.conns) by {
      forall x | x in AdmittedIds(s.conns)
        ensures x in AdmittedIds(s1.conns)
      {
        var k :| 0 <= k < |s.conns| && s.conns[k].admitted && s.conns[k].id == x;
        assert s1.conns[k] == s.conns[k];
      }
    }
    forall k | 0 <= k < |s1.conns|
      ensures Stamped(s1, s1.conns[k])
      ensures !s1.conns[k].closing ==> SeesOnly(s1.conns, s1.conns[k])
    {
      assert Stamped(s, s.conns[k]);
      if !s1.conns[k].closing { assert SeesOnly(s.conns, s.conns[k]); }
    }
    forall k, j | 0 <= k < |s1.conns| && 0 <= j < |s1.conns| && !s1.conns[k].closing
        && MustSee(cfg, s1.conns[k], s1.conns[j])
      ensures Peer(s1.conns[j].id) in Final(s1.conns[k])
    {
      assert k != i && j != i;
      assert MustSee(cfg, s.conns[k], s.conns[j]);
    }
  }

  lemma CandidatesUnique(s: State)
    requires Numbered(s)
    ensures A.Unique(Candidates(s.conns))
  {
    CandidatesUniqueFrom(Candidates(s.conns));
  }

  lemma {:induction false} CandidatesUniqueFrom(cs: seq<A.Candidate>)
    requires forall i, j :: 0 <= i < j < |cs| ==> cs[i].id < cs[j].id
    ensures A.Unique(cs)
  {
    if cs != [] {
      var t := cs[1..];
      assert forall i :: 0 <= i < |t| ==> t[i] == cs[i + 1];
      CandidatesUniqueFrom(t);
      forall c | c in t
        ensures c.id != cs[0].id
      {
        var k :| 0 <= k < |t| && t[k] == c;
      }
    }
  }

  /** However chosen, the newcomer's list names admitted others; with the nursery off, all of them. */
  lemma ChosenAreAdmitted(s: State, cfg: Config, c: Conn, now: int) returns (ids: seq<ConnId>)
    requires Numbered(s)
    ensures ids == A.SameRegionFirst(Chosen(s.conns, cfg, c, now), RegionMap(s.conns), c.claimed)
    ensures forall x :: x in ids ==> x != c.id && x in AdmittedIds(s.conns)
    ensures !cfg.nurseryOn ==> forall x :: x != c.id && x in AdmittedIds(s.conns) ==> x in ids
  {
    var chosen := Chosen(s.conns, cfg, c, now);
    ids := A.SameRegionFirst(chosen, RegionMap(s.conns), c.claimed);
    A.OrderPutsMatesFirst(chosen, RegionMap(s.conns), c.claimed);
    assert forall x :: x in ids <==> x in multiset(ids);
    assert forall x :: x in chosen <==> x in multiset(chosen);
    if cfg.nurseryOn {
      AnchorsAreAdmitted(s, AnchorOptions(cfg, c, now));
    } else {
      OthersAreAdmitted(s.conns, c.id);
    }
  }

  lemma AnchorsAreAdmitted(s: State, o: A.Options)
    requires Numbered(s)
    ensures forall x :: x in A.Select(Candidates(s.conns), o).anchors ==> x != o.newId && x in AdmittedIds(s.conns)
  {
    CandidatesUnique(s);
    var cands := Candidates(s.conns);
    A.SelectIntroducesAdmitted(cands, o);
    forall x | x in A.Select(cands, o).anchors
      ensures x in AdmittedIds(s.conns)
    {
      var a :| a in cands && a.id == x && a.admitted;
      var k :| 0 <= k < |cands| && cands[k] == a;
      assert s.conns[k].id == x;
    }
  }

  /** A record after everyone admitted was told that `id` joined. */
  ghost predicate HeardJoined(c: Conn, d: Conn, id: ConnId) {
    && d.id == c.id && d.admitted == c.admitted && d.stamp == c.stamp && d.closing == c.closing
    && (!c.closing ==> Final(d) == if c.admitted then Final(c) + {Peer(id)} else Final(c))
  }

  /** The newcomer's record once it has been introduced. */
  ghost predicate GotList(c: Conn, d: Conn, stamp: nat, list: seq<Ref>) {
    && d.id == c.id && d.admitted == c.admitted && d.stamp == Some(stamp) && d.closing == c.closing
    && (!c.closing ==> Final(d) == ToSet(list))
  }

  /** The announcement: the newcomer gets its list, everyone else admitted hears of it. */
  lemma AnnounceKeeps(s: State, s': State, cfg: Config, i: nat, list: seq<Ref>)
    requires Inv(s, cfg) && i < |s.conns| && s.conns[i].admitted && s.conns[i].stamp == None
    requires !s.conns[i].closing ==> Final(s.conns[i]) == {}
    requires var id := s.conns[i].id;
      && s'.nextId == s.nextId && s'.everAdmitted == s.everAdmitted
      && s'.intros == s.intros + [Intro(id, list)]
      && (forall k :: 0 <= k < |s.intros| ==> s.intros[k].id != id && Peer(id) !in s.intros[k].list)
    requires |s'.conns| == |s.conns|
    requires forall k :: 0 <= k < |s.conns| && k != i ==> HeardJoined(s.conns[k], s'.conns[k], s.conns[i].id)
    requires GotList(s.conns[i], s'.conns[i], |s.intros|, list)
    requires forall p :: p in list ==> Visible(s.conns, s.conns[i], p)
    requires !cfg.nurseryOn ==> forall x :: x != s.conns[i].id && x in AdmittedIds(s.conns) ==> Peer(x) in list
    ensures Inv(s', cfg)
  {
    var id := s.conns[i].id;
    assert forall k :: 0 <= k < |s.conns| ==>
        s'.conns[k].id == s.conns[k].id && s'.conns[k].admitted == s.conns[k].admitted by {
      forall k | 0 <= k < |s.conns|
        ensures s'.conns[k].id == s.conns[k].id && s'.conns[k].admitted == s.conns[k].admitted
      {
        assert k != i ==> HeardJoined(s.conns[k], s'.conns[k], id);
      }
    }
    assert AdmittedIds(s'.conns) == AdmittedIds(s.conns);
    assert id in AdmittedIds(s.conns);
    forall k | 0 <= k < |s'.conns|
      ensures Stamped(s', s'.conns[k])
      ensures !s'.conns[k].closing ==> SeesOnly(s'.conns, s'.conns[k])
    {
      assert Stamped(s, s.conns[k]);
      assert k != i ==> HeardJoined(s.conns[k], s'.conns[k], id);
      if !s'.conns[k].closing {
        assert SeesOnly(s.conns, s.conns[k]);
        assert forall p :: Visible(s.conns, s.conns[k], p) ==> Visible(s'.conns, s'.conns[k], p);
        if k != i { UniqueOther(s, i, k); }
      }
    }
    forall k, j | 0 <= k < |s'.conns| && 0 <= j < |s'.conns| && !s'.conns[k].closing
        && MustSee(cfg, s'.conns[k], s'.conns[j])
      ensures Peer(s'.conns[j].id) in Final(s'.conns[k])
    {
      assert Stamped(s, s.conns[k]) && Stamped(s, s.conns[j]);
      assert k != i ==> HeardJoined(s.conns[k], s'.conns[k], id);
      assert j != i ==> HeardJoined(s.conns[j], s'.conns[j], id);
      if k != i && j != i {
        assert MustSee(cfg, s.conns[k], s.conns[j]);
      } else if k == i {
        assert s.conns[j].id in AdmittedIds(s.conns);
      }
    }
    AnnounceIntroduces(s, s', cfg, i, list);
  }

  lemma UniqueOther(s: State, i: nat, k: nat)
    requires Numbered(s) && i < |s.conns| && k < |s.conns| && i != k
    ensures s.conns[i].id != s.conns[k].id
  {
  }

  lemma AnnounceIntroduces(s: State, s': State, cfg: Config, i: nat, list: seq<Ref>)
    requires Numbered(s) && Introduced(s) && i < |s.conns| && s.conns[i].admitted
    requires s'.everAdmitted == s.everAdmitted && s'.intros == s.intros + [Intro(s.conns[i].id, list)]
    requires forall k :: 0 <= k < |s.intros| ==> Peer(s.conns[i].id) !in s.intros[k].list
    requires forall p :: p in list ==> Visible(s.conns, s.conns[i], p)
    ensures Introduced(s')
  {
    forall p | p in list && p.Peer?
      ensures p.id in s.everAdmitted && p.id != s.conns[i].id
    {
      assert Visible(s.conns, s.conns[i], p);
      var k :| 0 <= k < |s.conns| && s.conns[k].admitted && s.conns[k].id == p.id;
    }
  }

  lemma AdmitKeeps(s: State, cfg: Config, id: ConnId, h: Hello, now: int, listed: bool)
    requires Inv(s, cfg)
    ensures Inv(Admit(s, cfg, id, h, now, listed), cfg)
  {
    var i := Find(s.conns, id);
    if i < |s.conns| && !s.conns[i].admitted {
      WelcomeKeeps(s, cfg, i, h);
      if !h.turnOnly {
        var c := Welcomed(s.conns[i], h);
        var s1 := s.(conns := s.conns[i := c], everAdmitted := s.everAdmitted + {id});
        AnnouncementKeeps(s1, cfg, i, now, listed);
      }
    }
  }

  lemma AnnouncementKeeps(s: State, cfg: Config, i: nat, now: int, listed: bool)
    requires Inv(s, cfg) && i < |s.conns| && s.conns[i].admitted && s.conns[i].stamp == None
    requires !s.conns[i].closing ==> Final(s.conns[i]) == {}
    requires forall k :: 0 <= k < |s.intros| ==>
        s.intros[k].id != s.conns[i].id && Peer(s.conns[i].id) !in s.intros[k].list
    ensures Inv(Announce(s, cfg, i, now, listed), cfg)
  {
    var c := s.conns[i];
    var chosen := Chosen(s.conns, cfg, c, now);
    var list := ListFor(s.conns, cfg, c, now);
    var reaches := listed || ReachesOut(s.conns, cfg, c, chosen);
    var s2 := s.(conns := BumpUses(s.conns, cfg, chosen));
    ListForIsVisible(s, cfg, c, now);
    BumpKeeps(s, cfg, chosen);
    assert SameView(c, s2.conns[i]);
    IntroduceShape(s2, i, list, reaches);
    AnnounceKeeps(s2, Introduce(s2, i, list, reaches), cfg, i, list);
  }

  lemma ListForIsVisible(s: State, cfg: Config, c: Conn, now: int)
    requires Numbered(s)
    ensures forall p :: p in ListFor(s.conns, cfg, c, now) ==> Visible(s.conns, c, p)
    ensures !cfg.nurseryOn ==> forall x :: x != c.id && x in AdmittedIds(s.conns) ==>
        Peer(x) in ListFor(s.conns, cfg, c, now)
  {
    var ids := ChosenAreAdmitted(s, cfg, c, now);
    ListIsVisible(s.conns, cfg, c, ids);
  }

  /** What the announcement does to each record, seen through the views. */
  lemma IntroduceShape(s: State, i: nat, list: seq<Ref>, reaches: bool)
    requires Numbered(s) && i < |s.conns| && (!s.conns[i].closing ==> Final(s.conns[i]) == {})
    ensures var s' := Introduce(s, i, list, reaches);
      && |s'.conns| == |s.conns|
      && (forall k :: 0 <= k < |s.conns| && k != i ==> HeardJoined(s.conns[k], s'.conns[k], s.conns[i].id))
      && GotList(s.conns[i], s'.conns[i], |s.intros|, list)
  {
    var s' := Introduce(s, i, list, reaches);
    var c := s.conns[i];
    var d := c.(reached := c.reached || reaches, stamp := Some(|s.intros|));
    PushFinal(d, PeerList(list));
    assert Final(d) == Final(c);
    forall k | 0 <= k < |s.conns| && k != i
      ensures HeardJoined(s.conns[k], s'.conns[k], c.id)
    {
      UniqueOther(s, i, k);
      PushFinal(s.conns[k], Joined(c.id));
    }
  }

  /** Moving use counters changes no view. */
  lemma BumpKeeps(s: State, cfg: Config, chosen: seq<ConnId>)
    requires Inv(s, cfg)
    ensures Inv(s.(conns := BumpUses(s.conns, cfg, chosen)), cfg)
    ensures AdmittedIds(BumpUses(s.conns, cfg, chosen)) == AdmittedIds(s.conns)
    ensures forall k :: 0 <= k < |s.conns| ==> SameView(s.conns[k], BumpUses(s.conns, cfg, chosen)[k])
  {
    QuietKeeps(s, s.(conns := BumpUses(s.conns, cfg, chosen)), cfg);
  }

  // ----- Every run -----

  lemma StepKeeps(s: State, cfg: Config, e: Event)
    requires Inv(s, cfg)
    ensures Inv(Step(s, cfg, e), cfg)
  {
    match e
    case Connects(now) => ConnectKeeps(s, cfg, now);
    case Admits(id, h, now, listed) => AdmitKeeps(s, cfg, id, h, now, listed);
    case AsksForList(id, listed) => ListRequestKeeps(s, cfg, id, listed);
    case Closed(id) => CloseKeeps(s, cfg, id);
    case Relays(from, to) => RelayKeeps(s, cfg, from, to);
    case Reads(id) => ReadKeeps(s, cfg, id);
    case Graduates(now) => GraduateKeeps(s, cfg, now);
    case _ => FieldsKeep(s, cfg, e);
  }

  lemma RelayKeeps(s: State, cfg: Config, from: ConnId, to: ConnId)
    requires Inv(s, cfg)
    ensures Inv(Relay(s, from, to), cfg)
  {
    var i, j := Find(s.conns, from), Find(s.conns, to);
    if i < |s.conns| && s.conns[i].admitted && j < |s.conns| {
      PushFinal(s.conns[j], Signal(from));
      OneQuiet(s, Relay(s, from, to), cfg, j, Push(s.conns[j], Signal(from)));
    }
  }

  lemma ReadKeeps(s: State, cfg: Config, id: ConnId)
    requires Inv(s, cfg)
    ensures Inv(Read(s, id), cfg)
  {
    var i := Find(s.conns, id);
    if i < |s.conns| {
      if s.conns[i].outbox != [] { AbsorbFirst(s.conns[i].view, s.conns[i].outbox); }
      OneQuiet(s, Read(s, id), cfg, i, ReadOne(s.conns[i]));
    }
  }

  lemma GraduateKeeps(s: State, cfg: Config, now: int)
    requires Inv(s, cfg)
    ensures Inv(Graduate(s, cfg, now), cfg)
  {
    var pick := GraduationPick(s, cfg, now);
    if pick.Some? {
      var i := Find(s.conns, pick.value.id);
      if i < |s.conns| {
        CloseStartsQuietly(s, Graduate(s, cfg, now), cfg, i);
      }
    }
  }

  lemma CloseStartsQuietly(s: State, s': State, cfg: Config, i: nat)
    requires Inv(s, cfg) && i < |s.conns| && s'.conns == s.conns[i := s.conns[i].(closing := true)]
    requires s'.nextId == s.nextId && s'.intros == s.intros && s'.everAdmitted == s.everAdmitted
    ensures Inv(s', cfg)
  {
    OneQuiet(s, s', cfg, i, s.conns[i].(closing := true));
  }

  /** Events that only set fields the views do not depend on. */
  lemma FieldsKeep(s: State, cfg: Config, e: Event)
    requires Inv(s, cfg) && (e.Pings? || e.Binds? || e.DoorBinds? || e.ReleasesBootstrap? || e.ServerCloses?)
    ensures Inv(Step(s, cfg, e), cfg)
  {
    var i := Find(s.conns, e.id);
    var s' := Step(s, cfg, e);
    if i < |s.conns| && s' != s {
      OneQuiet(s, s', cfg, i, s'.conns[i]);
    }
  }

  lemma {:induction false} RunKeeps(cfg: Config, es: seq<Event>)
    ensures Inv(Run(Opening(), cfg, es), cfg)
    decreases |es|
  {
    if es != [] {
      RunKeeps(cfg, es[..|es| - 1]);
      StepKeeps(Run(Opening(), cfg, es[..|es| - 1]), cfg, es[|es| - 1]);
    }
  }

  // ----- What a reader of one run sees -----

  /**
   No ghosts: once an open client's outbox has drained, its view holds only connections
   that are admitted at that moment, and the bridge; never itself. A client not yet admitted has been
   introduced to no one.
  */
  lemma DrainedViewHasNoGhosts(cfg: Config, es: seq<Event>, c: Conn, p: Ref)
    requires c in Run(Opening(), cfg, es).conns && !c.closing && c.outbox == [] && p in c.view
    ensures c.admitted
    ensures p == Self || (p.id != c.id && exists d :: d in Run(Opening(), cfg, es).conns && d.id == p.id && d.admitted)
  {
    RunKeeps(cfg, es);
    var cs := Run(Opening(), cfg, es).conns;
    var i :| 0 <= i < |cs| && cs[i] == c;
    assert SeesOnly(cs, c) && Final(c) == c.view;
    assert Visible(cs, c, p);
    if p != Self {
      var k :| 0 <= k < |cs| && cs[k].admitted && cs[k].id == p.id;
      assert cs[k] in cs;
    }
  }

  /**
   Of two announced clients, both connected: the one announced first comes to see the other
   and, with the nursery off, each comes to see the other.
  */
  lemma AnnouncedSeeEachOther(cfg: Config, es: seq<Event>, c: Conn, d: Conn)
    requires c in Run(Opening(), cfg, es).conns && d in Run(Opening(), cfg, es).conns && c.id != d.id
    requires c.stamp.Some? && d.stamp.Some? && !c.closing
    requires cfg.nurseryOn ==> c.stamp.value < d.stamp.value
    ensures Peer(d.id) in Final(c)
  {
    RunKeeps(cfg, es);
    var cs := Run(Opening(), cfg, es).conns;
    var i :| 0 <= i < |cs| && cs[i] == c;
    var j :| 0 <= j < |cs| && cs[j] == d;
    assert MustSee(cfg, cs[i], cs[j]);
  }

  /** No double offers: of two clients' first peer-lists, at most the later announced one's names the other. */
  lemma NoDoubleOffers(cfg: Config, es: seq<Event>, i: nat, j: nat)
    requires i <= j < |Run(Opening(), cfg, es).intros|
    ensures var intros := Run(Opening(), cfg, es).intros;
      Peer(intros[j].id) !in intros[i].list
  {
    RunKeeps(cfg, es);
  }

  /** An announced connection's first peer-list is the one on record under its stamp. */
  lemma StampNamesIntro(cfg: Config, es: seq<Event>, c: Conn)
    requires c in Run(Opening(), cfg, es).conns && c.stamp.Some?
    ensures c.stamp.value < |Run(Opening(), cfg, es).intros|
    ensures Run(Opening(), cfg, es).intros[c.stamp.value].id == c.id
  {
    RunKeeps(cfg, es);
    var s := Run(Opening(), cfg, es);
    var i :| 0 <= i < |s.conns| && s.conns[i] == c;
    assert Stamped(s, s.conns[i]);
  }
}
