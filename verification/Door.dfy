/** The door (src/server.js): it admits sockets, introduces them, graduates them and tells who has gone. */
module Door {
  import opened Collections
  import A = AnchorSelect
  import G = GraduationSelect

  // Each connection record also carries the far end: the frames sent but not yet read, and the view of
  // the other peers that the client has built from those it has read. Frames to an open socket arrive,
  // in order; frames to a closing one do not.

  /** An entry of a peer-list: a connection, or the bridge itself under its reserved id. */
  datatype Ref = Self | Peer(id: ConnId)

  datatype Frame =
    | VersionGate
    | Welcome(conn: ConnId)
    | PeerList(peers: seq<Ref>)
    | Joined(who: ConnId)
    | Left(who: ConnId)
    | Signal(from: ConnId)

  datatype Conn = Conn(
    id: ConnId,
    since: int,
    admitted: bool,
    closing: bool,
    turnOnly: bool,
    takesSelf: bool,
    kernelOk: bool,
    claimed: Option<string>,
    uses: nat,
    meshBound: Option<int>,
    meshBoundAt: int,
    node: Option<string>,
    reached: bool,
    stamp: Option<nat>,
    outbox: seq<Frame>,
    view: set<Ref>)

  /** What a client-hello that passes the version gates brings. */
  datatype Hello = Hello(turnOnly: bool, takesSelf: bool, kernelOk: bool, claimed: Option<string>)

  datatype Config = Config(
    nurseryOn: bool, anchorK: int, anchorMinUptimeMs: int, wLoad: real, anchorMinPool: int,
    offersSelf: bool, cohortMs: int, gateOn: bool,
    high: int, intervalMs: int, cooldownMs: int, vitalityTtlMs: int, rules: G.Rules)

  /** A peer's first peer-list, in order of announcement. */
  datatype Intro = Intro(id: ConnId, list: seq<Ref>)

  /** A graduation, or the bootstrap release of a bound connection: who, under which identity, and when. */
  datatype Grad = Grad(id: ConnId, node: string, at: int)

  datatype State = State(
    conns: seq<Conn>,
    nextId: ConnId,
    lastGraduationAt: int,
    cooldown: map<string, int>,
    intros: seq<Intro>,
    everAdmitted: set<ConnId>,
    grads: seq<Grad>,
    releases: seq<Grad>)

  datatype Event =
    | Connects(now: int)
    | Admits(id: ConnId, hello: Hello, now: int, listed: bool)
    | AsksForList(id: ConnId, listed: bool)
    | Relays(from: ConnId, to: ConnId)
    | Pings(id: ConnId, meshBound: int, now: int)
    | Binds(id: ConnId, node: Option<string>)
    | DoorBinds(id: ConnId)
    | Graduates(now: int)
    | ReleasesBootstrap(id: ConnId, doorBound: bool, now: int)
    | ServerCloses(id: ConnId)
    | Closed(id: ConnId)
    | Reads(id: ConnId)

  // ----- The far end -----

  function Apply(view: set<Ref>, f: Frame): set<Ref> {
    match f
    case PeerList(peers) => view + ToSet(peers)
    case Joined(p) => view + {Peer(p)}
    case Left(p) => view - {Peer(p)}
    case _ => view
  }

  function Absorb(view: set<Ref>, frames: seq<Frame>): set<Ref> {
    if frames == [] then view
    else Apply(Absorb(view, frames[..|frames| - 1]), frames[|frames| - 1])
  }

  /** The view a client has once its outbox has drained. */
  function Final(c: Conn): set<Ref> {
    Absorb(c.view, c.outbox)
  }

  function Push(c: Conn, f: Frame): Conn {
    if c.closing then c else c.(outbox := c.outbox + [f])
  }

  /** The client reads its next frame. */
  function ReadOne(c: Conn): Conn {
    if c.outbox == [] then c else c.(view := Apply(c.view, c.outbox[0]), outbox := c.outbox[1..])
  }

  lemma PushFinal(c: Conn, f: Frame)
    ensures Final(Push(c, f)) == if c.closing then Final(c) else Apply(Final(c), f)
  {
    assert (c.outbox + [f])[..|c.outbox|] == c.outbox;
  }

  lemma {:induction false} AbsorbFirst(view: set<Ref>, frames: seq<Frame>)
    requires frames != []
    ensures Absorb(Apply(view, frames[0]), frames[1..]) == Absorb(view, frames)
  {
    var n := |frames| - 1;
    if n > 0 {
      AbsorbFirst(view, frames[..n]);
      assert frames[1..][..n - 1] == frames[..n][1..];
    } else {
      assert frames[..0] == [] && frames[1..] == [];
    }
  }

  // ----- The connections, a Map in order of connection -----

  /** The position of a connection, or |cs| when it is not there. */
  function Find(cs: seq<Conn>, id: ConnId): (i: nat)
    ensures i <= |cs| && (i < |cs| ==> cs[i].id == id)
    ensures forall j :: 0 <= j < i ==> cs[j].id != id
  {
    if cs == [] || cs[0].id == id then 0
    else
      var i := Find(cs[1..], id);
      assert forall j :: 1 <= j < i + 1 ==> cs[j] == cs[1..][j - 1];
      i + 1
  }

  /** `broadcast`: every admitted connection but `except`. */
  function Broadcast(cs: seq<Conn>, f: Frame, except: Option<ConnId>): (r: seq<Conn>)
    ensures |r| == |cs|
    ensures forall i :: 0 <= i < |cs| ==>
              r[i] == if cs[i].admitted && Some(cs[i].id) != except then Push(cs[i], f) else cs[i]
  {
    seq(|cs|, i requires 0 <= i < |cs| => if cs[i].admitted && Some(cs[i].id) != except then Push(cs[i], f) else cs[i])
  }

  /** The admitted connections other than `id`, in order. */
  function Others(cs: seq<Conn>, id: ConnId): (r: seq<ConnId>)
    ensures forall x :: x in r <==> exists c :: c in cs && c.admitted && c.id == x && x != id
  {
    if cs == [] then []
    else
      var n := |cs| - 1;
      assert cs == cs[..n] + [cs[n]];
      Others(cs[..n], id) + if cs[n].admitted && cs[n].id != id then [cs[n].id] else []
  }

  /** The keyspace region of a bound connection. */
  function Region(c: Conn): Option<string> {
    if c.node.Some? && |c.node.value| >= 2 then Some(c.node.value[..2]) else None
  }

  function RegionMap(cs: seq<Conn>): map<ConnId, Option<string>> {
    if cs == [] then map[]
    else
      var n := |cs| - 1;
      RegionMap(cs[..n])[cs[n].id := Region(cs[n])]
  }

  function Candidates(cs: seq<Conn>): (r: seq<A.Candidate>)
    ensures |r| == |cs|
    ensures forall i :: 0 <= i < |cs| ==>
              r[i] == A.Candidate(cs[i].id, cs[i].admitted, cs[i].since, cs[i].uses, Region(cs[i]))
  {
    seq(|cs|, i requires 0 <= i < |cs| => A.Candidate(cs[i].id, cs[i].admitted, cs[i].since, cs[i].uses, Region(cs[i])))
  }

  function AnchorOptions(cfg: Config, c: Conn, now: int): A.Options {
    A.Options(c.id, c.claimed, now, cfg.anchorK, cfg.anchorMinUptimeMs, cfg.wLoad, cfg.anchorMinPool)
  }

  /** Whom the newcomer is introduced to: the nursery's anchors, or everyone admitted. */
  function Chosen(cs: seq<Conn>, cfg: Config, c: Conn, now: int): seq<ConnId> {
    if cfg.nurseryOn then A.Select(Candidates(cs), AnchorOptions(cfg, c, now)).anchors else Others(cs, c.id)
  }

  /** Usage is recorded only by the nursery. */
  function BumpUses(cs: seq<Conn>, cfg: Config, ids: seq<ConnId>): (r: seq<Conn>)
    ensures |r| == |cs|
    ensures forall i :: 0 <= i < |cs| ==>
              r[i] == if cfg.nurseryOn && cs[i].id in ids then cs[i].(uses := cs[i].uses + 1) else cs[i]
  {
    seq(|cs|, i requires 0 <= i < |cs| =>
      if cfg.nurseryOn && cs[i].id in ids then cs[i].(uses := cs[i].uses + 1) else cs[i])
  }

  function Refs(ids: seq<ConnId>): (r: seq<Ref>)
    ensures |r| == |ids| && forall i :: 0 <= i < |ids| ==> r[i] == Peer(ids[i])
  {
    seq(|ids|, i requires 0 <= i < |ids| => Peer(ids[i]))
  }

  /** The bridge introduces itself first, to a client whose kernel knows how to take it. */
  function SelfFirst(cfg: Config, c: Conn, ids: seq<ConnId>): seq<Ref> {
    (if cfg.offersSelf && c.takesSelf then [Self] else []) + Refs(ids)
  }

  /** Does the list reach outside the newcomer's own cohort? */
  function ReachesOut(cs: seq<Conn>, cfg: Config, c: Conn, ids: seq<ConnId>): bool {
    exists i :: 0 <= i < |cs| && cs[i].admitted && cs[i].id in ids && c.since - cs[i].since > cfg.cohortMs
  }

  // ----- Transitions -----

  function Opening(): State {
    State([], 1, 0, map[], [], {}, [], [])
  }

  function Connect(s: State, now: int): State {
    var c := Conn(s.nextId, now, false, false, false, false, false, None, 0, None, 0, None, false, None,
        [VersionGate], {});
    s.(conns := s.conns + [c], nextId := s.nextId + 1)
  }

  /** The record of a socket whose hello has passed: admitted, welcomed, not yet introduced. */
  function Welcomed(c: Conn, h: Hello): Conn {
    Push(c.(admitted := true, turnOnly := h.turnOnly, takesSelf := h.takesSelf, kernelOk := h.kernelOk,
            claimed := h.claimed),
         Welcome(c.id))
  }

  /** The newcomer's list, given the connections with the newcomer already admitted. */
  function ListFor(cs: seq<Conn>, cfg: Config, c: Conn, now: int): seq<Ref> {
    SelfFirst(cfg, c, A.SameRegionFirst(Chosen(cs, cfg, c, now), RegionMap(cs), c.claimed))
  }

  /** The newcomer's record once its list has been sent. */
  function Listed(c: Conn, reaches: bool, list: seq<Ref>, stamp: nat): Conn {
    Push(c.(reached := c.reached || reaches, stamp := Some(stamp)), PeerList(list))
  }

  /** The newcomer at position i is sent `list`, and everyone else admitted hears of it. */
  function Introduce(s: State, i: nat, list: seq<Ref>, reaches: bool): State
    requires i < |s.conns|
  {
    var id := s.conns[i].id;
    var sent := s.conns[i := Listed(s.conns[i], reaches, list, |s.intros|)];
    s.(conns := Broadcast(sent, Joined(id), Some(id)), intros := s.intros + [Intro(id, list)])
  }

  /** Choose the newcomer's list, move its anchors' use counters, introduce it. */
  function Announce(s: State, cfg: Config, i: nat, now: int, listed: bool): State
    requires i < |s.conns|
  {
    var c := s.conns[i];
    var chosen := Chosen(s.conns, cfg, c, now);
    Introduce(s.(conns := BumpUses(s.conns, cfg, chosen)), i, ListFor(s.conns, cfg, c, now),
              listed || ReachesOut(s.conns, cfg, c, chosen))
  }

  /** `admitConnection`; a client back only for a TURN credential is welcomed and nothing more. */
  function Admit(s: State, cfg: Config, id: ConnId, h: Hello, now: int, listed: bool): State {
    var i := Find(s.conns, id);
    if i == |s.conns| || s.conns[i].admitted then s
    else
      var s1 := s.(conns := s.conns[i := Welcomed(s.conns[i], h)], everAdmitted := s.everAdmitted + {id});
      if h.turnOnly then s1 else Announce(s1, cfg, i, now, listed)
  }

  /** `peer-list-request`. */
  function ListRequest(s: State, cfg: Config, id: ConnId, listed: bool): State {
    var i := Find(s.conns, id);
    if i == |s.conns| || !s.conns[i].admitted then s
    else
      var c := s.conns[i];
      var others := Others(s.conns, id);
      var c2 := c.(reached := c.reached || listed || ReachesOut(s.conns, cfg, c, others));
      s.(conns := s.conns[i := Push(c2, PeerList(SelfFirst(cfg, c, others)))])
  }

  /** A relayed signal: the recipient need only be connected. */
  function Relay(s: State, from: ConnId, to: ConnId): State {
    var i, j := Find(s.conns, from), Find(s.conns, to);
    if i == |s.conns| || !s.conns[i].admitted || j == |s.conns| then s
    else s.(conns := s.conns[j := Push(s.conns[j], Signal(from))])
  }

  function Ping(s: State, id: ConnId, meshBound: int, now: int): State {
    var i := Find(s.conns, id);
    if i == |s.conns| || !s.conns[i].admitted || meshBound < 0 then s
    else s.(conns := s.conns[i := s.conns[i].(meshBound := Some(meshBound), meshBoundAt := now)])
  }

  /** The transport's answer to `nodeIdFor` changes. */
  function Rebind(s: State, id: ConnId, node: Option<string>): State {
    var i := Find(s.conns, id);
    if i == |s.conns| then s else s.(conns := s.conns[i := s.conns[i].(node := node)])
  }

  /** The connection's channel to the bridge itself has bound: it has met the outside of its cohort. */
  function MeetOutside(s: State, id: ConnId): State {
    var i := Find(s.conns, id);
    if i == |s.conns| then s else s.(conns := s.conns[i := s.conns[i].(reached := true)])
  }

  /** `ws.close()` or `terminate()`: the record stays until the close event. */
  function StartClose(s: State, id: ConnId): State {
    var i := Find(s.conns, id);
    if i == |s.conns| then s else s.(conns := s.conns[i := s.conns[i].(closing := true)])
  }

  /** The close event: forget the connection, then tell everyone who is admitted. */
  function Close(s: State, id: ConnId): State {
    var i := Find(s.conns, id);
    if i == |s.conns| then s
    else s.(conns := Broadcast(s.conns[..i] + s.conns[i + 1..], Left(id), None))
  }

  function Read(s: State, id: ConnId): State {
    var i := Find(s.conns, id);
    if i == |s.conns| then s else s.(conns := s.conns[i := ReadOne(s.conns[i])])
  }

  // ----- Graduation -----

  function FreshMeshBound(c: Conn, cfg: Config, now: int): Option<int> {
    if c.meshBound.Some? && now - c.meshBoundAt < cfg.vitalityTtlMs then c.meshBound else None
  }

  function InCooldown(s: State, cfg: Config, node: Option<string>, now: int): bool {
    node.Some? && node.value in s.cooldown && now - s.cooldown[node.value] < cfg.cooldownMs
  }

  function Descriptor(s: State, cfg: Config, c: Conn, now: int): G.Candidate {
    G.Candidate(c.id, Region(c), c.since, FreshMeshBound(c, cfg, now), c.kernelOk, InCooldown(s, cfg, c.node, now))
  }

  function RulesAt(cfg: Config, now: int): G.Rules {
    cfg.rules.(now := now)
  }

  /** The graduation gate: a peer never introduced outside its cohort is held until the nursery ceiling. */
  predicate Held(cfg: Config, c: Conn, now: int) {
    cfg.gateOn && !c.reached && now - c.since < cfg.rules.maxNurseryMs
  }

  function AdmittedCount(cs: seq<Conn>): nat {
    if cs == [] then 0
    else AdmittedCount(cs[..|cs| - 1]) + if cs[|cs| - 1].admitted then 1 else 0
  }

  /** The descriptors of the admitted connections that the gate lets through, in order. */
  function Descriptors(s: State, cfg: Config, cs: seq<Conn>, now: int): seq<G.Candidate> {
    if cs == [] then []
    else
      var c := cs[|cs| - 1];
      Descriptors(s, cfg, cs[..|cs| - 1], now)
      + if c.admitted && !Held(cfg, c, now) then [Descriptor(s, cfg, c, now)] else []
  }

  function GraduationPick(s: State, cfg: Config, now: int): Option<G.Pick> {
    if !cfg.nurseryOn || now - s.lastGraduationAt < cfg.intervalMs || AdmittedCount(s.conns) <= cfg.high then None
    else G.Select(Descriptors(s, cfg, s.conns, now), RulesAt(cfg, now))
  }

  /** The cooldown map, pruned of what has run out once it is large. */
  function Pruned(cooldown: map<string, int>, cfg: Config, now: int): map<string, int> {
    if |cooldown| > 1000 then map k | k in cooldown && now - cooldown[k] <= cfg.cooldownMs :: cooldown[k] else cooldown
  }

  /** `maybeGraduate`. */
  function Graduate(s: State, cfg: Config, now: int): State {
    var pick := GraduationPick(s, cfg, now);
    if pick.None? then s
    else
      var i := Find(s.conns, pick.value.id);
      if i == |s.conns| then s
      else
        var node := s.conns[i].node;
        var cooldown := if node.Some? then s.cooldown[node.value := now] else s.cooldown;
        s.(conns := s.conns[i := s.conns[i].(closing := true)],
           cooldown := Pruned(cooldown, cfg, now),
           lastGraduationAt := now,
           grads := s.grads + [Grad(pick.value.id, if node.Some? then node.value else "", now)])
  }

  function Release(s: State, i: nat, now: int): State
    requires i < |s.conns|
  {
    var c := s.conns[i];
    s.(conns := s.conns[i := c.(closing := true)],
       cooldown := if c.node.Some? then s.cooldown[c.node.value := now] else s.cooldown,
       releases := s.releases + if c.node.Some? then [Grad(c.id, c.node.value, now)] else [])
  }

  /** A heartbeat that reports enough mesh releases a socket whose channel to the bridge has bound. */
  function ReleaseBootstrap(s: State, cfg: Config, id: ConnId, doorBound: bool, now: int): State {
    var i := Find(s.conns, id);
    if i == |s.conns| || !s.conns[i].admitted || !doorBound then s
    else
      var c := s.conns[i];
      var mb := FreshMeshBound(c, cfg, now);
      if mb.None? || mb.value < cfg.rules.safeFloor || !c.kernelOk then s
      else Release(s, i, now)
  }

  function Step(s: State, cfg: Config, e: Event): State {
    match e
    case Connects(now) => Connect(s, now)
    case Admits(id, h, now, listed) => Admit(s, cfg, id, h, now, listed)
    case AsksForList(id, listed) => ListRequest(s, cfg, id, listed)
    case Relays(from, to) => Relay(s, from, to)
    case Pings(id, m, now) => Ping(s, id, m, now)
    case Binds(id, node) => Rebind(s, id, node)
    case DoorBinds(id) => MeetOutside(s, id)
    case Graduates(now) => Graduate(s, cfg, now)
    case ReleasesBootstrap(id, doorBound, now) => ReleaseBootstrap(s, cfg, id, doorBound, now)
    case ServerCloses(id) => StartClose(s, id)
    case Closed(id) => Close(s, id)
    case Reads(id) => Read(s, id)
  }

  function Run(s: State, cfg: Config, es: seq<Event>): State
    decreases |es|
  {
    if es == [] then s else Step(Run(s, cfg, es[..|es| - 1]), cfg, es[|es| - 1])
  }
}
