/** The make-room bind policy (`_bindPolicy`, src/bridge_axona_node.js) as a transition system. */
module BindPolicy {
  import opened Collections
  import DoorKeys
  import B = SlidingBudget
  import R = RecentlyRetired

  // The mesh is the kernel's: all that is assumed of it is the set of open channels, each with an
  // incarnation no other channel ever has, and which identity sits on which channel. Between any two
  // steps of the policy the mesh may open, replace, drop and bind channels as it likes.

  datatype Mesh = Mesh(inc: map<string, nat>, keyOf: map<string, string>, nextInc: nat)

  /** A close deferred a tick: the refused identity and channel, and the channel's incarnation at the refusal. */
  datatype Deferred = Deferred(id: string, token: string, inc: Option<nat>)

  datatype Why = Cooldown | Gate | Budget | NoVictim

  datatype Verdict = NotOurs | Refuse(why: Why) | Pass(retire: bool)

  /**
   A bind offered to the policy, with what the kernel answers while it is decided: the
   gate's preflight, the counted open channels, the victim of the dry run and the identity on it.
  */
  datatype Attempt = Attempt(
    id: string, token: string, viaMesh: bool, gateAdmits: bool,
    open: int, cap: int, victim: Option<string>, victimId: Option<string>,
    at: int, askedAt: int, spentAt: int, markedAt: int)

  /** What an observer of the run can write down; the policy never reads it. */
  datatype Log = Log(
    clock: int,
    looked: int,
    spends: seq<int>,
    idMarks: seq<R.Mark>,
    connMarks: seq<R.Mark>,
    refusals: seq<Deferred>)

  datatype State = State(
    epoch: string,
    budget: B.Budget,
    retired: R.Retired,
    mesh: Mesh,
    doorBound: set<string>,
    makeRoomRetires: nat,
    deferred: seq<Deferred>,
    log: Log)

  datatype Event =
    | BindOffered(a: Attempt)
    | DeferredFires(i: nat)
    | RouteSwitches(id: string, token: string)
    | OfferArrives(conn: string, now: int)
    | SocketCloses(conn: string)
    | MeshOpens(key: string)
    | MeshDrops(key: string)
    | MeshBinds(id: string, key: string)

  // ----- Deciding -----

  function Decide(s: State, a: Attempt): Verdict {
    if !a.viaMesh || !DoorKeys.IsOwn(a.token, s.epoch) then NotOurs
    else if R.Live(s.retired.ids, a.id, a.at, s.retired.cooldownMs) then Refuse(Cooldown)
    else if !a.gateAdmits then Refuse(Gate)
    else if a.cap > 0 && a.open > a.cap then
      if !B.HasRoom(s.budget, a.askedAt) then Refuse(Budget)
      else if a.victim.None? then Refuse(NoVictim)
      else Pass(true)
    else Pass(false)
  }

  /** Did the decision get as far as asking the budget? */
  predicate AsksBudget(s: State, a: Attempt) {
    var v := Decide(s, a);
    v == Refuse(Budget) || v == Refuse(NoVictim) || v == Pass(true)
  }

  function IncOf(m: Mesh, key: string): Option<nat> {
    if key in m.inc then Some(m.inc[key]) else None
  }

  function DropChannel(m: Mesh, key: string): Mesh {
    m.(inc := m.inc - {key}, keyOf := map id | id in m.keyOf && m.keyOf[id] != key :: m.keyOf[id])
  }

  function ConnIdOf(s: State, token: string): Option<string> {
    if DoorKeys.IsOwn(token, s.epoch) then Some(DoorKeys.Parse(token).value.connId) else None
  }

  /** Asking the cooldown, and the budget when it comes to that. */
  function Asked(s: State, a: Attempt): State {
    s.(retired := R.AskIdentity(s.retired, a.id, a.at),
       budget := if AsksBudget(s, a) then B.Ask(s.budget, a.askedAt) else s.budget,
       log := s.log.(clock := a.markedAt, looked := if AsksBudget(s, a) then a.askedAt else s.log.looked))
  }

  /** The key's new mark, if there is a key to mark. */
  function Marked(key: Option<string>, at: int): seq<R.Mark> {
    if key.Some? && key.value != "" then [R.Mark(key.value, at)] else []
  }

  /** Both scopes after a retire: the victim's identity, and the connection its channel came through. */
  function Cool(r: R.Retired, id: Option<string>, conn: Option<string>, at: int): R.Retired {
    var r1 := if id.Some? then R.MarkIdentity(r, id.value, at) else r;
    if conn.Some? then R.MarkConn(r1, conn.value, at) else r1
  }

  function RetireLog(log: Log, a: Attempt, conn: Option<string>): Log {
    log.(looked := a.spentAt,
         spends := log.spends + [a.spentAt],
         idMarks := log.idMarks + Marked(a.victimId, a.markedAt),
         connMarks := log.connMarks + Marked(conn, a.markedAt))
  }

  /** Retire the victim: spend, and mark its identity and its connection. */
  function Retire(s: State, a: Attempt): State
    requires a.victim.Some?
  {
    var victim := a.victim.value;
    var conn := ConnIdOf(s, victim);
    s.(mesh := DropChannel(s.mesh, victim),
       budget := B.Spend(s.budget, a.spentAt),
       retired := Cool(s.retired, a.victimId, conn, a.markedAt),
       makeRoomRetires := s.makeRoomRetires + 1,
       log := RetireLog(s.log, a, conn))
  }

  function Refusal(s: State, a: Attempt): Deferred {
    Deferred(a.id, a.token, IncOf(s.mesh, a.token))
  }

  function Offer(s: State, a: Attempt): State {
    match Decide(s, a)
    case NotOurs => s
    case Refuse(_) =>
      var d := Refusal(s, a);
      var s1 := Asked(s, a);
      s1.(deferred := s.deferred + [d], log := s1.log.(refusals := s.log.refusals + [d]))
    case Pass(retire) =>
      var s1 := Asked(s, a);
      var s2 := if retire then Retire(s1, a) else s1;
      s2.(doorBound := s2.doorBound + {DoorKeys.Parse(a.token).value.connId})
  }

  // ----- The deferred close -----

  /** It acts only if the key still holds the refused incarnation. */
  function Fire(s: State, i: nat): State {
    if i >= |s.deferred| then s
    else
      var d := s.deferred[i];
      var s1 := s.(deferred := s.deferred[..i] + s.deferred[i + 1..]);
      if IncOf(s.mesh, d.token) != d.inc || d.token !in s.mesh.inc then s1
      else s1.(mesh := DropChannel(s.mesh, d.token))
  }

  function Step(s: State, e: Event): State {
    match e
    case BindOffered(a) => Offer(s, a)
    case DeferredFires(i) => Fire(s, i)
    case RouteSwitches(id, token) =>
      var conn := ConnIdOf(s, token);
      if conn.None? then s else s.(doorBound := s.doorBound + {conn.value})
    case OfferArrives(conn, now) =>
      s.(retired := R.AskConn(s.retired, conn, now), log := s.log.(clock := now))
    case SocketCloses(conn) => s.(doorBound := s.doorBound - {conn})
    case MeshOpens(key) =>
      var m := DropChannel(s.mesh, key);
      s.(mesh := m.(inc := m.inc[key := m.nextInc], nextInc := m.nextInc + 1))
    case MeshDrops(key) => s.(mesh := DropChannel(s.mesh, key))
    case MeshBinds(id, key) =>
      if key in s.mesh.inc then s.(mesh := s.mesh.(keyOf := s.mesh.keyOf[id := key])) else s
  }

  /** The clock never runs backwards, within an attempt or between events. */
  predicate Timely(s: State, e: Event) {
    match e
    case BindOffered(a) => s.log.clock <= a.at <= a.askedAt <= a.spentAt <= a.markedAt
    case OfferArrives(_, now) => s.log.clock <= now
    case _ => true
  }

  function Run(s: State, es: seq<Event>): State
    decreases |es|
  {
    if es == [] then s else Step(Run(s, es[..|es| - 1]), es[|es| - 1])
  }

  ghost predicate TimelyRun(s: State, es: seq<Event>)
    decreases |es|
  {
    es != [] ==> TimelyRun(s, es[..|es| - 1]) && Timely(Run(s, es[..|es| - 1]), es[|es| - 1])
  }

  const WINDOW_MS := 60000

  function Start(epoch: string, perMin: int, cooldownMs: int, clock: int): State {
    State(epoch, B.Budget(perMin, WINDOW_MS, [], 0, 0), R.Retired(cooldownMs, map[], map[], 0, 0),
          Mesh(map[], map[], 0), {}, 0, [], Log(clock, clock, [], [], [], []))
  }

  // ----- What every run keeps -----

  /** The budget's few timestamps stand for every spend ever made. */
  ghost predicate BudgetKept(b: B.Budget, retires: nat, log: Log) {
    && b.windowMs > 0
    && log.looked <= log.clock
    && B.Tracks(b, log.spends, log.looked)
    && (if b.perMin > 0 then B.Spread(log.spends, b.perMin, b.windowMs) else log.spends == [])
    && retires == b.spent
  }

  /** The pruned maps stand for every mark ever made. */
  ghost predicate CooldownKept(r: R.Retired, log: Log) {
    && R.Tracks(r.ids, log.idMarks, log.clock, r.cooldownMs)
    && R.Tracks(r.conns, log.connMarks, log.clock, r.cooldownMs)
  }

  /** No incarnation is used twice, and what was refused is in the past. */
  ghost predicate MeshKept(m: Mesh, deferred: seq<Deferred>, log: Log) {
    && (forall k :: k in m.inc ==> m.inc[k] < m.nextInc)
    && (forall j, k :: j in m.inc && k in m.inc && m.inc[j] == m.inc[k] ==> j == k)
    && (forall d :: d in deferred ==> d in log.refusals)
    && (forall d :: d in log.refusals && d.inc.Some? ==> d.inc.value < m.nextInc)
  }

  ghost predicate Inv(s: State) {
    && BudgetKept(s.budget, s.makeRoomRetires, s.log)
    && CooldownKept(s.retired, s.log)
    && MeshKept(s.mesh, s.deferred, s.log)
  }

  lemma AskedKeeps(s: State, a: Attempt)
    requires Inv(s) && Timely(s, BindOffered(a))
    ensures Inv(Asked(s, a))
  {
    var c := s.retired.cooldownMs;
    R.Later(s.retired.ids, s.log.idMarks, s.log.clock, c, a.at);
    R.ForgetTracks(s.retired.ids, s.log.idMarks, a.at, c, a.id);
    R.Later(R.Forget(s.retired.ids, a.id, a.at, c), s.log.idMarks, a.at, c, a.markedAt);
    R.Later(s.retired.conns, s.log.connMarks, s.log.clock, c, a.markedAt);
    if AsksBudget(s, a) {
      B.AskTracks(s.budget, s.log.spends, s.log.looked, a.askedAt);
    }
  }

  /** A spend follows a granted ask, so the rate holds across it. */
  lemma SpendKeeps(b: B.Budget, retires: nat, log: Log, asked: int, spent: int)
    requires BudgetKept(b, retires, log) && log.looked <= asked <= spent <= log.clock && B.HasRoom(b, asked)
    ensures BudgetKept(B.Spend(B.Ask(b, asked), spent), retires + 1,
        log.(looked := spent, spends := log.spends + [spent]))
  {
    B.AskTracks(b, log.spends, log.looked, asked);
    B.SpendTracks(B.Ask(b, asked), log.spends, asked, spent);
    B.GrantedSpendSpreads(log.spends, b.perMin, b.windowMs, asked, spent);
  }

  lemma MarkKeeps(m: R.Scope, marks: seq<R.Mark>, clock: int, c: int, key: Option<string>)
    requires R.Tracks(m, marks, clock, c)
    ensures R.Tracks(R.Bound(m, clock, c), marks, clock, c)
    ensures key.Some? ==>
      R.Tracks(R.Bound(R.Put(m, key.value, clock), clock, c), marks + Marked(key, clock), clock, c)
  {
    R.BoundTracks(m, marks, clock, c);
    if key.Some? && key.value != "" {
      R.PutTracks(m, marks, clock, c, key.value);
      R.BoundTracks(R.Put(m, key.value, clock), marks + Marked(key, clock), clock, c);
    } else {
      assert marks + Marked(key, clock) == marks;
    }
  }

  lemma CoolKeeps(r: R.Retired, log: Log, id: Option<string>, conn: Option<string>)
    requires CooldownKept(r, log)
    ensures CooldownKept(Cool(r, id, conn, log.clock),
                         log.(idMarks := log.idMarks + Marked(id, log.clock),
                              connMarks := log.connMarks + Marked(conn, log.clock)))
  {
    var c, t := r.cooldownMs, log.clock;
    var ids := log.idMarks + Marked(id, t);
    MarkKeeps(r.ids, log.idMarks, t, c, id);
    MarkKeeps(r.conns, log.connMarks, t, c, None);
    var r1 := if id.Some? then R.MarkIdentity(r, id.value, t) else r;
    assert id.None? ==> ids == log.idMarks;
    assert R.Tracks(r1.ids, ids, t, c) && R.Tracks(r1.conns, log.connMarks, t, c);
    MarkKeeps(r1.ids, ids, t, c, None);
    MarkKeeps(r1.conns, log.connMarks, t, c, conn);
    assert conn.None? ==> log.connMarks + Marked(conn, t) == log.connMarks;
  }

  lemma PassKeeps(s: State, a: Attempt)
    requires Inv(s) && Timely(s, BindOffered(a)) && Decide(s, a).Pass?
    ensures Inv(Offer(s, a))
  {
    AskedKeeps(s, a);
    if Decide(s, a) == Pass(true) {
      var s1 := Asked(s, a);
      SpendKeeps(s.budget, s.makeRoomRetires, s.log.(clock := a.markedAt), a.askedAt, a.spentAt);
      CoolKeeps(s1.retired, s1.log, a.victimId, ConnIdOf(s1, a.victim.value));
    }
  }

  lemma RefuseKeeps(s: State, a: Attempt)
    requires Inv(s) && Timely(s, BindOffered(a)) && Decide(s, a).Refuse?
    ensures Inv(Offer(s, a))
  {
    AskedKeeps(s, a);
  }

  lemma FireKeeps(s: State, i: nat)
    requires Inv(s)
    ensures Inv(Fire(s, i))
  {
  }

  lemma OfferArrivesKeeps(s: State, conn: string, now: int)
    requires Inv(s) && s.log.clock <= now
    ensures Inv(Step(s, OfferArrives(conn, now)))
  {
    var c := s.retired.cooldownMs;
    R.Later(s.retired.ids, s.log.idMarks, s.log.clock, c, now);
    R.Later(s.retired.conns, s.log.connMarks, s.log.clock, c, now);
    R.ForgetTracks(s.retired.conns, s.log.connMarks, now, c, conn);
  }

  lemma MeshOpensKeeps(s: State, key: string)
    requires Inv(s)
    ensures Inv(Step(s, MeshOpens(key)))
  {
  }

  lemma StepKeeps(s: State, e: Event)
    requires Inv(s) && Timely(s, e)
    ensures Inv(Step(s, e))
    ensures Step(s, e).epoch == s.epoch && Step(s, e).retired.cooldownMs == s.retired.cooldownMs
    ensures Step(s, e).budget.perMin == s.budget.perMin && Step(s, e).budget.windowMs == s.budget.windowMs
  {
    match e
    case BindOffered(a) =>
      if Decide(s, a).Pass? { PassKeeps(s, a); }
      if Decide(s, a).Refuse? { RefuseKeeps(s, a); }
    case DeferredFires(i) => FireKeeps(s, i);
    case OfferArrives(conn, now) => OfferArrivesKeeps(s, conn, now);
    case MeshOpens(key) => MeshOpensKeeps(s, key);
    case _ =>
  }

  lemma {:induction false} RunKeeps(s: State, es: seq<Event>)
    requires Inv(s) && TimelyRun(s, es)
    ensures Inv(Run(s, es))
    ensures Run(s, es).epoch == s.epoch && Run(s, es).retired.cooldownMs == s.retired.cooldownMs
    ensures Run(s, es).budget.perMin == s.budget.perMin && Run(s, es).budget.windowMs == s.budget.windowMs
    decreases |es|
  {
    if es != [] {
      RunKeeps(s, es[..|es| - 1]);
      StepKeeps(Run(s, es[..|es| - 1]), es[|es| - 1]);
    }
  }

  // ----- What the policy is for -----

  /** The budget in force never lets a trailing window hold more retires than it allows, over any run. */
  lemma RetiresStayInBudget(epoch: string, perMin: int, cooldownMs: int, clock: int, es: seq<Event>, t: int)
    requires TimelyRun(Start(epoch, perMin, cooldownMs, clock), es)
    ensures
      var s := Run(Start(epoch, perMin, cooldownMs, clock), es);
      && |B.Within(s.log.spends, t, 60000)| <= Max(perMin, 0)
      && s.makeRoomRetires == s.budget.spent == |s.log.spends|
  {
    var s0 := Start(epoch, perMin, cooldownMs, clock);
    RunKeeps(s0, es);
    var s := Run(s0, es);
    if perMin > 0 {
      B.WindowHoldsAtMost(s.log.spends, perMin, WINDOW_MS, t);
    } else {
      assert B.Within(s.log.spends, t, WINDOW_MS) == {};
    }
  }

  predicate ByDoor(s: State, a: Attempt) {
    a.viaMesh && DoorKeys.IsOwn(a.token, s.epoch)
  }

  /** Was this key marked less than the cooldown ago, anywhere in the unpruned history? */
  ghost predicate Cooling(marks: seq<R.Mark>, key: string, now: int, cooldown: int) {
    exists i :: 0 <= i < |marks| && marks[i].key == key && now - marks[i].at < cooldown
  }

  lemma LiveIsCooling(m: R.Scope, marks: seq<R.Mark>, clock: int, cooldown: int, key: string, now: int)
    requires R.Tracks(m, marks, clock, cooldown) && clock <= now
    ensures R.Live(m, key, now, cooldown) <==> Cooling(marks, key, now, cooldown)
  {
    R.AnswersExactly(m, marks, clock, cooldown, key, now);
    if Cooling(marks, key, now, cooldown) {
      var i :| 0 <= i < |marks| && marks[i].key == key && now - marks[i].at < cooldown;
      R.LastIsLatest(marks, clock, i);
    }
    if R.Live(m, key, now, cooldown) {
      LastIsMarked(marks, key);
    }
  }

  lemma {:induction false} LastIsMarked(marks: seq<R.Mark>, key: string)
    ensures R.LastMark(marks, key).Some? ==>
      exists i :: 0 <= i < |marks| && marks[i] == R.Mark(key, R.LastMark(marks, key).value)
  {
    if marks != [] {
      var n := |marks| - 1;
      if marks[n].key != key {
        LastIsMarked(marks[..n], key);
      } else {
        assert marks[n] == R.Mark(key, R.LastMark(marks, key).value);
      }
    }
  }

  /** The pruned maps refuse exactly the identities whose history says they are cooling. */
  lemma CooldownIsExact(s: State, a: Attempt)
    requires Inv(s) && Timely(s, BindOffered(a))
    ensures Decide(s, a) == Refuse(Cooldown) <==>
      (ByDoor(s, a) && Cooling(s.log.idMarks, a.id, a.at, s.retired.cooldownMs))
  {
    LiveIsCooling(s.retired.ids, s.log.idMarks, s.log.clock, s.retired.cooldownMs, a.id, a.at);
  }

  /** A channel under the door's own key: one of this epoch, met through the mesh. */
  ghost predicate AtDoor(s: State, a: Attempt) {
    a.viaMesh && exists connId :: connId != "" && a.token == "d" + s.epoch + ":" + connId
  }

  /**
   The whole decision, in terms of the history alone. A bind at the door passes exactly when its
   identity is not cooling, the gate admits it, and the mesh is not over a cap or can make room;
   it retires exactly when it is over, and each refusal is for the first question answered badly.
  */
  lemma DecidesByHistory(s: State, a: Attempt)
    requires Inv(s) && Timely(s, BindOffered(a)) && s.epoch != "" && ':' !in s.epoch
    ensures
      var v := Decide(s, a);
      var cooling := Cooling(s.log.idMarks, a.id, a.at, s.retired.cooldownMs);
      var over := a.cap > 0 && a.open > a.cap;
      var room := |B.Within(s.log.spends, a.askedAt, s.budget.windowMs)| < s.budget.perMin;
      var fit := AtDoor(s, a) && !cooling && a.gateAdmits;
      && (v == NotOurs <==> !AtDoor(s, a))
      && (v == Pass(false) <==> fit && !over)
      && (v == Pass(true) <==> fit && over && room && a.victim.Some?)
      && (v == Refuse(Cooldown) <==> AtDoor(s, a) && cooling)
      && (v == Refuse(Gate) <==> AtDoor(s, a) && !cooling && !a.gateAdmits)
      && (v == Refuse(Budget) <==> fit && over && !room)
      && (v == Refuse(NoVictim) <==> fit && over && room && a.victim.None?)
  {
    DoorKeys.IsOwnIff(a.token, s.epoch);
    CooldownIsExact(s, a);
    B.HasRoomIff(s.budget, s.log.spends, s.log.looked, a.askedAt);
  }

  /** Who has met the bridge's own door: by a bind that passes or a route that switches, until the socket closes. */
  lemma DoorBoundIff(s: State, e: Event, conn: string)
    requires s.epoch != "" && ':' !in s.epoch
    ensures
      var key := "d" + s.epoch + ":" + conn;
      conn in Step(s, e).doorBound <==>
      || (conn != "" && e.BindOffered? && Decide(s, e.a).Pass? && e.a.token == key)
      || (conn != "" && e.RouteSwitches? && e.token == key)
      || (conn in s.doorBound && e != SocketCloses(conn))
  {
    if e.BindOffered? { OwnKeyIs(e.a.token, s.epoch, conn); }
    if e.RouteSwitches? { OwnKeyIs(e.token, s.epoch, conn); }
    if e.DeferredFires? { FireLeavesDoor(s, e.i); }
  }

  lemma FireLeavesDoor(s: State, i: nat)
    ensures Fire(s, i).doorBound == s.doorBound
  {
  }

  lemma OwnKeyIs(token: string, epoch: string, conn: string)
    requires epoch != "" && ':' !in epoch
    ensures (DoorKeys.IsOwn(token, epoch) && DoorKeys.Parse(token).value.connId == conn)
       <==> conn != "" && token == "d" + epoch + ":" + conn
  {
    if conn != "" { DoorKeys.ParseUndoesPrint(epoch, conn); }
    if DoorKeys.IsOwn(token, epoch) { DoorKeys.PrintUndoesParse(token); }
  }

  /** A retire marks its victim, and nothing else is ever marked. */
  lemma OfferMarks(s: State, a: Attempt)
    ensures
      var retire := Decide(s, a) == Pass(true);
      && (Offer(s, a).log.idMarks == s.log.idMarks + if retire then Marked(a.victimId, a.markedAt) else [])
      && (Offer(s, a).log.connMarks ==
          s.log.connMarks + if retire then Marked(ConnIdOf(s, a.victim.value), a.markedAt) else [])
  {
  }

  lemma StepMarksOnlyGrow(s: State, e: Event)
    ensures s.log.idMarks <= Step(s, e).log.idMarks && s.log.connMarks <= Step(s, e).log.connMarks
  {
    if e.BindOffered? { OfferMarks(s, e.a); }
  }

  lemma {:induction false} MarksOnlyGrow(s: State, es: seq<Event>)
    ensures s.log.idMarks <= Run(s, es).log.idMarks && s.log.connMarks <= Run(s, es).log.connMarks
    decreases |es|
  {
    if es != [] {
      MarksOnlyGrow(s, es[..|es| - 1]);
      StepMarksOnlyGrow(Run(s, es[..|es| - 1]), es[|es| - 1]);
    }
  }

  /**
   Retire an identity; whatever happens next, it cannot bind through the door until its
   cooldown has run out.
  */
  lemma RetiredStaysOut(s: State, a: Attempt, es: seq<Event>, b: Attempt)
    requires Inv(s) && Timely(s, BindOffered(a)) && Decide(s, a) == Pass(true)
    requires TimelyRun(Offer(s, a), es) && Timely(Run(Offer(s, a), es), BindOffered(b))
    requires a.victimId == Some(b.id) && b.id != "" && b.at - a.markedAt < s.retired.cooldownMs
    requires ByDoor(s, b)
    ensures Decide(Run(Offer(s, a), es), b) == Refuse(Cooldown)
  {
    AfterRetire(s, a, es);
    var n, s2 := |s.log.idMarks|, Run(Offer(s, a), es);
    assert s2.log.idMarks[n] == R.Mark(b.id, a.markedAt);
    CooldownIsExact(s2, b);
  }

  /** Likewise for a victim on a door key: offers of its connection are refused as long. */
  lemma RetiredConnectionStaysOut(s: State, a: Attempt, es: seq<Event>, conn: string, now: int)
    requires Inv(s) && Timely(s, BindOffered(a)) && Decide(s, a) == Pass(true)
    requires TimelyRun(Offer(s, a), es) && Timely(Run(Offer(s, a), es), OfferArrives(conn, now))
    requires s.epoch != "" && ':' !in s.epoch && conn != "" && a.victim.value == "d" + s.epoch + ":" + conn
    requires now - a.markedAt < s.retired.cooldownMs
    ensures R.Live(Run(Offer(s, a), es).retired.conns, conn, now, s.retired.cooldownMs)
  {
    OwnKeyIs(a.victim.value, s.epoch, conn);
    MarkedConnectionCools(s, a, es, conn, now);
  }

  lemma MarkedConnectionCools(s: State, a: Attempt, es: seq<Event>, conn: string, now: int)
    requires Inv(s) && Timely(s, BindOffered(a)) && Decide(s, a) == Pass(true)
    requires TimelyRun(Offer(s, a), es) && Timely(Run(Offer(s, a), es), OfferArrives(conn, now))
    requires ConnIdOf(s, a.victim.value) == Some(conn) && conn != "" && now - a.markedAt < s.retired.cooldownMs
    ensures R.Live(Run(Offer(s, a), es).retired.conns, conn, now, s.retired.cooldownMs)
  {
    AfterRetire(s, a, es);
    var n, s2 := |s.log.connMarks|, Run(Offer(s, a), es);
    assert s2.log.connMarks[n] == R.Mark(conn, a.markedAt);
    LiveIsCooling(s2.retired.conns, s2.log.connMarks, s2.log.clock, s.retired.cooldownMs, conn, now);
  }

  lemma AfterRetire(s: State, a: Attempt, es: seq<Event>)
    requires Inv(s) && Timely(s, BindOffered(a)) && Decide(s, a) == Pass(true) && TimelyRun(Offer(s, a), es)
    ensures
      var s2 := Run(Offer(s, a), es);
      && Inv(s2) && s2.epoch == s.epoch && s2.retired.cooldownMs == s.retired.cooldownMs
      && s.log.idMarks + Marked(a.victimId, a.markedAt) <= s2.log.idMarks
      && s.log.connMarks + Marked(ConnIdOf(s, a.victim.value), a.markedAt) <= s2.log.connMarks
  {
    StepKeeps(s, BindOffered(a));
    OfferMarks(s, a);
    RunKeeps(Offer(s, a), es);
    MarksOnlyGrow(Offer(s, a), es);
  }

  /**
   A refusal touches nobody: every channel, binding, mark and spend is as it was, the door
   learns nothing, and what every later bind would be told is unchanged.
  */
  lemma RefusalIsInert(s: State, a: Attempt, b: Attempt)
    requires Inv(s) && Timely(s, BindOffered(a)) && Decide(s, a).Refuse?
    requires Timely(Offer(s, a), BindOffered(b))
    ensures
      var s1 := Offer(s, a);
      && s1.mesh == s.mesh && s1.doorBound == s.doorBound && s1.makeRoomRetires == s.makeRoomRetires
      && s1.log.spends == s.log.spends && s1.log.idMarks == s.log.idMarks && s1.log.connMarks == s.log.connMarks
      && Decide(s1, b) == Decide(s, b)
  {
    StepKeeps(s, BindOffered(a));
    var s1 := Offer(s, a);
    CooldownIsExact(s, b);
    CooldownIsExact(s1, b);
    B.AskTracks(s.budget, s.log.spends, s.log.looked, b.askedAt);
    B.AskTracks(s1.budget, s1.log.spends, s1.log.looked, b.askedAt);
  }

  /** A refusal, and nothing else, puts off one close, of the key it was offered with the channel it held then. */
  lemma RefusalsAreDeferred(s: State, e: Event)
    requires !e.DeferredFires?
    ensures Step(s, e).deferred == s.deferred +
      if e.BindOffered? && Decide(s, e.a).Refuse? then
        [Deferred(e.a.id, e.a.token, if e.a.token in s.mesh.inc then Some(s.mesh.inc[e.a.token]) else None)]
      else []
  {
  }

  /**
   After any run following a refusal, its deferred close takes the channel under a key if and
   only if that is the refused key, still holding the channel it held at the refusal; every
   other channel, and every binding on one, stays.
  */
  lemma RefusalClosesOnlyWhatItRefused(s: State, a: Attempt, es: seq<Event>, i: nat, key: string)
    requires Decide(s, a).Refuse?
    requires
      var t := Run(Offer(s, a), es);
      i < |t.deferred| && t.deferred[i] == Refusal(s, a)
    ensures
      var t := Run(Offer(s, a), es);
      var after := Fire(t, i).mesh;
      var refused := key == a.token && key in s.mesh.inc && IncOf(t.mesh, key) == IncOf(s.mesh, key);
      && IncOf(after, key) == (if refused then None else IncOf(t.mesh, key))
      && (forall id :: id in t.mesh.keyOf && t.mesh.keyOf[id] == key ==>
            if refused then id !in after.keyOf else id in after.keyOf && after.keyOf[id] == key)
  {
  }

  lemma StepNumbersGrow(s: State, e: Event)
    ensures s.mesh.nextInc <= Step(s, e).mesh.nextInc
  {
  }

  lemma {:induction false} NumbersOnlyGrow(s: State, es: seq<Event>)
    ensures s.mesh.nextInc <= Run(s, es).mesh.nextInc
    decreases |es|
  {
    if es != [] {
      NumbersOnlyGrow(s, es[..|es| - 1]);
      StepNumbersGrow(Run(s, es[..|es| - 1]), es[|es| - 1]);
    }
  }

  lemma StepDoesNotReuse(s: State, e: Event, key: string, inc: nat)
    requires inc < s.mesh.nextInc && IncOf(s.mesh, key) != Some(inc)
    ensures IncOf(Step(s, e).mesh, key) != Some(inc)
  {
  }

  /** Once a key's channel is replaced, the number the old one had never comes back under it. */
  lemma {:induction false} NumbersAreNotReused(s: State, es: seq<Event>, key: string, inc: nat)
    requires inc < s.mesh.nextInc && IncOf(s.mesh, key) != Some(inc)
    ensures IncOf(Run(s, es).mesh, key) != Some(inc)
    decreases |es|
  {
    if es != [] {
      NumbersAreNotReused(s, es[..|es| - 1], key, inc);
      NumbersOnlyGrow(s, es[..|es| - 1]);
      StepDoesNotReuse(Run(s, es[..|es| - 1]), es[|es| - 1], key, inc);
    }
  }

  /**
   A channel opened after a refusal outlives it: whatever came before and whatever follows, no
   close deferred before the opening takes what the key has held since.
  */
  lemma NewChannelsOutliveOldRefusals(s: State, es1: seq<Event>, key: string, es2: seq<Event>, i: nat)
    requires Inv(s) && TimelyRun(s, es1)
    requires
      var s1 := Step(Run(s, es1), MeshOpens(key));
      var t := Run(s1, es2);
      i < |t.deferred| && t.deferred[i] in Run(s, es1).log.refusals
    ensures
      var s1 := Step(Run(s, es1), MeshOpens(key));
      var t := Run(s1, es2);
      && key in s1.mesh.inc
      && IncOf(Fire(t, i).mesh, key) == IncOf(t.mesh, key)
      && forall id :: id in t.mesh.keyOf && t.mesh.keyOf[id] == key ==>
           id in Fire(t, i).mesh.keyOf && Fire(t, i).mesh.keyOf[id] == key
  {
    RunKeeps(s, es1);
    var s1 := Step(Run(s, es1), MeshOpens(key));
    var d := Run(s1, es2).deferred[i];
    if d.inc.Some? { NumbersAreNotReused(s1, es2, key, d.inc.value); }
  }

  /**
   A pass takes the victim's channel and no other, the newcomer's own exactly if the kernel
   names that as its victim, and the newcomer's connection counts as bound to the door.
  */
  lemma PassTakesTheVictimAlone(s: State, a: Attempt, key: string)
    requires Decide(s, a).Pass?
    ensures IncOf(Offer(s, a).mesh, key) ==
            if Decide(s, a) == Pass(true) && a.victim == Some(key) then None else IncOf(s.mesh, key)
    ensures DoorKeys.Parse(a.token).value.connId in Offer(s, a).doorBound
  {
  }

  // ----- The bridge's own copy -----

  class DoorPolicy {
    const epoch: string
    const budget: B.SlidingBudget
    const retired: R.RecentlyRetired
    var mesh: Mesh
    var doorBound: set<string>
    var makeRoomRetires: nat
    var deferred: seq<Deferred>
    ghost var log: Log

    ghost function Model(): State
      reads this, budget, retired
    {
      State(epoch, budget.Model(), retired.Model(), mesh, doorBound, makeRoomRetires, deferred, log)
    }

    ghost predicate Valid()
      reads this, budget, retired
    {
      Inv(Model())
    }

    constructor (epoch: string, perMin: int, cooldownMs: int, ghost clock: int)
      ensures Valid() && fresh(budget) && fresh(retired)
      ensures Model() == Start(epoch, perMin, cooldownMs, clock)
    {
      this.epoch := epoch;
      budget := new B.SlidingBudget(perMin, WINDOW_MS);
      retired := new R.RecentlyRetired(cooldownMs);
      mesh, doorBound, makeRoomRetires, deferred := Mesh(map[], map[], 0), {}, 0, [];
      log := Log(clock, clock, [], [], [], []);
    }

    method RefuseLater(a: Attempt)
      modifies this
      ensures mesh == old(mesh) && doorBound == old(doorBound) && makeRoomRetires == old(makeRoomRetires)
      ensures deferred == old(deferred) + [Deferred(a.id, a.token, IncOf(mesh, a.token))]
      ensures log == old(log).(refusals := old(log).refusals + [Deferred(a.id, a.token, IncOf(mesh, a.token))])
    {
      var inc := if a.token in mesh.inc then Some(mesh.inc[a.token]) else None;
      var d := Deferred(a.id, a.token, inc);
      deferred := deferred + [d];
      log := log.(refusals := log.refusals + [d]);
    }

    method CoolDown(id: Option<string>, conn: Option<string>, at: int)
      modifies retired
      ensures retired.Model() == Cool(old(retired.Model()), id, conn, at)
    {
      if id.Some? {
        retired.MarkId(id.value, at);
      }
      if conn.Some? {
        retired.MarkConnection(conn.value, at);
      }
    }

    method ConnOf(token: string) returns (conn: Option<string>)
      ensures conn == ConnIdOf(Model(), token)
    {
      conn := if DoorKeys.IsOwn(token, epoch) then Some(DoorKeys.Parse(token).value.connId) else None;
    }

    method MakeRoom(a: Attempt)
      requires a.victim.Some?
      modifies this, budget, retired
      ensures Model() == Retire(old(Model()), a)
    {
      ghost var s := Model();
      var victim := a.victim.value;
      var conn := ConnOf(victim);
      mesh := DropChannel(mesh, victim);
      budget.SpendOne(a.spentAt);
      CoolDown(a.victimId, conn, a.markedAt);
      makeRoomRetires := makeRoomRetires + 1;
      log := RetireLog(log, a, conn);
      assert budget.Model() == B.Spend(s.budget, a.spentAt);
      assert retired.Model() == Cool(s.retired, a.victimId, conn, a.markedAt);
    }

    /** The cooldown, the gate, the budget, the victim: in that order, each only if the one before let it through. */
    method Judge(a: Attempt) returns (v: Verdict)
      requires a.viaMesh && DoorKeys.IsOwn(a.token, epoch)
      modifies `log, budget, retired
      ensures v == Decide(old(Model()), a) && !v.NotOurs?
      ensures Model() == Asked(old(Model()), a)
    {
      var cooling := retired.HasIdentity(a.id, a.at);
      log := log.(clock := a.markedAt);
      if cooling {
        return Verdict.Refuse(Cooldown);
      }
      if !a.gateAdmits {
        return Verdict.Refuse(Gate);
      }
      if a.cap <= 0 || a.open <= a.cap {
        return Pass(false);
      }
      var ok := budget.Ok(a.askedAt);
      log := log.(looked := a.askedAt);
      v := if !ok then Verdict.Refuse(Budget) else if a.victim.None? then Verdict.Refuse(NoVictim) else Pass(true);
    }

    /** `_bindPolicy`. */
    method Admit(a: Attempt) returns (admit: bool)
      modifies this, budget, retired
      ensures Model() == Offer(old(Model()), a)
      ensures admit <==> !Decide(old(Model()), a).Refuse?
      ensures old(Valid()) && old(Timely(Model(), BindOffered(a))) ==> Valid()
    {
      ghost var s := Model();
      admit := true;
      if a.viaMesh && DoorKeys.IsOwn(a.token, epoch) {
        var v := Judge(a);
        if v.Refuse? {
          admit := false;
          RefuseLater(a);
        } else {
          if v.retire {
            MakeRoom(a);
          }
          doorBound := doorBound + {DoorKeys.Parse(a.token).value.connId};
        }
      }
      if Inv(s) && Timely(s, BindOffered(a)) {
        StepKeeps(s, BindOffered(a));
      }
    }

    /** The deferred half of a refusal. */
    method CloseRefused(i: nat)
      requires Valid() && i < |deferred|
      modifies this
      ensures Valid()
      ensures Model() == Fire(old(Model()), i)
    {
      FireKeeps(Model(), i);
      var d := deferred[i];
      deferred := deferred[..i] + deferred[i + 1..];
      var now := if d.token in mesh.inc then Some(mesh.inc[d.token]) else None;
      if now == d.inc && now.Some? {
        mesh := DropChannel(mesh, d.token);
      }
    }

    /** `_onRouteToDoor`: the admitted route of `id` moved to `token`. */
    method OnRouteToDoor(id: string, token: string)
      requires Valid()
      modifies this
      ensures Valid()
      ensures Model() == Step(old(Model()), RouteSwitches(id, token))
    {
      var conn := ConnOf(token);
      if conn.Some? {
        doorBound := doorBound + {conn.value};
      }
    }

    method AskConnection(conn: string, now: int) returns (cooling: bool)
      modifies `log, retired
      ensures Model() == Step(old(Model()), OfferArrives(conn, now))
      ensures cooling == R.Live(old(retired.conns), conn, now, retired.cooldownMs)
    {
      cooling := retired.HasConn(conn, now);
      log := log.(clock := now);
    }

    /** `deliverDoorSignal`: is the frame handed to the mesh? A new offer in the cooldown is not. */
    method DeliverDoorSignal(conn: string, isOffer: bool, now: int) returns (delivered: bool)
      requires Valid() && log.clock <= now
      modifies this, retired
      ensures Valid()
      ensures Model() == if isOffer then Step(old(Model()), OfferArrives(conn, now)) else old(Model())
      ensures !delivered <==> isOffer && Cooling(old(log.connMarks), conn, now, retired.cooldownMs)
    {
      LiveIsCooling(retired.conns, log.connMarks, log.clock, retired.cooldownMs, conn, now);
      delivered := true;
      if isOffer {
        OfferArrivesKeeps(Model(), conn, now);
        var cooling := AskConnection(conn, now);
        delivered := !cooling;
      }
    }
  }
}
