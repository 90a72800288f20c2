/** The handshake guard around the socket transport (src/bridge_axona_node.js), and both as a transition system. */
module BridgeNode {
  import opened Collections
  import opened WsTransport

  // Sockets open and close, hellos are verified while anything else goes on, requests are sent and
  // settled, in any order.

  datatype HelloState = Pending | Complete

  /** `open` is the server's view of the sockets: `connections.has(connId)`. */
  datatype Node = Node(t: Transport, hello: map<ConnId, HelloState>, open: set<ConnId>)

  datatype Event =
    | Starts
    | Connects(conn: ConnId)
    | SaysHello(conn: ConnId)
    | HandshakeCompletes(conn: ConnId, node: Identity)
    | Closes(conn: ConnId)
    | Sends(node: Identity, throws: bool)
    | TimerFires(token: nat)
    | Responds(id: nat, ok: bool)
    | RouteSuperseded(node: Identity)
    | KernelCloses(node: Identity)
    | StopsAll

  predicate IsComplete(s: Node, conn: ConnId) {
    conn in s.hello && s.hello[conn] == Complete
  }

  function SayHello(s: Node, conn: ConnId): Node {
    if conn in s.hello then s else s.(hello := s.hello[conn := Pending])
  }

  /** `_completeHandshake`: the awaited verification may return after the socket has closed. */
  function CompleteHandshake(s: Node, conn: ConnId, node: Identity): Node {
    if IsComplete(s, conn) then s
    else s.(hello := s.hello[conn := Complete], t := Bind(s.t, node, conn))
  }

  /** The socket's close event, which fires once. */
  function SocketClosed(s: Node, conn: ConnId): Node {
    if conn !in s.open then s
    else Node(ConnClosed(s.t, conn), s.hello - {conn}, s.open - {conn})
  }

  function Step(s: Node, e: Event): Node {
    match e
    case Starts => s.(t := s.t.(started := true))
    case Connects(conn) => s.(open := s.open + {conn})
    case SaysHello(conn) => SayHello(s, conn)
    case HandshakeCompletes(conn, node) => CompleteHandshake(s, conn, node)
    case Closes(conn) => SocketClosed(s, conn)
    case Sends(node, throws) => s.(t := Send(s.t, node, s.open, throws))
    case TimerFires(token) => s.(t := Timeout(s.t, token))
    case Responds(id, ok) => s.(t := Response(s.t, id, ok))
    case RouteSuperseded(node) => s.(t := Supersede(s.t, node))
    case KernelCloses(node) => s.(t := CloseConnection(s.t, node))
    case StopsAll => s.(t := Stop(s.t))
  }

  function Run(s: Node, es: seq<Event>): Node
    decreases |es|
  {
    if es == [] then s else Run(Step(s, es[0]), es[1..])
  }

  function Boot(reportBound: bool): Node {
    Node(Fresh(reportBound), map[], {})
  }

  /** No request is sent while MAX_REQ_ID or more have been issued since an outstanding one. */
  ghost predicate Paced(s: Node, es: seq<Event>)
    decreases |es|
  {
    es != [] ==> (es[0].Sends? ==> InWindow(s.t)) && Paced(Step(s, es[0]), es[1..])
  }

  /** Requests are promised, bindings coherent, the log exact; however requests are paced. */
  ghost predicate Inv(s: Node) {
    && Promised(s.t) && Coherent(s.t) && Logged(s.t) && Targeted(s.t)
    && forall c :: c in s.t.nodeOf ==> IsComplete(s, c)
  }

  lemma SendKeeps(s: Node, node: Identity, throws: bool)
    requires Inv(s)
    ensures Inv(s.(t := Send(s.t, node, s.open, throws)))
  {
    SendPromises(s.t, node, s.open, throws);
    SendFrame(s.t, node, s.open, throws);
  }

  lemma RejectKeeps(s: Node, node: Option<Identity>, o: Outcome)
    requires Inv(s)
    ensures Inv(s.(t := Reject(s.t, s.t.pending, node, o)))
  {
    RejectPromises(s.t, s.t.pending, node, o);
    RejectTakes(s.t, s.t.pending, node, o);
    RejectFrame(s.t, s.t.pending, node, o);
  }

  lemma ClosesKeeps(s: Node, conn: ConnId)
    requires Inv(s)
    ensures Inv(SocketClosed(s, conn))
  {
    if conn in s.open {
      ConnClosedKeeps(s.t, conn);
      if IsCurrent(s.t, conn) {
        var t1 := s.t.(log := s.t.log + [Died(s.t.nodeOf[conn], conn)]);
        RejectPromises(t1, s.t.pending, Some(s.t.nodeOf[conn]), PeerDied);
        RejectFrame(t1, s.t.pending, Some(s.t.nodeOf[conn]), PeerDied);
      }
    }
  }

  /** What only takes entries from the table leaves bindings, log and targets as they were. */
  lemma FewerPendingKeeps(s: Node, t: Transport)
    requires Inv(s) && Promised(t) && t == s.t.(pending := t.pending, armed := t.armed, settled := t.settled)
    requires forall r :: r in t.pending ==> r in s.t.pending
    ensures Inv(s.(t := t))
  {
  }

  lemma TimerKeeps(s: Node, token: nat)
    requires Inv(s)
    ensures Inv(s.(t := Timeout(s.t, token)))
  {
    TimeoutPromises(s.t, token);
    TimerDoes(s.t, token);
    FewerPendingKeeps(s, Timeout(s.t, token));
  }

  lemma ResponseKeeps(s: Node, id: nat, ok: bool)
    requires Inv(s)
    ensures Inv(s.(t := Response(s.t, id, ok)))
  {
    ResponsePromises(s.t, id, ok);
    DeleteAny(s.t.pending, id);
    FewerPendingKeeps(s, Response(s.t, id, ok));
  }

  /** Every event keeps the promises, the coherence of the bindings and the log. */
  lemma StepKeeps(s: Node, e: Event)
    requires Inv(s)
    ensures Inv(Step(s, e))
  {
    match e
    case Starts =>
    case Connects(conn) =>
    case SaysHello(conn) =>
    case HandshakeCompletes(conn, node) =>
      if !IsComplete(s, conn) { BindKeeps(s.t, node, conn); }
    case Closes(conn) => ClosesKeeps(s, conn);
    case Sends(node, throws) => SendKeeps(s, node, throws);
    case TimerFires(token) => TimerKeeps(s, token);
    case Responds(id, ok) => ResponseKeeps(s, id, ok);
    case RouteSuperseded(node) => RejectKeeps(s, Some(node), Superseded);
    case KernelCloses(node) => CloseConnectionKeeps(s.t, node);
    case StopsAll =>
      RejectKeeps(s, None, Stopped);
      StopPromises(s.t);
  }

  /** The invariant holds after every run, however sockets, handshakes and requests interleave. */
  lemma {:induction false} RunKeeps(s: Node, es: seq<Event>)
    requires Inv(s)
    ensures Inv(Run(s, es))
    decreases |es|
  {
    if es != [] {
      StepKeeps(s, es[0]);
      RunKeeps(Step(s, es[0]), es[1..]);
    }
  }

  /** With the sends paced, nothing is ever overwritten. */
  lemma StepAccounts(s: Node, e: Event)
    requires Accounted(s.t) && (e.Sends? ==> InWindow(s.t))
    ensures Accounted(Step(s, e).t)
  {
    match e
    case Closes(conn) =>
      if conn in s.open && IsCurrent(s.t, conn) {
        RejectAccounts(s.t.(log := s.t.log + [Died(s.t.nodeOf[conn], conn)]), s.t.pending, Some(s.t.nodeOf[conn]),
            PeerDied);
      }
    case Sends(node, throws) =>
      WindowPreventsCollision(s.t);
      if Reachable(s.t, node, s.open) { SendAccountsIff(s.t, node, s.open, throws); }
    case TimerFires(token) => TimeoutAccounts(s.t, token);
    case Responds(id, ok) => ResponseAccounts(s.t, id, ok);
    case RouteSuperseded(node) => RejectAccounts(s.t, s.t.pending, Some(node), Superseded);
    case StopsAll => StopAccounts(s.t);
    case _ =>
  }

  lemma {:induction false} RunAccounts(s: Node, es: seq<Event>)
    requires Accounted(s.t) && Paced(s, es)
    ensures Accounted(Run(s, es).t)
    decreases |es|
  {
    if es != [] {
      StepAccounts(s, es[0]);
      RunAccounts(Step(s, es[0]), es[1..]);
    }
  }

  ghost function SettlementsOf(s: seq<Settlement>, token: nat): nat {
    var n := |s| - 1;
    if s == [] then 0 else SettlementsOf(s[..n], token) + if s[n].token == token then 1 else 0
  }

  lemma {:induction false} OnceMeansOne(s: seq<Settlement>, token: nat)
    requires Once(s)
    ensures SettlementsOf(s, token) == if token in SettledTokens(s) then 1 else 0
  {
    if s != [] {
      var n := |s| - 1;
      OnceMeansOne(s[..n], token);
      assert s == s[..n] + [s[n]];
    }
  }

  /**
   In every run each request issued has settled exactly once or has its timer armed and has
   not settled, and what is in the table is unsettled. In a paced run the table is exactly that.
  */
  lemma EveryRequestSettlesOnce(reportBound: bool, es: seq<Event>, token: nat)
    ensures var t := Run(Boot(reportBound), es).t;
      && (token < t.issued ==> SettlementsOf(t.settled, token) == if token in t.armed then 0 else 1)
      && (token >= t.issued ==> SettlementsOf(t.settled, token) == 0 && token !in t.armed)
      && (token in Tokens(t.pending) ==> token in t.armed)
      && (Paced(Boot(reportBound), es) ==> (token in Tokens(t.pending) <==> token in t.armed))
  {
    RunKeeps(Boot(reportBound), es);
    if Paced(Boot(reportBound), es) { RunAccounts(Boot(reportBound), es); }
    OnceMeansOne(Run(Boot(reportBound), es).t.settled, token);
  }

  /** A settlement stands: no later event takes it back. */
  lemma SettlementsStand(s: Node, e: Event)
    ensures s.t.settled <= Step(s, e).t.settled
  {
    match e
    case Closes(conn) =>
      if IsCurrent(s.t, conn) {
        RejectFrame(s.t.(log := s.t.log + [Died(s.t.nodeOf[conn], conn)]), s.t.pending, Some(s.t.nodeOf[conn]),
            PeerDied);
      }
    case RouteSuperseded(node) => RejectFrame(s.t, s.t.pending, Some(node), Superseded);
    case StopsAll => RejectFrame(s.t, s.t.pending, None, Stopped);
    case _ =>
  }

  /** A timer is always there to settle what is unsettled; a response with its id settles what is in the table. */
  lemma TimerAndResponseSettle(s: Node, token: nat, r: Request, ok: bool)
    requires Inv(s)
    ensures token < s.t.issued && token !in SettledTokens(s.t.settled) ==>
              Settlement(token, TimedOut) in Step(s, TimerFires(token)).t.settled
    ensures r in s.t.pending ==>
              Settlement(r.token, if ok then Resolved else RemoteError) in Step(s, Responds(r.id, ok)).t.settled
  {
    TimeoutPromises(s.t, token);
    if r in s.t.pending { DeleteOne(s.t.pending, r); }
  }

  /**
   Superseding an identity, stopping, and the close of the identity's current socket settle what
   the table holds of it.
  */
  lemma RejectionsSettle(s: Node, r: Request)
    requires Inv(s) && r in s.t.pending
    ensures r.token in SettledTokens(Step(s, RouteSuperseded(r.node)).t.settled)
    ensures r.token in SettledTokens(Step(s, StopsAll).t.settled)
    ensures r.node in s.t.connOf && s.t.connOf[r.node] in s.open ==>
              r.token in SettledTokens(Step(s, Closes(s.t.connOf[r.node])).t.settled)
  {
    RejectSettles(s.t, s.t.pending, Some(r.node), Superseded);
    StopPromises(s.t);
    if r.node in s.t.connOf && s.t.connOf[r.node] in s.open {
      var t1 := s.t.(log := s.t.log + [Died(r.node, s.t.connOf[r.node])]);
      RejectSettles(t1, s.t.pending, Some(r.node), PeerDied);
    }
  }

  // ----- The handshake -----

  /**
   The first handshake to complete on a connection binds its identity there; a later one, of
   whatever identity, changes nothing.
  */
  lemma HandshakeDoes(s: Node, conn: ConnId, node: Identity)
    requires Inv(s)
    ensures
      var s' := Step(s, HandshakeCompletes(conn, node));
      if conn in s.hello && s.hello[conn] == Complete then s' == s
      else
        && s'.t.nodeOf == s.t.nodeOf[conn := node] && s'.t.connOf == s.t.connOf[node := conn]
        && s'.hello == s.hello[conn := Complete] && s'.t.pending == s.t.pending && s'.t.settled == s.t.settled
  {
    if !IsComplete(s, conn) { BindDoes(s.t, node, conn, s.open); }
  }

  lemma StepKeepsHandshake(s: Node, e: Event, conn: ConnId)
    requires IsComplete(s, conn) && e != Closes(conn)
    ensures
      var s' := Step(s, e);
      IsComplete(s', conn)
      && (conn in s'.t.nodeOf ==> conn in s.t.nodeOf && s'.t.nodeOf[conn] == s.t.nodeOf[conn])
  {
    match e
    case Closes(c) => CloseFrame(s.t, c);
    case RouteSuperseded(node) => RejectFrame(s.t, s.t.pending, Some(node), Superseded);
    case StopsAll => RejectFrame(s.t, s.t.pending, None, Stopped);
    case _ =>
  }

  /** Until its socket closes a connection never comes to stand for another identity, whatever else happens. */
  lemma {:induction false} FirstHandshakeStands(s: Node, es: seq<Event>, conn: ConnId)
    requires IsComplete(s, conn) && Closes(conn) !in es
    ensures
      var s' := Run(s, es);
      IsComplete(s', conn)
      && (conn in s'.t.nodeOf ==> conn in s.t.nodeOf && s'.t.nodeOf[conn] == s.t.nodeOf[conn])
    decreases |es|
  {
    if es != [] {
      assert es[0] in es && forall e :: e in es[1..] ==> e in es;
      StepKeepsHandshake(s, es[0], conn);
      FirstHandshakeStands(Step(s, es[0]), es[1..], conn);
    }
  }

  /** The close of an open socket forgets its hello and its binding, and no one else's. */
  lemma CloseForgets(s: Node, conn: ConnId, other: ConnId)
    requires conn in s.open && other != conn
    ensures
      var s' := Step(s, Closes(conn));
      && conn !in s'.open && conn !in s'.hello && conn !in s'.t.nodeOf
      && (other in s'.open <==> other in s.open)
      && (other in s'.hello <==> other in s.hello) && (other in s.hello ==> s'.hello[other] == s.hello[other])
      && (other in s'.t.nodeOf <==> other in s.t.nodeOf)
      && (other in s.t.nodeOf ==> s'.t.nodeOf[other] == s.t.nodeOf[other])
  {
    CloseFrame(s.t, conn);
  }

  // ----- Bindings over a run -----

  /** In every run two deaths of an identity have a bind of it between them. */
  lemma DeathsAreSeparated(reportBound: bool, es: seq<Event>, i: nat, j: nat)
    requires var log := Run(Boot(reportBound), es).t.log;
      i < j < |log| && log[i].Died? && log[j].Died? && log[i].node == log[j].node
    ensures var log := Run(Boot(reportBound), es).t.log;
      exists k :: i < k < j && log[k] == Bound(log[j].node, log[j].conn)
  {
    RunKeeps(Boot(reportBound), es);
    BindBetweenDeaths(Run(Boot(reportBound), es).t.log, i, j);
  }

  /** No two identities ever sit on one connection. */
  lemma BindingsInjective(reportBound: bool, es: seq<Event>, a: Identity, b: Identity)
    requires var t := Run(Boot(reportBound), es).t; a in t.connOf && b in t.connOf && t.connOf[a] == t.connOf[b]
    ensures a == b
  {
    RunKeeps(Boot(reportBound), es);
  }

  /** At an armed door an identity stops being bound exactly when the event reports its death, once. */
  lemma ArmedDoorReportsEveryEnd(s: Node, e: Event, n: Identity)
    requires Inv(s) && s.t.reportBound
    ensures (n in s.t.connOf && n !in Step(s, e).t.connOf) <==>
            (e.Closes? && e.conn in s.open && Step(s, e).t.log == s.t.log + [Died(n, e.conn)])
  {
    match e
    case Closes(conn) => DeathEndsInterval(s.t, conn);
    case RouteSuperseded(node) => RejectFrame(s.t, s.t.pending, Some(node), Superseded);
    case StopsAll => RejectFrame(s.t, s.t.pending, None, Stopped);
    case _ =>
  }

  /** In every run of an armed door, what is outstanding is to a bound identity. */
  lemma OutstandingTargetsBound(es: seq<Event>, r: Request)
    requires r in Run(Boot(true), es).t.pending
    ensures r.node in Run(Boot(true), es).t.connOf
  {
    RunKeeps(Boot(true), es);
    RunKeepsArming(Boot(true), es);
  }

  lemma {:induction false} RunKeepsArming(s: Node, es: seq<Event>)
    ensures Run(s, es).t.reportBound == s.t.reportBound
    decreases |es|
  {
    if es != [] {
      var e := es[0];
      match e {
        case Closes(conn) =>
          if IsCurrent(s.t, conn) {
            RejectFrame(s.t.(log := s.t.log + [Died(s.t.nodeOf[conn], conn)]), s.t.pending, Some(s.t.nodeOf[conn]),
                PeerDied);
          }
        case RouteSuperseded(node) => RejectFrame(s.t, s.t.pending, Some(node), Superseded);
        case StopsAll => RejectFrame(s.t, s.t.pending, None, Stopped);
        case _ =>
      }
      RunKeepsArming(Step(s, e), es[1..]);
    }
  }

  /** An unarmed door can lose a binding without a death: the kernel's own close is silent. */
  lemma UnarmedCloseIsSilent()
    ensures var s := Run(Boot(false), [Connects(1), HandshakeCompletes(1, 7), KernelCloses(7), Closes(1)]);
      s.t.log == [Bound(7, 1)] && 7 !in s.t.connOf
  {
    var s1 := Step(Boot(false), Connects(1));
    var s2 := Step(s1, HandshakeCompletes(1, 7));
    var s3 := Step(s2, KernelCloses(7));
    assert s3.t.connOf == map[] && s3.t.nodeOf == map[];
    var es := [Connects(1), HandshakeCompletes(1, 7), KernelCloses(7), Closes(1)];
    assert es[1..] == [HandshakeCompletes(1, 7), KernelCloses(7), Closes(1)];
    assert es[1..][1..] == [KernelCloses(7), Closes(1)];
    assert [KernelCloses(7), Closes(1)][1..] == [Closes(1)];
    assert [Closes(1)][1..] == [];
    assert Run(s3, [Closes(1)]) == Run(Step(s3, Closes(1)), []) == Step(s3, Closes(1));
  }

  /** A connection bound though its socket has closed. */
  ghost predicate Orphan(s: Node, conn: ConnId) {
    conn in s.t.nodeOf && conn !in s.open
  }

  /** A closed socket comes to hold a binding exactly when a handshake completes on it after the close. */
  lemma OrphanIffLateHandshake(s: Node, e: Event, conn: ConnId)
    requires Inv(s) && !Orphan(s, conn)
    ensures Orphan(Step(s, e), conn)
       <==> e.HandshakeCompletes? && e.conn == conn && conn !in s.open && !IsComplete(s, conn)
  {
    match e
    case Closes(c) => ConnClosedKeeps(s.t, c); DeathEndsInterval(s.t, c); CloseFrame(s.t, c);
    case RouteSuperseded(node) => RejectFrame(s.t, s.t.pending, Some(node), Superseded);
    case StopsAll => RejectFrame(s.t, s.t.pending, None, Stopped);
    case _ =>
  }

  lemma CloseFrame(t: Transport, conn: ConnId)
    ensures ConnClosed(t, conn).nodeOf == t.nodeOf - {conn}
  {
    if IsCurrent(t, conn) {
      RejectFrame(t.(log := t.log + [Died(t.nodeOf[conn], conn)]), t.pending, Some(t.nodeOf[conn]), PeerDied);
    }
  }

  lemma CloseKeepsOthers(t: Transport, conn: ConnId, node: Identity)
    requires node in t.connOf && t.connOf[node] != conn
    ensures node in ConnClosed(t, conn).connOf && ConnClosed(t, conn).connOf[node] == t.connOf[node]
  {
    if IsCurrent(t, conn) {
      RejectFrame(t.(log := t.log + [Died(t.nodeOf[conn], conn)]), t.pending, Some(t.nodeOf[conn]), PeerDied);
    }
  }

  /** Such a late handshake takes the identity away from the live socket it had meanwhile bound on. */
  lemma LateHandshakeTakesBinding()
    ensures var s := Run(Boot(true),
        [Starts, Connects(1), Connects(2), HandshakeCompletes(2, 7), Closes(1), HandshakeCompletes(1, 7)]);
      2 in s.open && 1 !in s.open && Orphan(s, 1) && s.t.connOf == map[7 := 1] && !Reachable(s.t, 7, s.open)
  {
    var es := [Starts, Connects(1), Connects(2), HandshakeCompletes(2, 7), Closes(1), HandshakeCompletes(1, 7)];
    var s1 := Step(Boot(true), es[0]);
    var s2 := Step(s1, es[1]);
    var s3 := Step(s2, es[2]);
    var s4 := Step(s3, es[3]);
    var s5 := Step(s4, es[4]);
    assert s5.t.connOf == map[7 := 2] && s5.open == {2};
    var s6 := Step(s5, es[5]);
    assert s6.t.connOf == map[7 := 1];
    RunSix(Boot(true), es);
  }

  lemma RunSix(s: Node, es: seq<Event>)
    requires |es| == 6
    ensures Run(s, es) == Step(Step(Step(Step(Step(Step(s, es[0]), es[1]), es[2]), es[3]), es[4]), es[5])
  {
    RunTwo(s, es);
    RunTwo(Step(Step(s, es[0]), es[1]), es[2..]);
    RunTwo(Step(Step(Step(Step(s, es[0]), es[1]), es[2]), es[3]), es[2..][2..]);
  }

  lemma RunTwo(s: Node, es: seq<Event>)
    requires |es| >= 2
    ensures Run(s, es) == Run(Step(Step(s, es[0]), es[1]), es[2..])
  {
    assert es[1..][1..] == es[2..];
    assert Run(s, es) == Run(Step(s, es[0]), es[1..]);
  }

  /** Another handshake of that identity completes, on another socket; at an unarmed door, or the kernel closes it. */
  ghost predicate Frees(s: Node, e: Event, conn: ConnId, node: Identity) {
    || (e.HandshakeCompletes? && e.node == node && e.conn != conn && !IsComplete(s, e.conn))
    || (!s.t.reportBound && e == KernelCloses(node))
  }

  /**
   The close event of the dead socket has been and gone, so nothing takes the identity's
   binding off it but one of these.
  */
  lemma OrphanEndsIff(s: Node, e: Event, conn: ConnId, node: Identity)
    requires Inv(s) && Orphan(s, conn) && node in s.t.connOf && s.t.connOf[node] == conn
    ensures (node in Step(s, e).t.connOf && Step(s, e).t.connOf[node] == conn) <==> !Frees(s, e, conn, node)
  {
    match e
    case Closes(c) => if c in s.open { CloseKeepsOthers(s.t, c, node); }
    case RouteSuperseded(n) => RejectFrame(s.t, s.t.pending, Some(n), Superseded);
    case StopsAll => RejectFrame(s.t, s.t.pending, None, Stopped);
    case HandshakeCompletes(c, n) => assert IsComplete(s, conn);
    case _ =>
  }

  /** Until then the identity is out of reach: over any run without one, every send to it fails. */
  lemma {:induction false} OrphanStaysOut(s: Node, es: seq<Event>, conn: ConnId, node: Identity)
    requires Inv(s) && Orphan(s, conn) && node in s.t.connOf && s.t.connOf[node] == conn
    requires forall e :: e in es ==>
                !(e.HandshakeCompletes? && e.node == node && e.conn != conn) && e != Connects(conn)
    requires !s.t.reportBound ==> KernelCloses(node) !in es
    ensures var t := Run(s, es);
      node in t.t.connOf && t.t.connOf[node] == conn && conn !in t.open && !Reachable(t.t, node, t.open)
    decreases |es|
  {
    if es != [] {
      var e := es[0];
      assert e in es && forall x :: x in es[1..] ==> x in es;
      StepKeeps(s, e);
      OrphanEndsIff(s, e, conn, node);
      RunKeepsArming(s, [e]);
      assert [e][1..] == [] && Run(s, [e]) == Run(Step(s, e), []);
      assert conn in Step(s, e).t.nodeOf;
      OrphanStaysOut(Step(s, e), es[1..], conn, node);
    }
  }

  // ----- Ids that collide -----

  function Flood(n: nat): seq<Event> {
    seq(n, _ => Sends(7, false))
  }

  /** Requests to a peer that never answers, their timers not yet due: all outstanding. */
  lemma {:induction false} FloodKeeps(s: Node, n: nat)
    requires Accounted(s.t) && s.t.settled == [] && Reachable(s.t, 7, s.open) && s.t.issued + n <= MAX_REQ_ID
    ensures var t := Run(s, Flood(n)).t;
      Accounted(t) && t.settled == [] && t.issued == s.t.issued + n && Reachable(t, 7, s.open)
          && Run(s, Flood(n)).open == s.open
    decreases n
  {
    if n > 0 {
      assert InWindow(s.t) by {
        assert forall r :: r in s.t.pending ==> r.token in Tokens(s.t.pending);
      }
      WindowPreventsCollision(s.t);
      SendAccountsIff(s.t, 7, s.open, false);
      assert Flood(n)[0] == Sends(7, false) && Flood(n)[1..] == Flood(n - 1);
      FloodKeeps(Step(s, Sends(7, false)), n - 1);
    }
  }

  /** A run in which the ids come round while the first request is still outstanding: its entry is overwritten. */
  lemma IdsCanCollide()
    ensures var s := Run(Boot(true), [Starts, Connects(1), HandshakeCompletes(1, 7)]);
      var t := Run(s, Flood(MAX_REQ_ID));
      Accounted(t.t) && !NoCollision(t.t) && !Accounted(Step(t, Sends(7, false)).t)
  {
    var es := [Starts, Connects(1), HandshakeCompletes(1, 7)];
    var s := Step(Step(Step(Boot(true), es[0]), es[1]), es[2]);
    RunTwo(Boot(true), es);
    assert es[2..] == [es[2]] && es[2..][1..] == [];
    assert Run(Boot(true), es) == s;
    FloodKeeps(s, MAX_REQ_ID);
    var t := Run(s, Flood(MAX_REQ_ID));
    FirstIsOutstanding(t.t);
    SendAccountsIff(t.t, 7, t.open, false);
  }

  lemma FirstIsOutstanding(t: Transport)
    requires Accounted(t) && t.settled == [] && t.issued == MAX_REQ_ID
    ensures !NoCollision(t)
  {
    assert 0 in t.armed;
    var r :| r in t.pending && r.token == 0;
    SameId(0, t.issued);
  }

  // ----- The class -----

  class BridgeAxonaNode {
    const transport: WebSocketTransport
    var hello: map<ConnId, HelloState>

    ghost function Model(open: set<ConnId>): Node
      reads this, transport
    {
      Node(transport.Model(), hello, open)
    }

    constructor (reportBound: bool)
      ensures Model({}) == Boot(reportBound) && fresh(transport)
    {
      transport := new WebSocketTransport(reportBound);
      hello := map[];
    }

    method SendHello(conn: ConnId, ghost open: set<ConnId>)
      modifies this
      ensures Model(open) == Step(old(Model(open)), SaysHello(conn))
    {
      if conn !in hello {
        hello := hello[conn := Pending];
      }
    }

    method FinishHandshake(conn: ConnId, node: Identity, ghost open: set<ConnId>)
      modifies this, transport
      ensures Model(open) == Step(old(Model(open)), HandshakeCompletes(conn, node))
    {
      if conn in hello && hello[conn] == Complete {
        return;
      }
      hello := hello[conn := Complete];
      transport.BindPeer(node, conn);
    }

    /** Called once per socket, after the server has dropped it from `connections`. */
    method HandleConnClosed(conn: ConnId, ghost open: set<ConnId>)
      requires conn in open
      modifies this, transport
      ensures Model(open - {conn}) == Step(old(Model(open)), Closes(conn))
    {
      hello := hello - {conn};
      transport.HandleConnClosed(conn);
    }
  }
}
