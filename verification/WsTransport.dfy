/** The door's socket transport (src/ws_transport.js): who is bound to which connection, and what is outstanding. */
module WsTransport {
  import opened Collections

  // The state also carries what an observer of one run can write down: the requests issued so far, the
  // timers armed, every settlement and every bind and death.

  type Identity = nat

  const MAX_REQ_ID: nat := 0x7fffffff

  datatype Outcome = Resolved | RemoteError | TimedOut | SendFailed | Superseded | PeerDied | Stopped

  /** An entry of the pending table; `token` numbers the requests of the run. */
  datatype Request = Request(id: nat, node: Identity, token: nat)

  datatype Settlement = Settlement(token: nat, outcome: Outcome)

  datatype Note = Bound(node: Identity, conn: ConnId) | Died(node: Identity, conn: ConnId)

  datatype Transport = Transport(
    reportBound: bool,
    started: bool,
    connOf: map<Identity, ConnId>,
    nodeOf: map<ConnId, Identity>,
    pending: seq<Request>,
    nextId: nat,
    issued: nat,
    armed: set<nat>,
    settled: seq<Settlement>,
    log: seq<Note>)

  function Fresh(reportBound: bool): Transport {
    Transport(reportBound, false, map[], map[], [], 1, 0, {}, [], [])
  }

  // ----- The pending table: a Map from cyclic ids, in insertion order -----

  function Lookup(p: seq<Request>, id: nat): Option<Request> {
    if p == [] then None else if p[0].id == id then Some(p[0]) else Lookup(p[1..], id)
  }

  /** `pending.delete(id)`. */
  function Delete(p: seq<Request>, id: nat): seq<Request> {
    if p == [] then [] else if p[0].id == id then p[1..] else [p[0]] + Delete(p[1..], id)
  }

  /** `pending.set(r.id, r)`: an outstanding entry of the same id is overwritten in place. */
  function Put(p: seq<Request>, r: Request): seq<Request> {
    if p == [] then [r] else if p[0].id == r.id then [r] + p[1..] else [p[0]] + Put(p[1..], r)
  }

  function Tokens(p: seq<Request>): set<nat> {
    set r | r in p :: r.token
  }

  // ----- Transitions -----

  /** The id of the run's k-th request: ids cycle through 1 .. MAX_REQ_ID. */
  function IdOf(token: nat): (id: nat)
    ensures 1 <= id <= MAX_REQ_ID
  {
    1 + token % MAX_REQ_ID
  }

  function NextId(id: nat): nat {
    if id >= MAX_REQ_ID then 1 else id + 1
  }

  function Reachable(t: Transport, node: Identity, open: set<ConnId>): bool {
    t.started && node in t.connOf && t.connOf[node] in open
  }

  /** `send`; a call to an unreachable peer rejects at once and leaves no trace in the table. */
  function Send(t: Transport, node: Identity, open: set<ConnId>, throws: bool): Transport {
    if !Reachable(t, node, open) then t
    else
      var t1 := Issue(t, node);
      if throws then Settle(t1, t.nextId, t.issued, SendFailed) else t1
  }

  /** Clear the timer, delete the entry, settle the promise. */
  function Settle(t: Transport, id: nat, token: nat, o: Outcome): Transport {
    t.(pending := Delete(t.pending, id), armed := t.armed - {token}, settled := t.settled + [Settlement(token, o)])
  }

  /** The timer of request `token` fires. */
  function Timeout(t: Transport, token: nat): Transport {
    if token in t.armed then Settle(t, IdOf(token), token, TimedOut) else t
  }

  function Response(t: Transport, id: nat, ok: bool): Transport {
    match Lookup(t.pending, id)
    case None => t
    case Some(r) => Settle(t, id, r.token, if ok then Resolved else RemoteError)
  }

  /** Is this entry to be rejected: one for `node`, or any when no node is named? */
  predicate Hit(r: Request, node: Option<Identity>) {
    node.None? || r.node == node.value
  }

  /** Walk the entries and settle each one hit. */
  function Reject(t: Transport, entries: seq<Request>, node: Option<Identity>, o: Outcome): Transport
    decreases |entries|
  {
    if entries == [] then t
    else
      var r := entries[0];
      Reject(if Hit(r, node) then Settle(t, r.id, r.token, o) else t, entries[1..], node, o)
  }

  function Supersede(t: Transport, node: Identity): Transport {
    Reject(t, t.pending, Some(node), Superseded)
  }

  function Stop(t: Transport): Transport {
    Reject(t, t.pending, None, Stopped).(pending := [], started := false)
  }

  function Bind(t: Transport, node: Identity, conn: ConnId): Transport {
    t.(connOf := t.connOf[node := conn], nodeOf := t.nodeOf[conn := node], log := t.log + [Bound(node, conn)])
  }

  /** Is `conn` bound, and still its identity's current connection? */
  predicate IsCurrent(t: Transport, conn: ConnId) {
    conn in t.nodeOf && t.nodeOf[conn] in t.connOf && t.connOf[t.nodeOf[conn]] == conn
  }

  function Unbind(t: Transport, conn: ConnId): Transport {
    t.(connOf := if IsCurrent(t, conn) then t.connOf - {t.nodeOf[conn]} else t.connOf,
       nodeOf := t.nodeOf - {conn})
  }

  /** The kernel closes a channel: an armed door keeps the socket and its binding. */
  function CloseConnection(t: Transport, node: Identity): Transport {
    if node !in t.connOf || t.reportBound then t else Unbind(t, t.connOf[node])
  }

  function ConnClosed(t: Transport, conn: ConnId): Transport {
    if IsCurrent(t, conn) then
      var node := t.nodeOf[conn];
      Unbind(Reject(t.(log := t.log + [Died(node, conn)]), t.pending, Some(node), PeerDied), conn)
    else Unbind(t, conn)
  }

  // ----- Every request settles exactly once -----

  ghost predicate UniqueIds(p: seq<Request>) {
    p != [] ==> (forall r :: r in p[1..] ==> r.id != p[0].id) && UniqueIds(p[1..])
  }

  ghost function SettledTokens(s: seq<Settlement>): set<nat> {
    set x | x in s :: x.token
  }

  /** No request is settled twice. */
  ghost predicate Once(s: seq<Settlement>) {
    var n := |s| - 1;
    s != [] ==> s[n].token !in SettledTokens(s[..n]) && Once(s[..n])
  }

  /**
   What holds even when ids collide: every request issued has settled once or has its timer
   armed, never both, and whatever is in the table has its timer armed.
  */
  ghost predicate Promised(t: Transport) {
    && t.nextId == IdOf(t.issued)
    && UniqueIds(t.pending)
    && (forall r :: r in t.pending ==> r.id == IdOf(r.token))
    && Tokens(t.pending) <= t.armed
    && Once(t.settled)
    && t.armed !! SettledTokens(t.settled)
    && (forall k: nat :: k in t.armed || k in SettledTokens(t.settled) <==> k < t.issued)
  }

  /**
   And nothing has been overwritten: a request is in the table if and only if it is unsettled
   with its timer armed.
  */
  ghost predicate Accounted(t: Transport) {
    Promised(t) && t.armed == Tokens(t.pending)
  }

  /** Fewer than MAX_REQ_ID requests have been issued since any outstanding one. */
  ghost predicate InWindow(t: Transport) {
    forall r :: r in t.pending ==> t.issued - r.token < MAX_REQ_ID
  }

  /** The next id is not an outstanding one's. */
  ghost predicate NoCollision(t: Transport) {
    forall r :: r in t.pending ==> r.id != t.nextId
  }

  /** Two requests share an id exactly when a multiple of MAX_REQ_ID separates them. */
  lemma SameId(a: nat, b: nat)
    requires a <= b
    ensures IdOf(a) == IdOf(b) <==> (b - a) % 0x7fffffff == 0
  {
    var m: int := MAX_REQ_ID;
    var qa, qb := a / m, b / m;
    assert a == m * qa + a % m && b == m * qb + b % m;
    var d := b - a;
    assert d == m * (d / m) + d % m;
    if a % m == b % m {
      assert d == m * (qb - qa);
      MultipleHasNoRemainder(qb - qa, m);
    }
    if d % m == 0 {
      var gap := b % m - a % m;
      assert gap == m * (d / m - (qb - qa));
      SmallMultiple(gap, d / m - (qb - qa), m);
    }
  }

  lemma MultipleHasNoRemainder(q: int, m: int)
    requires m > 0
    ensures (m * q) % m == 0
  {
    var r := (m * q) % m;
    var d := (m * q) / m;
    assert m * q == m * d + r;
    assert r == m * (q - d);
    SmallMultiple(r, q - d, m);
  }

  lemma SmallMultiple(x: int, q: int, m: int)
    requires m > 0 && -m < x < m && x == m * q
    ensures x == 0
  {
    assert (q - 1) * m == x - m && (q + 1) * m == x + m;
    assert q >= 1 ==> (q - 1) * m >= 0;
    assert q <= -1 ==> (q + 1) * m <= 0;
  }

  lemma WindowPreventsCollision(t: Transport)
    requires Accounted(t) && InWindow(t)
    ensures NoCollision(t)
  {
    forall r | r in t.pending
      ensures r.id != t.nextId
    {
      assert r.token in Tokens(t.pending);
      assert r.token in t.armed;
      SameId(r.token, t.issued);
      assert 0 < t.issued - r.token < MAX_REQ_ID;
    }
  }

  lemma {:induction false} PutFresh(p: seq<Request>, r: Request)
    requires UniqueIds(p) && forall x :: x in p ==> x.id != r.id
    ensures Put(p, r) == p + [r] && UniqueIds(p + [r])
  {
    if p != [] {
      PutFresh(p[1..], r);
      assert p == [p[0]] + p[1..];
      assert (p + [r])[1..] == p[1..] + [r];
    } else {
      assert ([] + [r])[1..] == [];
    }
  }

  lemma {:induction false} DeleteOne(p: seq<Request>, x: Request)
    requires UniqueIds(p) && x in p
    ensures UniqueIds(Delete(p, x.id))
    ensures forall r :: r in Delete(p, x.id) <==> r in p && r != x
    ensures Lookup(p, x.id) == Some(x)
  {
    assert p == [p[0]] + p[1..];
    if p[0].id != x.id {
      DeleteOne(p[1..], x);
      assert Delete(p, x.id)[1..] == Delete(p[1..], x.id);
    } else {
      assert p[0] == x;
    }
  }

  lemma {:induction false} LookupFinds(p: seq<Request>, id: nat)
    ensures Lookup(p, id).Some? ==> Lookup(p, id).value in p && Lookup(p, id).value.id == id
  {
    if p != [] { LookupFinds(p[1..], id); }
  }

  lemma {:induction false} TokenIsUnique(p: seq<Request>, x: Request, y: Request)
    requires UniqueIds(p) && x in p && y in p && x.id == y.id
    ensures x == y
  {
    assert p == [p[0]] + p[1..];
    if x in p[1..] && y in p[1..] { TokenIsUnique(p[1..], x, y); }
  }

  lemma OnceMore(s: seq<Settlement>, x: Settlement)
    requires Once(s) && x.token !in SettledTokens(s)
    ensures Once(s + [x]) && SettledTokens(s + [x]) == SettledTokens(s) + {x.token}
  {
    assert (s + [x])[..|s|] == s;
  }

  lemma {:induction false} DeleteAny(p: seq<Request>, id: nat)
    requires UniqueIds(p)
    ensures UniqueIds(Delete(p, id)) && forall y :: y in Delete(p, id) <==> y in p && y.id != id
  {
    if p != [] {
      assert p == [p[0]] + p[1..];
      DeleteAny(p[1..], id);
      if p[0].id != id { assert Delete(p, id)[1..] == Delete(p[1..], id); }
    }
  }

  lemma {:induction false} PutAny(p: seq<Request>, r: Request)
    requires UniqueIds(p)
    ensures UniqueIds(Put(p, r)) && forall y :: y in Put(p, r) <==> y == r || (y in p && y.id != r.id)
  {
    if p != [] {
      assert p == [p[0]] + p[1..];
      if p[0].id != r.id {
        PutAny(p[1..], r);
        assert Put(p, r)[1..] == Put(p[1..], r);
      } else {
        assert Put(p, r)[1..] == p[1..];
      }
    } else {
      assert Put(p, r) == [r] && [r][1..] == [];
    }
  }

  /** Settling a request whose timer is armed: it settles once, whoever holds its id by now. */
  lemma SettlePromises(t: Transport, token: nat, o: Outcome)
    requires Promised(t) && token in t.armed
    ensures Promised(Settle(t, IdOf(token), token, o))
  {
    DeleteAny(t.pending, IdOf(token));
    OnceMore(t.settled, Settlement(token, o));
  }

  /** Settling an outstanding request moves it from the table to the settlements. */
  lemma SettleAccounts(t: Transport, r: Request, o: Outcome)
    requires Accounted(t) && r in t.pending
    ensures Accounted(Settle(t, r.id, r.token, o))
  {
    DeleteOne(t.pending, r);
    assert r.token in t.armed;
    SettlePromises(t, r.token, o);
    assert forall x :: x in t.pending && x.token == r.token ==> x == r by {
      forall x | x in t.pending && x.token == r.token
        ensures x == r
      {
        TokenIsUnique(t.pending, x, r);
      }
    }
    TokensOfPart(t.pending, Delete(t.pending, r.id), {r.token});
  }

  /** The tokens of a part of the table are the table's, less those of the entries left out. */
  lemma TokensOfPart(p: seq<Request>, part: seq<Request>, gone: set<nat>)
    requires UniqueIds(p) && forall r :: r in p ==> r.id == IdOf(r.token)
    requires forall r :: r in part <==> r in p && r.token !in gone
    ensures Tokens(part) == Tokens(p) - gone
  {
    forall k | k in Tokens(p) - gone
      ensures k in Tokens(part)
    {
      var x :| x in p && x.token == k;
      assert x in part;
    }
  }

  lemma {:induction false} RejectPromises(t: Transport, entries: seq<Request>, node: Option<Identity>, o: Outcome)
    requires Promised(t) && UniqueIds(entries) && forall r :: r in entries ==> r in t.pending
    ensures Promised(Reject(t, entries, node, o))
    decreases |entries|
  {
    if entries != [] {
      var r, rest := entries[0], entries[1..];
      assert forall x :: x in rest ==> x in entries && x.id != r.id;
      if Hit(r, node) {
        assert r.token in Tokens(t.pending);
        SettlePromises(t, r.token, o);
        DeleteAny(t.pending, r.id);
        RejectPromises(Settle(t, r.id, r.token, o), rest, node, o);
      } else {
        RejectPromises(t, rest, node, o);
      }
    }
  }

  /** Whatever is hit has settled. */
  lemma {:induction false} RejectSettles(t: Transport, entries: seq<Request>, node: Option<Identity>, o: Outcome)
    ensures forall r :: r in entries && Hit(r, node) ==> r.token in SettledTokens(Reject(t, entries, node, o).settled)
    decreases |entries|
  {
    if entries != [] {
      var r, rest := entries[0], entries[1..];
      var t1 := if Hit(r, node) then Settle(t, r.id, r.token, o) else t;
      assert entries == [r] + rest;
      RejectSettles(t1, rest, node, o);
      RejectFrame(t1, rest, node, o);
      assert Hit(r, node) ==> t1.settled[|t.settled|] == Settlement(r.token, o);
    }
  }

  /** Rejecting entries of the table keeps the accounts. */
  lemma {:induction false} RejectAccounts(t: Transport, entries: seq<Request>, node: Option<Identity>, o: Outcome)
    requires Accounted(t) && UniqueIds(entries) && forall r :: r in entries ==> r in t.pending
    ensures Accounted(Reject(t, entries, node, o))
    decreases |entries|
  {
    if entries != [] {
      var r, rest := entries[0], entries[1..];
      assert forall x :: x in rest ==> x in entries && x.id != r.id;
      if Hit(r, node) {
        SettleAccounts(t, r, o);
        DeleteOne(t.pending, r);
        RejectAccounts(Settle(t, r.id, r.token, o), rest, node, o);
      } else {
        RejectAccounts(t, rest, node, o);
      }
    }
  }

  /** Rejecting takes exactly the entries hit. */
  lemma {:induction false} RejectTakes(t: Transport, entries: seq<Request>, node: Option<Identity>, o: Outcome)
    requires UniqueIds(t.pending) && UniqueIds(entries) && forall r :: r in entries ==> r in t.pending
    ensures forall r :: r in Reject(t, entries, node, o).pending <==> r in t.pending && !(r in entries && Hit(r, node))
    decreases |entries|
  {
    if entries != [] {
      var r, rest := entries[0], entries[1..];
      assert entries == [r] + rest;
      assert forall x :: x in rest ==> x.id != r.id;
      if Hit(r, node) {
        DeleteOne(t.pending, r);
        RejectTakes(Settle(t, r.id, r.token, o), rest, node, o);
      } else {
        RejectTakes(t, rest, node, o);
      }
    }
  }

  /** Rejecting touches only the table and its accounts. */
  lemma {:induction false} RejectFrame(t: Transport, entries: seq<Request>, node: Option<Identity>, o: Outcome)
    ensures var t' := Reject(t, entries, node, o);
      && t' == t.(pending := t'.pending, armed := t'.armed, settled := t'.settled)
      && t.settled <= t'.settled
    decreases |entries|
  {
    if entries != [] {
      var r := entries[0];
      RejectFrame(if Hit(r, node) then Settle(t, r.id, r.token, o) else t, entries[1..], node, o);
    }
  }

  lemma StopPromises(t: Transport)
    requires Promised(t)
    ensures Promised(Stop(t)) && forall r :: r in t.pending ==> r.token in SettledTokens(Stop(t).settled)
  {
    RejectPromises(t, t.pending, None, Stopped);
    RejectSettles(t, t.pending, None, Stopped);
    RejectFrame(t, t.pending, None, Stopped);
  }

  lemma StopAccounts(t: Transport)
    requires Accounted(t)
    ensures Accounted(Stop(t)) && Stop(t).armed == {}
    ensures forall k: nat :: k < t.issued ==> k in SettledTokens(Stop(t).settled)
  {
    var left := Reject(t, t.pending, None, Stopped).pending;
    assert left != [] ==> left[0] in left;
    RejectAccounts(t, t.pending, None, Stopped);
    RejectTakes(t, t.pending, None, Stopped);
    RejectFrame(t, t.pending, None, Stopped);
  }

  lemma NextIdFollows(k: nat)
    ensures NextId(IdOf(k)) == IdOf(k + 1)
  {
    var m: int := MAX_REQ_ID;
    var q, r := k / m, k % m;
    assert k == m * q + r;
    if r + 1 < m {
      RemainderIs(k + 1, q, r + 1, m);
    } else {
      assert k + 1 == m * (q + 1) + 0;
      RemainderIs(k + 1, q + 1, 0, m);
    }
  }

  lemma RemainderIs(k: int, q: int, r: int, m: int)
    requires m > 0 && 0 <= r < m && k == m * q + r
    ensures k % m == r
  {
    var d := k / m;
    assert k == m * d + k % m;
    assert k % m - r == m * (q - d);
    SmallMultiple(k % m - r, q - d, m);
  }

  /** An accepted request, before the socket is tried. */
  function Issue(t: Transport, node: Identity): Transport {
    t.(nextId := NextId(t.nextId),
       issued := t.issued + 1,
       pending := Put(t.pending, Request(t.nextId, node, t.issued)),
       armed := t.armed + {t.issued})
  }

  lemma IssuePuts(t: Transport, node: Identity)
    requires UniqueIds(t.pending) && NoCollision(t)
    ensures var r := Request(t.nextId, node, t.issued);
      && Issue(t, node).pending == t.pending + [r] && UniqueIds(t.pending + [r])
      && Tokens(t.pending + [r]) == Tokens(t.pending) + {t.issued}
  {
    PutFresh(t.pending, Request(t.nextId, node, t.issued));
  }

  /** An accepted request is promised, even when it takes the place of another. */
  lemma SendPromises(t: Transport, node: Identity, open: set<ConnId>, throws: bool)
    requires Promised(t)
    ensures Promised(Send(t, node, open, throws))
  {
    if Reachable(t, node, open) {
      NextIdFollows(t.issued);
      PutAny(t.pending, Request(t.nextId, node, t.issued));
      assert t.issued !in t.armed && t.issued !in SettledTokens(t.settled);
      assert Promised(Issue(t, node));
      if throws { SettlePromises(Issue(t, node), t.issued, SendFailed); }
    }
  }

  /** A send adds at most the one request to the table, and touches nothing else but the accounts. */
  lemma SendFrame(t: Transport, node: Identity, open: set<ConnId>, throws: bool)
    requires UniqueIds(t.pending)
    ensures var t' := Send(t, node, open, throws);
      && (forall r :: r in t'.pending ==> r in t.pending || (r.node == node && node in t.connOf))
      && t'.connOf == t.connOf && t'.nodeOf == t.nodeOf && t'.log == t.log && t'.reportBound == t.reportBound
  {
    var r := Request(t.nextId, node, t.issued);
    PutAny(t.pending, r);
    DeleteAny(Put(t.pending, r), r.id);
  }

  /** An accepted request is accounted for. */
  lemma IssueAccounts(t: Transport, node: Identity)
    requires Accounted(t) && NoCollision(t)
    ensures Accounted(Issue(t, node)) && Request(t.nextId, node, t.issued) in Issue(t, node).pending
  {
    NextIdFollows(t.issued);
    IssuePuts(t, node);
    assert t.issued !in t.armed && t.issued !in SettledTokens(t.settled);
  }

  /**
   The accounts survive an accepted send exactly when the next id is free: an overwritten
   request is lost to the table.
  */
  lemma SendAccountsIff(t: Transport, node: Identity, open: set<ConnId>, throws: bool)
    requires Accounted(t) && Reachable(t, node, open)
    ensures Accounted(Send(t, node, open, throws)) <==> NoCollision(t)
  {
    var r := Request(t.nextId, node, t.issued);
    if NoCollision(t) {
      IssueAccounts(t, node);
      if throws {
        SettleAccounts(Send(t, node, open, false), r, SendFailed);
      }
    } else {
      var x :| x in t.pending && x.id == t.nextId;
      PutAny(t.pending, r);
      var t' := Send(t, node, open, throws);
      assert x.token in t.armed && x.token != t.issued by {
        assert x.token in Tokens(t.pending) && x.token < t.issued;
      }
      assert x.token in t'.armed;
      assert x.token !in Tokens(t'.pending) by {
        if x.token in Tokens(t'.pending) {
          var y :| y in t'.pending && y.token == x.token;
          DeleteAny(Put(t.pending, r), r.id);
          TokenIsUnique(t.pending, x, y);
        }
      }
    }
  }

  lemma TimeoutAccounts(t: Transport, token: nat)
    requires Accounted(t)
    ensures Accounted(Timeout(t, token))
    ensures token in t.armed ==> Settlement(token, TimedOut) in Timeout(t, token).settled
  {
    if token in t.armed {
      var r :| r in t.pending && r.token == token;
      SettleAccounts(t, r, TimedOut);
    }
  }

  lemma ResponseAccounts(t: Transport, id: nat, ok: bool)
    requires Accounted(t)
    ensures Accounted(Response(t, id, ok))
  {
    LookupFinds(t.pending, id);
    if Lookup(t.pending, id).Some? {
      SettleAccounts(t, Lookup(t.pending, id).value, if ok then Resolved else RemoteError);
    }
  }

  lemma TimeoutPromises(t: Transport, token: nat)
    requires Promised(t)
    ensures Promised(Timeout(t, token))
    ensures token in t.armed ==> Settlement(token, TimedOut) in Timeout(t, token).settled
  {
    if token in t.armed { SettlePromises(t, token, TimedOut); }
  }

  lemma ResponsePromises(t: Transport, id: nat, ok: bool)
    requires Promised(t)
    ensures Promised(Response(t, id, ok))
  {
    LookupFinds(t.pending, id);
    var found := Lookup(t.pending, id);
    if found.Some? {
      assert found.value.token in Tokens(t.pending);
      SettlePromises(t, found.value.token, if ok then Resolved else RemoteError);
    }
  }

  // ----- Whose requests settle, and as what -----

  /** Exactly these entries of the table have been taken out and settled, each with this outcome. */
  ghost predicate Took(t: Transport, t': Transport, hit: Request -> bool, o: Outcome) {
    && (forall r :: r in t'.pending <==> r in t.pending && !hit(r))
    && t.settled <= t'.settled
    && (forall x :: x in t'.settled[|t.settled|..] <==>
          exists r :: r in t.pending && hit(r) && x == Settlement(r.token, o))
  }

  lemma {:induction false} RejectOutcomes(t: Transport, entries: seq<Request>, node: Option<Identity>, o: Outcome)
    ensures
      var t' := Reject(t, entries, node, o);
      && t.settled <= t'.settled
      && (forall x :: x in t'.settled[|t.settled|..] <==>
            exists r :: r in entries && Hit(r, node) && x == Settlement(r.token, o))
    decreases |entries|
  {
    if entries != [] {
      var r, rest := entries[0], entries[1..];
      assert entries == [r] + rest;
      var t1 := if Hit(r, node) then Settle(t, r.id, r.token, o) else t;
      var t' := Reject(t1, rest, node, o);
      RejectOutcomes(t1, rest, node, o);
      if Hit(r, node) {
        assert t'.settled[|t.settled|..] == [Settlement(r.token, o)] + t'.settled[|t1.settled|..];
      }
    }
  }

  lemma RejectTook(t: Transport, node: Option<Identity>, o: Outcome)
    requires UniqueIds(t.pending)
    ensures Took(t, Reject(t, t.pending, node, o), (r: Request) => Hit(r, node), o)
  {
    RejectTakes(t, t.pending, node, o);
    RejectOutcomes(t, t.pending, node, o);
  }

  /**
   The close of an identity's current connection rejects what is outstanding to that identity,
   as a death, and leaves what is outstanding to anyone else; the close of any other rejects nothing.
  */
  lemma DeathTakesItsOwn(t: Transport, conn: ConnId)
    requires UniqueIds(t.pending)
    ensures
      var current := conn in t.nodeOf && t.nodeOf[conn] in t.connOf && t.connOf[t.nodeOf[conn]] == conn;
      Took(t, ConnClosed(t, conn), (r: Request) => current && r.node == t.nodeOf[conn], PeerDied)
  {
    if IsCurrent(t, conn) {
      var t1 := t.(log := t.log + [Died(t.nodeOf[conn], conn)]);
      RejectTook(t1, Some(t.nodeOf[conn]), PeerDied);
    }
  }

  /** Superseding an identity rejects what is outstanding to it, as that, and touches nothing else. */
  lemma SupersedeTakesItsOwn(t: Transport, node: Identity)
    requires UniqueIds(t.pending)
    ensures
      var t' := Supersede(t, node);
      && Took(t, t', (r: Request) => r.node == node, Superseded)
      && t'.connOf == t.connOf && t'.nodeOf == t.nodeOf && t'.log == t.log && t'.started == t.started
      && t'.nextId == t.nextId && t'.issued == t.issued
  {
    RejectTook(t, Some(node), Superseded);
    RejectFrame(t, t.pending, Some(node), Superseded);
  }

  /** A stop rejects everything, as that, leaves the bindings, and no peer can be reached after it. */
  lemma StopTakesAll(t: Transport, node: Identity, open: set<ConnId>)
    requires UniqueIds(t.pending)
    ensures
      var t' := Stop(t);
      && Took(t, t', (r: Request) => true, Stopped)
      && t'.connOf == t.connOf && t'.nodeOf == t.nodeOf && t'.log == t.log && !Reachable(t', node, open)
  {
    RejectTook(t, None, Stopped);
    RejectFrame(t, t.pending, None, Stopped);
  }

  /**
   A send goes out exactly when the transport runs and the identity's connection is open. Then
   one more request is issued, under the next id; if the socket throws it settles at once as
   that, and otherwise it is outstanding to that identity. Requests under other ids are not touched.
  */
  lemma SendDoes(t: Transport, node: Identity, open: set<ConnId>, throws: bool)
    requires UniqueIds(t.pending)
    ensures
      var t', r := Send(t, node, open, throws), Request(t.nextId, node, t.issued);
      var goes := t.started && node in t.connOf && t.connOf[node] in open;
      && (!goes ==> t' == t)
      && (goes ==> t'.issued == t.issued + 1)
      && t'.settled == t.settled + (if goes && throws then [Settlement(t.issued, SendFailed)] else [])
      && (goes && throws ==> forall x :: x in t'.pending <==> x in t.pending && x.id != t.nextId)
      && (goes && !throws ==> forall x :: x in t'.pending <==> x == r || (x in t.pending && x.id != t.nextId))
  {
    if Reachable(t, node, open) {
      var r := Request(t.nextId, node, t.issued);
      PutAny(t.pending, r);
      DeleteAny(Put(t.pending, r), r.id);
    }
  }

  /** A timer takes what is under its request's id; one already cleared does nothing. */
  lemma TimerDoes(t: Transport, token: nat)
    requires UniqueIds(t.pending)
    ensures
      var t' := Timeout(t, token);
      && (token !in t.armed ==> t' == t)
      && (token in t.armed ==>
            && t'.settled == t.settled + [Settlement(token, TimedOut)] && t'.armed == t.armed - {token}
            && forall x :: x in t'.pending <==> x in t.pending && x.id != IdOf(token))
  {
    DeleteAny(t.pending, IdOf(token));
  }

  /** A response settles the one entry under its id, and no other; without one it does nothing. */
  lemma ResponseDoes(t: Transport, id: nat, ok: bool)
    requires UniqueIds(t.pending)
    ensures (forall r :: r in t.pending ==> r.id != id) ==> Response(t, id, ok) == t
    ensures forall r :: r in t.pending && r.id == id ==>
      var t' := Response(t, id, ok);
      && t'.settled == t.settled + [Settlement(r.token, if ok then Resolved else RemoteError)]
      && forall x :: x in t'.pending <==> x in t.pending && x != r
  {
    LookupFinds(t.pending, id);
    forall r | r in t.pending && r.id == id
      ensures
        var t' := Response(t, id, ok);
        && t'.settled == t.settled + [Settlement(r.token, if ok then Resolved else RemoteError)]
        && forall x :: x in t'.pending <==> x in t.pending && x != r
    {
      DeleteOne(t.pending, r);
    }
  }

  // ----- Bindings and deaths -----

  /** Identity to connection is injective: it lies inside the inverse of connection to identity. */
  ghost predicate Coherent(t: Transport) {
    forall n :: n in t.connOf ==> t.connOf[n] in t.nodeOf && t.nodeOf[t.connOf[n]] == n
  }

  /** The latest bind or death of an identity. */
  ghost function LastNote(log: seq<Note>, node: Identity): Option<Note> {
    var k := |log| - 1;
    if log == [] then None
    else if log[k].node == node then Some(log[k])
    else LastNote(log[..k], node)
  }

  /** Every death of an identity ends the bind that last preceded it, on that same connection. */
  ghost predicate DeathsEndBinds(log: seq<Note>) {
    var k := |log| - 1;
    log != [] ==>
      && DeathsEndBinds(log[..k])
      && (log[k].Died? ==> LastNote(log[..k], log[k].node) == Some(Bound(log[k].node, log[k].conn)))
  }

  /** What the log says of who is bound. An armed door's log says it exactly. */
  ghost predicate Logged(t: Transport) {
    && DeathsEndBinds(t.log)
    && (forall n :: n in t.connOf ==> LastNote(t.log, n) == Some(Bound(n, t.connOf[n])))
    && (t.reportBound ==> forall n :: n !in t.connOf ==> LastNote(t.log, n).None? || LastNote(t.log, n).value.Died?)
  }

  /** With an armed door every outstanding request is to a bound identity. */
  ghost predicate Targeted(t: Transport) {
    t.reportBound ==> forall r :: r in t.pending ==> r.node in t.connOf
  }

  lemma LastNoteOf(log: seq<Note>, x: Note, n: Identity)
    ensures LastNote(log + [x], n) == if x.node == n then Some(x) else LastNote(log, n)
    ensures (log + [x])[..|log|] == log
  {
  }

  /** Two deaths of an identity always have a bind of it between them. */
  lemma {:induction false} BindBetweenDeaths(log: seq<Note>, i: nat, j: nat)
    requires DeathsEndBinds(log) && i < j < |log|
    requires log[i].Died? && log[j].Died? && log[i].node == log[j].node
    ensures exists k :: i < k < j && log[k] == Bound(log[j].node, log[j].conn)
    decreases |log|
  {
    var m := |log| - 1;
    if j < m {
      BindBetweenDeaths(log[..m], i, j);
      var k :| i < k < j && log[..m][k] == Bound(log[j].node, log[j].conn);
      assert log[k] == log[..m][k];
    } else {
      LastNoteAfter(log[..m], log[j].node, i);
    }
  }

  lemma {:induction false} LastNoteAfter(log: seq<Note>, n: Identity, i: nat)
    requires i < |log| && log[i].node == n
    ensures exists k :: i <= k < |log| && Some(log[k]) == LastNote(log, n)
  {
    var m := |log| - 1;
    if log[m].node != n {
      LastNoteAfter(log[..m], n, i);
      var k :| i <= k < |log[..m]| && Some(log[..m][k]) == LastNote(log[..m], n);
      assert log[k] == log[..m][k];
    } else {
      assert log[m] == log[m];
    }
  }

  lemma BindKeeps(t: Transport, node: Identity, conn: ConnId)
    requires Coherent(t) && Logged(t) && Targeted(t) && conn !in t.nodeOf
    ensures var t' := Bind(t, node, conn);
      Coherent(t') && Logged(t') && Targeted(t')
  {
    forall n
      ensures LastNote(t.log + [Bound(node, conn)], n) == if n == node then Some(Bound(node, conn))
          else LastNote(t.log, n)
    {
      LastNoteOf(t.log, Bound(node, conn), n);
    }
    assert (t.log + [Bound(node, conn)])[..|t.log|] == t.log;
  }

  lemma UnbindKeepsCoherent(t: Transport, conn: ConnId)
    requires Coherent(t)
    ensures Coherent(Unbind(t, conn))
  {
  }

  lemma CloseConnectionKeeps(t: Transport, node: Identity)
    requires Coherent(t) && Logged(t) && Targeted(t)
    ensures var t' := CloseConnection(t, node);
      Coherent(t') && Logged(t') && Targeted(t') && t'.log == t.log
  {
  }

  lemma ConnClosedKeeps(t: Transport, conn: ConnId)
    requires Coherent(t) && Logged(t) && Targeted(t) && UniqueIds(t.pending)
    ensures var t' := ConnClosed(t, conn);
      Coherent(t') && Logged(t') && Targeted(t') && conn !in t'.nodeOf
  {
    if IsCurrent(t, conn) {
      var node := t.nodeOf[conn];
      forall n
        ensures LastNote(t.log + [Died(node, conn)], n) == if n == node then Some(Died(node, conn))
            else LastNote(t.log, n)
      {
        LastNoteOf(t.log, Died(node, conn), n);
      }
      assert (t.log + [Died(node, conn)])[..|t.log|] == t.log;
      var t1 := t.(log := t.log + [Died(node, conn)]);
      RejectFrame(t1, t.pending, Some(node), PeerDied);
      RejectTakes(t1, t.pending, Some(node), PeerDied);
    }
  }

  /** A close reports a death exactly when it ends a bound interval; the close of a stale socket reports none. */
  lemma DeathEndsInterval(t: Transport, conn: ConnId)
    requires Coherent(t)
    ensures var t' := ConnClosed(t, conn);
      && (forall n :: t'.log == t.log + [Died(n, conn)] <==> n in t.connOf && n !in t'.connOf)
      && (t'.log == t.log <==> t'.connOf == t.connOf)
      && (forall n :: n in t'.connOf ==> n in t.connOf && t'.connOf[n] == t.connOf[n])
  {
    var t' := ConnClosed(t, conn);
    if IsCurrent(t, conn) {
      RejectFrame(t.(log := t.log + [Died(t.nodeOf[conn], conn)]), t.pending, Some(t.nodeOf[conn]), PeerDied);
      assert t'.log == t.log + [Died(t.nodeOf[conn], conn)];
      assert t'.log[|t.log|] == Died(t.nodeOf[conn], conn);
      forall n
        ensures t'.log == t.log + [Died(n, conn)] ==> n == t.nodeOf[conn]
      {
        assert (t.log + [Died(n, conn)])[|t.log|] == Died(n, conn);
      }
      assert t.nodeOf[conn] in t.connOf && t.nodeOf[conn] !in t'.connOf;
    } else {
      forall n
        ensures t.log != t.log + [Died(n, conn)]
      {
        assert |t.log + [Died(n, conn)]| == |t.log| + 1;
      }
    }
  }

  /** A bind makes the connection the identity's current one and moves no other identity. */
  lemma BindDoes(t: Transport, node: Identity, conn: ConnId, open: set<ConnId>)
    requires Coherent(t) && conn !in t.nodeOf
    ensures
      var t' := Bind(t, node, conn);
      && node in t'.connOf && t'.connOf[node] == conn && conn in t'.nodeOf && t'.nodeOf[conn] == node
      && t'.log == t.log + [Bound(node, conn)]
      && (Reachable(t', node, open) <==> t.started && conn in open)
      && (forall n :: n != node ==> (n in t'.connOf <==> n in t.connOf))
      && (forall n :: n != node && n in t.connOf ==> t'.connOf[n] == t.connOf[n])
      && t'.pending == t.pending && t'.settled == t.settled
  {
  }

  /** The kernel's own close unbinds that identity alone, and only at an unarmed door; its requests stay. */
  lemma KernelCloseDoes(t: Transport, node: Identity)
    requires Coherent(t)
    ensures
      var t' := CloseConnection(t, node);
      && (t.reportBound ==> t' == t)
      && (!t.reportBound ==> node !in t'.connOf)
      && (forall n :: n != node ==> (n in t'.connOf <==> n in t.connOf))
      && (forall n :: n != node && n in t.connOf ==> t'.connOf[n] == t.connOf[n])
      && t'.pending == t.pending && t'.settled == t.settled
  {
  }

  // ----- The class -----

  class WebSocketTransport {
    const reportBound: bool
    var started: bool
    var connOf: map<Identity, ConnId>
    var nodeOf: map<ConnId, Identity>
    var pending: seq<Request>
    var nextId: nat
    /** Numbers the promises handed out: the identity of an entry's resolve, reject and timer. */
    var issued: nat
    ghost var armed: set<nat>
    ghost var settled: seq<Settlement>
    ghost var log: seq<Note>

    ghost function Model(): Transport
      reads this
    {
      Transport(reportBound, started, connOf, nodeOf, pending, nextId, issued, armed, settled, log)
    }

    constructor (reportBound: bool)
      ensures Model() == Fresh(reportBound)
    {
      this.reportBound := reportBound;
      started, connOf, nodeOf, pending, nextId := false, map[], map[], [], 1;
      issued, armed, settled, log := 0, {}, [], [];
    }

    method Start()
      modifies this
      ensures Model() == old(Model()).(started := true)
    {
      started := true;
    }

    /**
     Returns the id of the request sent, or None for a peer that cannot be reached. `throws`
     says what the socket does.
    */
    method SendRequest(node: Identity, open: set<ConnId>, throws: bool) returns (id: Option<nat>)
      modifies this
      ensures Model() == Send(old(Model()), node, open, throws)
      ensures id == if Reachable(old(Model()), node, open) then Some(old(nextId)) else None
    {
      if !started {
        return None;
      }
      if node !in connOf || connOf[node] !in open {
        return None;
      }
      var reqId := nextId;
      var token := issued;
      nextId := if nextId >= MAX_REQ_ID then 1 else nextId + 1;
      issued := issued + 1;
      armed := armed + {token};
      pending := Put(pending, Request(reqId, node, token));
      if throws {
        pending := Delete(pending, reqId);
        armed := armed - {token};
        settled := settled + [Settlement(token, SendFailed)];
      }
      return Some(reqId);
    }

    /** The timer closure of the request numbered `token`, which captured `id`. */
    method OnTimeout(id: nat, ghost token: nat)
      requires token in armed && id == IdOf(token)
      modifies this
      ensures Model() == Timeout(old(Model()), token)
    {
      pending := Delete(pending, id);
      armed := armed - {token};
      settled := settled + [Settlement(token, TimedOut)];
    }

    method HandleResponse(id: nat, ok: bool)
      modifies this
      ensures Model() == Response(old(Model()), id, ok)
    {
      var found := Lookup(pending, id);
      if found.None? {
        return;
      }
      pending := Delete(pending, id);
      armed := armed - {found.value.token};
      settled := settled + [Settlement(found.value.token, if ok then Resolved else RemoteError)];
    }

    /** The loop of `supersedePeer`, `handleConnClosed` and `stop` over the table's entries. */
    method RejectPending(node: Option<Identity>, o: Outcome)
      modifies `pending, `armed, `settled
      ensures Model() == Reject(old(Model()), old(pending), node, o)
    {
      var entries := pending;
      assert entries[0..] == entries;
      for i := 0 to |entries|
        invariant Reject(Model(), entries[i..], node, o) == Reject(old(Model()), entries, node, o)
      {
        var r := entries[i];
        assert entries[i..][0] == r && entries[i..][1..] == entries[i + 1..];
        if node.None? || r.node == node.value {
          pending := Delete(pending, r.id);
          armed := armed - {r.token};
          settled := settled + [Settlement(r.token, o)];
        }
      }
    }

    method SupersedePeer(node: Identity)
      modifies this
      ensures Model() == Supersede(old(Model()), node)
    {
      RejectPending(Some(node), Superseded);
    }

    method StopTransport()
      modifies this
      ensures Model() == Stop(old(Model()))
    {
      RejectPending(None, Stopped);
      pending := [];
      started := false;
    }

    method BindPeer(node: Identity, conn: ConnId)
      modifies this
      ensures Model() == Bind(old(Model()), node, conn)
    {
      connOf := connOf[node := conn];
      nodeOf := nodeOf[conn := node];
      log := log + [Bound(node, conn)];
    }

    method UnbindPeer(conn: ConnId)
      modifies `connOf, `nodeOf
      ensures Model() == Unbind(old(Model()), conn)
    {
      if conn in nodeOf {
        var node := nodeOf[conn];
        if node in connOf && connOf[node] == conn {
          connOf := connOf - {node};
        }
      }
      nodeOf := nodeOf - {conn};
    }

    method CloseChannel(node: Identity)
      modifies this
      ensures Model() == CloseConnection(old(Model()), node)
    {
      if node !in connOf {
        return;
      }
      if reportBound {
        return;
      }
      UnbindPeer(connOf[node]);
    }

    method HandleConnClosed(conn: ConnId)
      modifies this
      ensures Model() == ConnClosed(old(Model()), conn)
    {
      if conn in nodeOf {
        var node := nodeOf[conn];
        if node in connOf && connOf[node] == conn {
          log := log + [Died(node, conn)];
          RejectPending(Some(node), PeerDied);
        }
      }
      UnbindPeer(conn);
    }
  }
}
