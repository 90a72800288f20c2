/** The two cooldown scopes after a make-room retire, kept in lazily pruned maps (src/socket_bootstrap.js). */
module RecentlyRetired {
  import opened Collections

  type Scope = map<string, int>

  datatype Mark = Mark(key: string, at: int)

  datatype Retired = Retired(cooldownMs: int, ids: Scope, conns: Scope, refusedIdentity: nat, refusedConn: nat)

  /** `_live`, the answer. */
  predicate Live(m: Scope, key: string, now: int, cooldown: int) {
    key in m && now - m[key] < cooldown
  }

  /** `_live`, the effect: an entry that has run out is dropped when it is asked for. */
  function Forget(m: Scope, key: string, now: int, cooldown: int): Scope {
    if key in m && !Live(m, key, now, cooldown) then m - {key} else m
  }

  /** `_bound`: once a map is large, everything that has run out goes. */
  function Bound(m: Scope, now: int, cooldown: int): Scope {
    if |m| > 1000 then map k | k in m && now - m[k] < cooldown :: m[k] else m
  }

  function Put(m: Scope, key: string, now: int): Scope {
    if key == "" then m else m[key := now]
  }

  function MarkIdentity(r: Retired, id: string, now: int): Retired {
    r.(ids := Bound(Put(r.ids, id, now), now, r.cooldownMs), conns := Bound(r.conns, now, r.cooldownMs))
  }

  function MarkConn(r: Retired, conn: string, now: int): Retired {
    r.(ids := Bound(r.ids, now, r.cooldownMs), conns := Bound(Put(r.conns, conn, now), now, r.cooldownMs))
  }

  function AskIdentity(r: Retired, id: string, now: int): Retired {
    r.(ids := Forget(r.ids, id, now, r.cooldownMs),
       refusedIdentity := r.refusedIdentity + if Live(r.ids, id, now, r.cooldownMs) then 1 else 0)
  }

  function AskConn(r: Retired, conn: string, now: int): Retired {
    r.(conns := Forget(r.conns, conn, now, r.cooldownMs),
       refusedConn := r.refusedConn + if Live(r.conns, conn, now, r.cooldownMs) then 1 else 0)
  }

  // ----- The unpruned history -----

  /** The moment a key was last marked. */
  ghost function LastMark(marks: seq<Mark>, key: string): Option<int> {
    var n := |marks| - 1;
    if marks == [] then None
    else if marks[n].key == key then Some(marks[n].at)
    else LastMark(marks[..n], key)
  }

  ghost predicate Clocked(marks: seq<Mark>, clock: int) {
    var n := |marks| - 1;
    marks != [] ==> marks[n].at <= clock && Clocked(marks[..n], marks[n].at)
  }

  /** The pruned map misses only what has run out. */
  ghost predicate Tracks(m: Scope, marks: seq<Mark>, clock: int, cooldown: int) {
    && Clocked(marks, clock)
    && forall k :: if k in m then LastMark(marks, k) == Some(m[k])
                   else LastMark(marks, k).None? || clock - LastMark(marks, k).value >= cooldown
  }

  /** Pruned or not, the answer is that of the whole history. */
  lemma AnswersExactly(m: Scope, marks: seq<Mark>, clock: int, cooldown: int, key: string, now: int)
    requires Tracks(m, marks, clock, cooldown) && clock <= now
    ensures Live(m, key, now, cooldown) <==> LastMark(marks, key).Some? && now - LastMark(marks, key).value < cooldown
  {
  }

  lemma Later(m: Scope, marks: seq<Mark>, clock: int, cooldown: int, now: int)
    requires Tracks(m, marks, clock, cooldown) && clock <= now
    ensures Tracks(m, marks, now, cooldown)
  {
  }

  lemma ForgetTracks(m: Scope, marks: seq<Mark>, clock: int, cooldown: int, key: string)
    requires Tracks(m, marks, clock, cooldown)
    ensures Tracks(Forget(m, key, clock, cooldown), marks, clock, cooldown)
  {
  }

  lemma BoundTracks(m: Scope, marks: seq<Mark>, clock: int, cooldown: int)
    requires Tracks(m, marks, clock, cooldown)
    ensures Tracks(Bound(m, clock, cooldown), marks, clock, cooldown)
  {
  }

  /** Asking forgets an entry that has run out and counts a refusal by one that has not; no other entry is touched. */
  lemma AskDoes(r: Retired, key: string, other: string, now: int)
    ensures
      var live := key in r.ids && now - r.ids[key] < r.cooldownMs;
      var q := AskIdentity(r, key, now);
      && (key in q.ids <==> live) && q.refusedIdentity == r.refusedIdentity + (if live then 1 else 0)
      && (other != key ==> (other in q.ids <==> other in r.ids) && (other in r.ids ==> q.ids[other] == r.ids[other]))
      && q.conns == r.conns && q.refusedConn == r.refusedConn
    ensures
      var live := key in r.conns && now - r.conns[key] < r.cooldownMs;
      var q := AskConn(r, key, now);
      && (key in q.conns <==> live) && q.refusedConn == r.refusedConn + (if live then 1 else 0)
      && (other != key ==>
            (other in q.conns <==> other in r.conns) && (other in r.conns ==> q.conns[other] == r.conns[other]))
      && q.ids == r.ids && q.refusedIdentity == r.refusedIdentity
  {
  }

  /** A sweep leaves a map of a thousand alone; of a larger one it takes exactly what has run out. */
  lemma BoundDoes(m: Scope, now: int, cooldown: int, key: string)
    ensures |m| <= 1000 ==> Bound(m, now, cooldown) == m
    ensures |m| > 1000 ==> (key in Bound(m, now, cooldown) <==> key in m && now - m[key] < cooldown)
    ensures key in Bound(m, now, cooldown) ==> key in m && Bound(m, now, cooldown)[key] == m[key]
  {
  }

  lemma PutTracks(m: Scope, marks: seq<Mark>, clock: int, cooldown: int, key: string)
    requires Tracks(m, marks, clock, cooldown) && key != ""
    ensures Tracks(m[key := clock], marks + [Mark(key, clock)], clock, cooldown)
  {
    assert (marks + [Mark(key, clock)])[..|marks|] == marks;
    forall k
      ensures LastMark(marks + [Mark(key, clock)], k) == if k == key then Some(clock) else LastMark(marks, k)
    {
    }
  }

  /** Every mark is at or before the last. */
  lemma {:induction false} LastIsLatest(marks: seq<Mark>, clock: int, i: nat)
    requires Clocked(marks, clock) && i < |marks|
    ensures LastMark(marks, marks[i].key).Some? && marks[i].at <= LastMark(marks, marks[i].key).value <= clock
  {
    var n := |marks| - 1;
    if i < n {
      LastIsLatest(marks[..n], marks[n].at, i);
      assert marks[..n][i] == marks[i];
    }
  }

  class RecentlyRetired {
    const cooldownMs: int
    var ids: Scope
    var conns: Scope
    var refusedIdentity: nat
    var refusedConn: nat

    function Model(): Retired
      reads this
    {
      Retired(cooldownMs, ids, conns, refusedIdentity, refusedConn)
    }

    constructor (cooldownMs: int)
      ensures Model() == Retired(cooldownMs, map[], map[], 0, 0)
    {
      this.cooldownMs := cooldownMs;
      ids, conns, refusedIdentity, refusedConn := map[], map[], 0, 0;
    }

    method DropExpired(m: Scope, now: int) returns (r: Scope)
      ensures r == Bound(m, now, cooldownMs)
    {
      r := m;
      if |m| > 1000 {
        var todo := m.Keys;
        while todo != {}
          invariant todo <= m.Keys
          invariant r == map k | k in m && (k in todo || now - m[k] < cooldownMs) :: m[k]
          decreases |todo|
        {
          var k :| k in todo;
          if now - m[k] >= cooldownMs {
            r := r - {k};
          }
          todo := todo - {k};
        }
      }
    }

    method MarkId(id: string, now: int)
      modifies this
      ensures Model() == MarkIdentity(old(Model()), id, now)
    {
      if id != "" {
        ids := ids[id := now];
      }
      ids := DropExpired(ids, now);
      conns := DropExpired(conns, now);
    }

    method MarkConnection(conn: string, now: int)
      modifies this
      ensures Model() == MarkConn(old(Model()), conn, now)
    {
      if conn != "" {
        conns := conns[conn := now];
      }
      ids := DropExpired(ids, now);
      conns := DropExpired(conns, now);
    }

    method HasIdentity(id: string, now: int) returns (live: bool)
      modifies this
      ensures Model() == AskIdentity(old(Model()), id, now) && live == Live(old(ids), id, now, cooldownMs)
    {
      live := id in ids && now - ids[id] < cooldownMs;
      if live {
        refusedIdentity := refusedIdentity + 1;
      } else {
        ids := ids - {id};
      }
    }

    method HasConn(conn: string, now: int) returns (live: bool)
      modifies this
      ensures Model() == AskConn(old(Model()), conn, now) && live == Live(old(conns), conn, now, cooldownMs)
    {
      live := conn in conns && now - conns[conn] < cooldownMs;
      if live {
        refusedConn := refusedConn + 1;
      } else {
        conns := conns - {conn};
      }
    }
  }
}
