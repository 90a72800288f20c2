/** The K synaptome peers nearest a target: the `find_closest_set` handler (src/bridge_axona_node.js). */
module TopK {
  import opened Collections

  // ----- Distance -----

  /** Exclusive or, bit by bit. */
  function Xor(a: nat, b: nat): nat
    decreases a + b
  {
    if a == 0 && b == 0 then 0 else 2 * Xor(a / 2, b / 2) + (a % 2 + b % 2) % 2
  }

  /** A BigInt target may be negative: then the bits of its complement, complemented back. */
  function Distance(id: nat, target: int): int {
    if target >= 0 then Xor(id, target) else -1 - Xor(id, -1 - target)
  }

  lemma XorBits(a: nat, b: nat)
    ensures Xor(a, b) / 2 == Xor(a / 2, b / 2) && Xor(a, b) % 2 == (a % 2 + b % 2) % 2
  {
  }

  lemma SameBits(a: nat, b: nat, x: nat, y: nat)
    requires y / 2 == a / 2 && y % 2 == (x % 2 + b % 2) % 2 && x % 2 == (a % 2 + b % 2) % 2
    ensures y == a
  {
    assert y % 2 == a % 2;
  }

  lemma {:induction false} XorUndoes(a: nat, b: nat, x: nat)
    requires x == Xor(a, b)
    ensures Xor(x, b) == a
    decreases a + b
  {
    if a != 0 || b != 0 {
      XorBits(a, b);
      XorUndoes(a / 2, b / 2, x / 2);
      XorBits(x, b);
      SameBits(a, b, x, Xor(x, b));
    }
  }

  /** Two ids are never equally far from a target. */
  lemma DistanceSeparates(a: nat, b: nat, target: int)
    ensures Distance(a, target) == Distance(b, target) <==> a == b
  {
    var t := if target >= 0 then target else -1 - target;
    XorUndoes(a, t, Xor(a, t));
    XorUndoes(b, t, Xor(b, t));
  }

  // ----- What nearness is -----

  /** The number without its last j bits; a negative one has ones all the way up. */
  function Shifted(x: int, j: nat): int
    decreases j
  {
    if j == 0 then x else Shifted(x / 2, j - 1)
  }

  predicate SameBit(x: int, y: int, j: nat) {
    Shifted(x, j) % 2 == Shifted(y, j) % 2
  }

  /** The two ids agree above bit j and differ in it, and there `a` has the target's bit. */
  predicate NearerAt(a: nat, b: nat, target: int, j: nat) {
    Shifted(a / 2, j) == Shifted(b / 2, j) && !SameBit(a, b, j) && SameBit(a, target, j)
  }

  /** At the highest bit where the two ids differ, `a` has the target's. */
  ghost predicate Nearer(a: nat, b: nat, target: int) {
    exists j: nat :: NearerAt(a, b, target, j)
  }

  lemma DistanceHalves(id: nat, target: int)
    ensures Distance(id, target) / 2 == Distance(id / 2, target / 2)
    ensures Distance(id, target) % 2 == (id % 2 + target % 2) % 2
  {
    XorBits(id, if target >= 0 then target else -1 - target);
    assert target < 0 ==> (-1 - target) / 2 == -1 - target / 2;
  }

  lemma OneBitOn(a: nat, b: nat, target: int, j: nat)
    ensures NearerAt(a, b, target, j + 1) <==> NearerAt(a / 2, b / 2, target / 2, j)
  {
  }

  lemma NearerHalves(a: nat, b: nat, target: int)
    ensures Nearer(a, b, target) <==> NearerAt(a, b, target, 0) || Nearer(a / 2, b / 2, target / 2)
  {
    if j: nat :| NearerAt(a / 2, b / 2, target / 2, j) {
      var i := j + 1;
      OneBitOn(a, b, target, j);
      assert NearerAt(a, b, target, i);
    }
    if j: nat :| NearerAt(a, b, target, j) {
      if j > 0 { OneBitOn(a, b, target, j - 1); }
    }
  }

  lemma NothingNearer(a: nat, target: int)
    ensures !Nearer(a, a, target)
  {
  }

  lemma LowestBit(a: nat, b: nat, target: int)
    ensures NearerAt(a, b, target, 0) <==> a / 2 == b / 2 && a % 2 != b % 2 && a % 2 == target % 2
    ensures a / 2 == b / 2 ==> !Nearer(a / 2, b / 2, target / 2)
  {
    if a / 2 == b / 2 { NothingNearer(a / 2, target / 2); }
  }

  lemma HalvesOrder(x: int, y: int)
    ensures x < y <==> x / 2 < y / 2 || (x / 2 == y / 2 && x % 2 < y % 2)
  {
  }

  /** The distance orders ids by that: whichever has the target's bit where they first differ, sign included. */
  lemma {:induction false} NearerIff(a: nat, b: nat, target: int)
    ensures Distance(a, target) < Distance(b, target) <==> Nearer(a, b, target)
    decreases a + b
  {
    if a == b {
      NothingNearer(a, target);
    } else {
      DistanceHalves(a, target);
      DistanceHalves(b, target);
      DistanceSeparates(a / 2, b / 2, target / 2);
      NearerHalves(a, b, target);
      NearerIff(a / 2, b / 2, target / 2);
      LowestBit(a, b, target);
      HalvesOrder(Distance(a, target), Distance(b, target));
    }
  }

  lemma {:induction false} OwnDistance(a: nat)
    ensures Distance(a, a) == 0
  {
    if a > 0 { OwnDistance(a / 2); }
  }

  /** An id that shares the target's leading bits is nearer than one that does not. */
  lemma {:induction false} PrefixIsNearer(a: nat, b: nat, target: nat, j: nat)
    requires Shifted(a, j) == Shifted(target, j) && Shifted(b, j) != Shifted(target, j)
    ensures Distance(a, target) < Distance(b, target)
    decreases j
  {
    if j == 0 {
      OwnDistance(target);
      DistanceSeparates(a, b, target);
    } else {
      PrefixIsNearer(a / 2, b / 2, target / 2, j - 1);
      DistanceHalves(a, target);
      DistanceHalves(b, target);
    }
  }

  // ----- Sort and take -----

  /** `top[i]`: a peer and how far it is. */
  datatype Near = Near(peerId: nat, d: int)

  /** Into its place, before the first that is not nearer. */
  function Insert(s: seq<Near>, e: Near): (r: seq<Near>)
    ensures |r| == |s| + 1
  {
    if s == [] || !(s[0].d < e.d) then [e] + s else [s[0]] + Insert(s[1..], e)
  }

  function Nearest(ids: seq<nat>, target: int): (r: seq<Near>)
    ensures |r| == |ids|
  {
    if ids == [] then []
    else
      var n := |ids| - 1;
      Insert(Nearest(ids[..n], target), Near(ids[n], Distance(ids[n], target)))
  }

  function Take(s: seq<Near>, k: nat): seq<Near> {
    if |s| > k then s[..k] else s
  }

  ghost predicate Ascending(s: seq<Near>) {
    forall i, j :: 0 <= i < j < |s| ==> s[i].d < s[j].d
  }

  lemma {:induction false} InsertMembers(s: seq<Near>, e: Near)
    ensures forall x :: x in Insert(s, e) <==> x in s || x == e
  {
    if s != [] && s[0].d < e.d {
      InsertMembers(s[1..], e);
      assert s == [s[0]] + s[1..];
    }
  }

  lemma {:induction false} InsertAscends(s: seq<Near>, e: Near)
    requires Ascending(s) && forall x :: x in s ==> x.d != e.d
    ensures Ascending(Insert(s, e))
  {
    var r := Insert(s, e);
    if s != [] && s[0].d < e.d {
      InsertAscends(s[1..], e);
      InsertMembers(s[1..], e);
      forall i | 0 < i < |r|
        ensures s[0].d < r[i].d
      {
        assert r[i] in Insert(s[1..], e);
      }
    } else {
      assert s != [] ==> s[0] in s;
      assert forall i :: 0 < i < |r| ==> r[i] == s[i - 1];
    }
  }

  lemma {:induction false} NearestIsSorted(ids: seq<nat>, target: int)
    requires Distinct(ids)
    ensures Ascending(Nearest(ids, target))
    ensures forall x :: x in Nearest(ids, target) <==> x.peerId in ids && x.d == Distance(x.peerId, target)
  {
    if ids != [] {
      var n := |ids| - 1;
      NearestIsSorted(ids[..n], target);
      var e := Near(ids[n], Distance(ids[n], target));
      var s := Nearest(ids[..n], target);
      forall x | x in s
        ensures x.d != e.d
      {
        DistanceSeparates(x.peerId, ids[n], target);
      }
      InsertMembers(s, e);
      InsertAscends(s, e);
      assert ids == ids[..n] + [ids[n]];
    }
  }

  // ----- Keeping only K on the way -----

  /** Where the splice goes. */
  lemma {:induction false} InsertAt(s: seq<Near>, e: Near, i: nat)
    requires i <= |s| && (forall j :: 0 <= j < i ==> s[j].d < e.d) && (i < |s| ==> s[i].d >= e.d)
    ensures Insert(s, e) == s[..i] + [e] + s[i..]
  {
    if i > 0 {
      InsertAt(s[1..], e, i - 1);
      assert s[..i] == [s[0]] + s[1..][..i - 1];
      assert s[i..] == s[1..][i - 1..];
    }
  }

  /** Cutting to K before inserting loses nothing that cutting after would keep. */
  lemma {:induction false} TakeInsert(s: seq<Near>, e: Near, k: nat)
    ensures Take(Insert(Take(s, k), e), k) == Take(Insert(s, e), k)
  {
    if k == 0 {
    } else if s != [] && s[0].d < e.d {
      TakeInsert(s[1..], e, k - 1);
      assert Take(s, k) == [s[0]] + Take(s[1..], k - 1);
      assert Take(s, k)[1..] == Take(s[1..], k - 1);
    }
  }

  /** Farther than the K-th: not among the K nearest. */
  lemma {:induction false} TooFar(s: seq<Near>, e: Near, k: nat)
    requires k <= |s| && forall i :: 0 <= i < k ==> s[i].d < e.d
    ensures Take(Insert(s, e), k) == Take(s, k)
  {
    if k > 0 {
      TooFar(s[1..], e, k - 1);
      assert Take(Insert(s, e), k) == [s[0]] + Take(Insert(s[1..], e), k - 1);
      assert Take(s, k) == [s[0]] + Take(s[1..], k - 1);
    }
  }

  function Ids(s: seq<Near>): (r: seq<nat>)
    ensures |r| == |s| && forall i :: 0 <= i < |s| ==> r[i] == s[i].peerId
  {
    seq(|s|, i requires 0 <= i < |s| => s[i].peerId)
  }

  // ----- The handler -----

  /** The insertion both branches share. */
  method Splice(top: seq<Near>, e: Near) returns (r: seq<Near>)
    ensures r == Insert(top, e)
  {
    var i := 0;
    while i < |top| && top[i].d < e.d
      invariant 0 <= i <= |top|
      invariant forall j :: 0 <= j < i ==> top[j].d < e.d
    {
      i := i + 1;
    }
    InsertAt(top, e, i);
    r := top[..i] + [e] + top[i..];
  }

  /** None is the TypeError of reading `top[K - 1].d` when K is not positive. */
  method FindClosestSet(synaptome: seq<nat>, target: int, k: int) returns (r: Option<seq<nat>>)
    requires Distinct(synaptome)
    ensures r.None? <==> k <= 0 && synaptome != []
    ensures r.Some? ==> r.value == Ids(Take(Nearest(synaptome, target), if k > 0 then k else 0))
    ensures r.Some? ==> IsAnswer(synaptome, target, if k > 0 then k else 0, r.value)
  {
    var top: seq<Near> := [];
    if synaptome == [] {
      return Some([]);
    }
    if k <= 0 {
      return None;
    }
    var n := 0;
    while n < |synaptome|
      invariant 0 <= n <= |synaptome|
      invariant top == Take(Nearest(synaptome[..n], target), k)
    {
      var e := Near(synaptome[n], Distance(synaptome[n], target));
      NextNearest(synaptome, target, n, k);
      if |top| < k {
        top := Splice(top, e);
      } else if e.d < top[k - 1].d {
        top := Splice(top, e);
        top := top[..|top| - 1];
      }
      n := n + 1;
    }
    assert synaptome[..n] == synaptome;
    r := Some(Ids(top));
    AnswerIsNearest(synaptome, target, k);
  }

  /** What one more id does to the K nearest so far. */
  lemma NextNearest(ids: seq<nat>, target: int, n: nat, k: nat)
    requires Distinct(ids) && n < |ids| && k > 0
    ensures
      var s, e := Nearest(ids[..n], target), Near(ids[n], Distance(ids[n], target));
      && Take(Nearest(ids[..n + 1], target), k) == Take(Insert(Take(s, k), e), k)
      && (|s| >= k && e.d >= Take(s, k)[k - 1].d ==> Take(Nearest(ids[..n + 1], target), k) == Take(s, k))
  {
    assert ids[..n + 1][..n] == ids[..n];
    var s, e := Nearest(ids[..n], target), Near(ids[n], Distance(ids[n], target));
    TakeInsert(s, e, k);
    if |s| >= k && e.d >= s[k - 1].d {
      AllNearer(ids, target, n, k);
      TooFar(s, e, k);
    }
  }

  lemma AllNearer(ids: seq<nat>, target: int, n: nat, k: nat)
    requires Distinct(ids) && n < |ids| && 0 < k <= n
    requires Distance(ids[n], target) >= Nearest(ids[..n], target)[k - 1].d
    ensures forall i :: 0 <= i < k ==> Nearest(ids[..n], target)[i].d < Distance(ids[n], target)
  {
    var s := Nearest(ids[..n], target);
    NearestIsSorted(ids[..n], target);
    assert s[k - 1] in s;
    DistanceSeparates(s[k - 1].peerId, ids[n], target);
  }

  // ----- What it answers -----

  ghost predicate IsAnswer(synaptome: seq<nat>, target: int, k: nat, r: seq<nat>) {
    && |r| == Min(k, |synaptome|)
    && (forall i :: 0 <= i < |r| ==> r[i] in synaptome)
    && (forall i, j :: 0 <= i < j < |r| ==> Nearer(r[i], r[j], target))
    && (forall i, id :: 0 <= i < |r| && id in synaptome && id !in r ==> Nearer(r[i], id, target))
  }

  /** Exactly the nearest, in ascending distance. */
  lemma AnswerIsNearest(synaptome: seq<nat>, target: int, k: nat)
    requires Distinct(synaptome)
    ensures IsAnswer(synaptome, target, k, Ids(Take(Nearest(synaptome, target), k)))
  {
    NearestIsSorted(synaptome, target);
    var s := Nearest(synaptome, target);
    var r := Ids(Take(s, k));
    forall i | 0 <= i < |r|
      ensures r[i] == s[i].peerId && s[i].d == Distance(r[i], target) && r[i] in synaptome
    {
      assert s[i] in s;
    }
    forall i, j | 0 <= i < j < |r|
      ensures Nearer(r[i], r[j], target)
    {
      NearerIff(r[i], r[j], target);
    }
    forall i, id | 0 <= i < |r| && id in synaptome && id !in r
      ensures Nearer(r[i], id, target)
    {
      NearerIff(r[i], id, target);
      assert Near(id, Distance(id, target)) in s;
      var j :| 0 <= j < |s| && s[j] == Near(id, Distance(id, target));
      assert i < j;
    }
  }

  /** There is only one such answer. */
  lemma {:induction false} AnswerIsUnique(synaptome: seq<nat>, target: int, k: nat, r: seq<nat>, q: seq<nat>)
    requires IsAnswer(synaptome, target, k, r) && IsAnswer(synaptome, target, k, q)
    ensures r == q
  {
    forall i | 0 <= i < |r|
      ensures r[i] == q[i]
    {
      SamePlace(synaptome, target, k, r, q, i);
    }
  }

  lemma {:induction false} SamePlace(synaptome: seq<nat>, target: int, k: nat, r: seq<nat>, q: seq<nat>, i: nat)
    requires IsAnswer(synaptome, target, k, r) && IsAnswer(synaptome, target, k, q) && i < |r|
    ensures r[i] == q[i]
  {
    forall j | 0 <= j < i
      ensures r[j] == q[j]
    {
      SamePlace(synaptome, target, k, r, q, j);
    }
    NotNearer(synaptome, target, k, r, q, i);
    NotNearer(synaptome, target, k, q, r, i);
    DistanceSeparates(r[i], q[i], target);
  }

  lemma NotNearer(synaptome: seq<nat>, target: int, k: nat, r: seq<nat>, q: seq<nat>, i: nat)
    requires IsAnswer(synaptome, target, k, r) && IsAnswer(synaptome, target, k, q) && i < |r|
    requires forall j :: 0 <= j < i ==> r[j] == q[j]
    ensures Distance(q[i], target) <= Distance(r[i], target)
  {
    NearerIff(q[i], r[i], target);
    if r[i] in q {
      var j :| 0 <= j < |q| && q[j] == r[i];
    }
  }
}
