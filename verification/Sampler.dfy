/** The partial Fisher-Yates sampler of the graduated registry and the directory feed (src/graduated_registry.js). */
module Sampler {
  import opened Collections

  // `floor(rng() * n)` is a choice in [0, n); the draws of one call are a sequence of such choices, the
  // i-th one among the |pool| - i elements not yet placed.

  ghost predicate ValidDraws(m: nat, draws: seq<nat>) {
    && |draws| <= m
    && forall i :: 0 <= i < |draws| ==> draws[i] < m - i
  }

  /** What is left of the pool once its j-th element has been swapped to the front and taken. */
  function Rest<T>(pool: seq<T>, j: nat): (rest: seq<T>)
    requires j < |pool|
    ensures |rest| == |pool| - 1
  {
    pool[j := pool[0]][1..]
  }

  /** The ids a vector of draws takes from the pool, in order. */
  function Pick<T>(pool: seq<T>, draws: seq<nat>): (sel: seq<T>)
    requires ValidDraws(|pool|, draws)
    ensures |sel| == |draws|
    decreases |draws|
  {
    if draws == [] then []
    else
      assert forall i :: 0 <= i < |draws[1..]| ==> draws[1..][i] == draws[i + 1];
      [pool[draws[0]]] + Pick(Rest(pool, draws[0]), draws[1..])
  }

  /** An ordered selection without replacement. */
  ghost predicate IsSelection<T>(pool: seq<T>, sel: seq<T>) {
    && Distinct(sel)
    && forall i :: 0 <= i < |sel| ==> sel[i] in pool
  }

  ghost function IndexOf<T>(s: seq<T>, x: T): (i: nat)
    requires x in s
    ensures i < |s| && s[i] == x
  {
    var i :| 0 <= i < |s| && s[i] == x; i
  }

  /** Taking the j-th element leaves the others, still distinct. */
  lemma RestOfDistinct<T>(pool: seq<T>, j: nat)
    requires j < |pool| && Distinct(pool)
    ensures Distinct(Rest(pool, j))
    ensures forall x :: x in Rest(pool, j) <==> x in pool && x != pool[j]
  {
    var rest := Rest(pool, j);
    assert forall k :: 0 <= k < |rest| ==> rest[k] == if k + 1 == j then pool[0] else pool[k + 1];
    forall x | x in pool && x != pool[j]
      ensures x in rest
    {
      var k := IndexOf(pool, x);
      if k == 0 {
        assert rest[j - 1] == x;
      } else {
        assert rest[k - 1] == x;
      }
    }
  }

  /** Draws yield a selection: distinct elements of the pool. */
  lemma {:induction false} PickIsSelection<T>(pool: seq<T>, draws: seq<nat>)
    requires Distinct(pool) && ValidDraws(|pool|, draws)
    ensures IsSelection(pool, Pick(pool, draws))
    decreases |draws|
  {
    if draws != [] {
      var rest := Rest(pool, draws[0]);
      var tail := Pick(rest, draws[1..]);
      RestOfDistinct(pool, draws[0]);
      PickIsSelection(rest, draws[1..]);
      var sel := Pick(pool, draws);
      assert forall i :: 1 <= i < |sel| ==> sel[i] == tail[i - 1] && tail[i - 1] in rest;
    }
  }

  /** The draws that produce a given selection. */
  ghost function DrawsFor<T>(pool: seq<T>, sel: seq<T>): (draws: seq<nat>)
    requires Distinct(pool) && IsSelection(pool, sel)
    ensures |draws| == |sel| && ValidDraws(|pool|, draws)
    decreases |sel|
  {
    if sel == [] then []
    else
      assert sel[0] in pool;
      var j := IndexOf(pool, sel[0]);
      RestOfDistinct(pool, j);
      assert forall i :: 0 <= i < |sel[1..]| ==> sel[1..][i] == sel[i + 1];
      var tail := DrawsFor(Rest(pool, j), sel[1..]);
      [j] + tail
  }

  /** Every ordered selection is drawn: its draws pick exactly it. */
  lemma {:induction false} EverySelectionIsDrawn<T>(pool: seq<T>, sel: seq<T>)
    requires Distinct(pool) && IsSelection(pool, sel)
    ensures Pick(pool, DrawsFor(pool, sel)) == sel
    decreases |sel|
  {
    if sel != [] {
      assert sel[0] in pool;
      var j := IndexOf(pool, sel[0]);
      RestOfDistinct(pool, j);
      assert forall i :: 0 <= i < |sel[1..]| ==> sel[1..][i] == sel[i + 1];
      EverySelectionIsDrawn(Rest(pool, j), sel[1..]);
      var draws := DrawsFor(pool, sel);
      assert draws[1..] == DrawsFor(Rest(pool, j), sel[1..]);
      assert sel == [sel[0]] + sel[1..];
    }
  }

  /** And by no other draws, so every selection is drawn by exactly one vector: the sampler is uniform. */
  lemma {:induction false} OnlyOneDrawPerSelection<T>(pool: seq<T>, draws: seq<nat>)
    requires Distinct(pool) && ValidDraws(|pool|, draws)
    ensures IsSelection(pool, Pick(pool, draws))
    ensures DrawsFor(pool, Pick(pool, draws)) == draws
    decreases |draws|
  {
    PickIsSelection(pool, draws);
    if draws != [] {
      var sel := Pick(pool, draws);
      assert sel[0] == pool[draws[0]];
      assert IndexOf(pool, sel[0]) == draws[0];
      var rest := Rest(pool, draws[0]);
      RestOfDistinct(pool, draws[0]);
      OnlyOneDrawPerSelection(rest, draws[1..]);
      assert sel[1..] == Pick(rest, draws[1..]);
      assert draws == [draws[0]] + draws[1..];
    }
  }

  ghost function Prefixed(m: nat, vs: set<seq<nat>>): set<seq<nat>> {
    set j: nat, v: seq<nat> | j < m && v in vs :: [j] + v
  }

  /** The vectors of n draws for a pool of m ids. */
  ghost function Vectors(m: nat, n: nat): (vs: set<seq<nat>>)
    requires n <= m
  {
    if n == 0 then {[]} else Prefixed(m, Vectors(m - 1, n - 1))
  }

  function Falling(m: nat, n: nat): nat
    requires n <= m
  {
    if n == 0 then 1 else m * Falling(m - 1, n - 1)
  }

  lemma {:induction false} VectorsAreTheValidDraws(m: nat, n: nat, v: seq<nat>)
    requires n <= m
    ensures v in Vectors(m, n) <==> |v| == n && ValidDraws(m, v)
  {
    if n > 0 && |v| > 0 {
      VectorsAreTheValidDraws(m - 1, n - 1, v[1..]);
      assert v == [v[0]] + v[1..];
      assert forall i :: 0 <= i < |v[1..]| ==> v[1..][i] == v[i + 1];
      assert v in Vectors(m, n) ==> v[0] < m && v[1..] in Vectors(m - 1, n - 1) by {
        if v in Vectors(m, n) {
          var j: nat, w: seq<nat> :| j < m && w in Vectors(m - 1, n - 1) && v == [j] + w;
          assert w == v[1..];
        }
      }
      assert |v| == n && ValidDraws(m, v) <==> v[0] < m && |v[1..]| == n - 1 && ValidDraws(m - 1, v[1..]);
    }
  }

  /** Prefixing each of a set's vectors with each of m heads multiplies its size by m. */
  lemma {:induction false} PrefixedCardinality(m: nat, vs: set<seq<nat>>)
    ensures |Prefixed(m, vs)| == m * |vs|
  {
    if m == 0 {
      assert Prefixed(m, vs) == {};
    } else {
      PrefixedCardinality(m - 1, vs);
      PrefixedByOne(m - 1, vs);
      var fewer, last := Prefixed(m - 1, vs), PrefixedWith(m - 1, vs);
      assert Prefixed(m, vs) == fewer + last;
      assert fewer !! last by {
        forall w | w in last
          ensures w !in fewer
        {
          assert w[0] == m - 1;
        }
      }
      calc {
        |Prefixed(m, vs)|;
        (m - 1) * |vs| + |vs|;
        m * |vs|;
      }
    }
  }

  ghost function PrefixedWith(j: nat, vs: set<seq<nat>>): set<seq<nat>> {
    set v: seq<nat> | v in vs :: [j] + v
  }

  lemma {:induction false} PrefixedByOne(j: nat, vs: set<seq<nat>>)
    ensures |PrefixedWith(j, vs)| == |vs|
  {
    if vs == {} {
      assert PrefixedWith(j, vs) == {};
    } else {
      var x :| x in vs;
      PrefixedByOne(j, vs - {x});
      assert PrefixedWith(j, vs) == PrefixedWith(j, vs - {x}) + {[j] + x};
      forall v: seq<nat> | [j] + v == [j] + x
        ensures v == x
      {
        assert v == ([j] + v)[1..];
        assert x == ([j] + x)[1..];
      }
      assert [j] + x !in PrefixedWith(j, vs - {x});
    }
  }

  /** There are m (m-1) ... (m-n+1) equally likely vectors, one per ordered selection. */
  lemma {:induction false} VectorCount(m: nat, n: nat)
    requires n <= m
    ensures |Vectors(m, n)| == Falling(m, n)
  {
    if n > 0 {
      VectorCount(m - 1, n - 1);
      PrefixedCardinality(m, Vectors(m - 1, n - 1));
    } else {
      assert Vectors(m, n) == {[]};
    }
  }

  /** Of all the equally likely vectors of n draws, exactly one yields a given ordered selection of n ids. */
  lemma Uniform<T>(pool: seq<T>, sel: seq<T>)
    requires Distinct(pool) && IsSelection(pool, sel) && |sel| <= |pool|
    ensures DrawsFor(pool, sel) in Vectors(|pool|, |sel|)
    ensures forall v :: v in Vectors(|pool|, |sel|) ==>
              ValidDraws(|pool|, v) && (Pick(pool, v) == sel <==> v == DrawsFor(pool, sel))
  {
    VectorsAreTheValidDraws(|pool|, |sel|, DrawsFor(pool, sel));
    EverySelectionIsDrawn(pool, sel);
    forall v | v in Vectors(|pool|, |sel|)
      ensures ValidDraws(|pool|, v) && (Pick(pool, v) == sel <==> v == DrawsFor(pool, sel))
    {
      VectorsAreTheValidDraws(|pool|, |sel|, v);
      OnlyOneDrawPerSelection(pool, v);
    }
  }

  /** One swap: position i now holds the drawn element, and the tail is the rest of the pool. */
  lemma SwapIsRest<T>(s: seq<T>, i: nat, d: nat)
    requires i + d < |s|
    ensures s[i := s[i + d]][i + d := s[i]][i + 1..] == Rest(s[i..], d)
    ensures s[i := s[i + d]][i + d := s[i]][..i + 1] == s[..i] + [s[i + d]]
    ensures multiset(s[i := s[i + d]][i + d := s[i]]) == multiset(s)
  {
    var t := s[i := s[i + d]][i + d := s[i]];
    assert s[i..][d] == s[i + d] && s[i..][0] == s[i];
    assert t[i + 1..] == Rest(s[i..], d);
  }

  /** What the swap leaves to pick continues what was picked before it. */
  lemma PickSwap<T>(s: seq<T>, draws: seq<nat>, i: nat)
    requires i < |draws| && i <= |s| && ValidDraws(|s| - i, draws[i..])
    ensures i + draws[i] < |s| && ValidDraws(|s| - (i + 1), draws[i + 1..])
    ensures
      var t := s[i := s[i + draws[i]]][i + draws[i] := s[i]];
      t[..i + 1] + Pick(t[i + 1..], draws[i + 1..]) == s[..i] + Pick(s[i..], draws[i..])
  {
    var tail := draws[i..];
    assert tail[0] == draws[i] && tail[1..] == draws[i + 1..];
    assert forall k :: 0 <= k < |tail[1..]| ==> tail[1..][k] == tail[k + 1];
    SwapIsRest(s, i, draws[i]);
  }

  /** After i swaps `now` holds what was drawn so far, and what is left draws the rest. */
  ghost predicate Shuffled<T>(before: seq<T>, now: seq<T>, draws: seq<nat>, i: nat) {
    && i <= |draws| <= |before| == |now|
    && ValidDraws(|before|, draws)
    && ValidDraws(|now| - i, draws[i..])
    && now[..i] + Pick(now[i..], draws[i..]) == Pick(before, draws)
    && multiset(now) == multiset(before)
  }

  lemma ShuffleStep<T>(before: seq<T>, now: seq<T>, draws: seq<nat>, i: nat)
    requires i < |draws| && Shuffled(before, now, draws, i)
    ensures i + draws[i] < |now|
    ensures Shuffled(before, now[i := now[i + draws[i]]][i + draws[i] := now[i]], draws, i + 1)
  {
    PickSwap(now, draws, i);
    SwapIsRest(now, i, draws[i]);
  }

  /** The loop both callers run: swap position i with position i + draws[i], for each draw. */
  method PartialShuffle<T>(pool: array<T>, draws: seq<nat>)
    requires ValidDraws(pool.Length, draws)
    modifies pool
    ensures pool[..|draws|] == old(Pick(pool[..], draws))
    ensures multiset(pool[..]) == old(multiset(pool[..]))
  {
    ghost var before, now := pool[..], pool[..];
    assert now[0..] == now && draws[0..] == draws && now[..0] == [];
    for i := 0 to |draws|
      invariant now == pool[..] && Shuffled(before, now, draws, i)
    {
      ShuffleStep(before, now, draws, i);
      var j := i + draws[i];
      pool[i], pool[j] := pool[j], pool[i];
      now := now[i := now[j]][j := now[i]];
    }
  }

  /** What both callers do: copy the pool, shuffle the front, slice it off. */
  method Sample<T>(pool: seq<T>, draws: seq<nat>) returns (sample: seq<T>)
    requires ValidDraws(|pool|, draws)
    ensures sample == Pick(pool, draws)
  {
    var a := new T[|pool|](i requires 0 <= i < |pool| => pool[i]);
    assert a[..] == pool;
    PartialShuffle(a, draws);
    sample := a[..|draws|];
  }
}
