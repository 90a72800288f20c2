/** The bridge's record of other bridges: `merge` and its self-cleaning (src/bridge_book_store.js). */
module BridgeBook {
  import opened Collections

  /** A validated directory entry; `body` is everything in it that nothing here reads. */
  datatype Entry = Entry(url: string, ts: int, body: string)

  /** "" stands for no signer. */
  datatype Stored = Stored(entry: Entry, signer: string, firstSeen: int)

  type Book = map<string, Stored>

  /** A call of `merge`; None is an entry the kernel's validation turned down. */
  datatype Merge = Merge(entry: Option<Entry>, signer: string, now: int)

  predicate IsFor(m: Merge, url: string) {
    m.entry.Some? && m.entry.value.url == url
  }

  // ----- The operation -----

  predicate Accepts(b: Book, m: Merge) {
    m.entry.Some? && (m.entry.value.url in b ==> b[m.entry.value.url].entry.ts < m.entry.value.ts)
  }

  function Store(b: Book, m: Merge): Book
    requires m.entry.Some?
  {
    var url := m.entry.value.url;
    var prevSigner := if url in b then b[url].signer else "";
    var prevSeen := if url in b then b[url].firstSeen else 0;
    b[url := Stored(m.entry.value,
                    if m.signer != "" then m.signer else prevSigner,
                    if prevSeen != 0 then prevSeen else m.now)]
  }

  function Prune(b: Book, maxAge: int, now: int): Book {
    map url | url in b && now - b[url].entry.ts <= maxAge :: b[url]
  }

  function Apply(b: Book, maxAge: int, m: Merge): Book {
    if Accepts(b, m) then Prune(Store(b, m), maxAge, m.now) else b
  }

  function Run(maxAge: int, h: seq<Merge>): Book {
    if h == [] then map[] else Apply(Run(maxAge, h[..|h| - 1]), maxAge, h[|h| - 1])
  }

  /** The clock at the last accepted merge. */
  function LastAccepted(maxAge: int, h: seq<Merge>): Option<int> {
    if h == [] then None
    else
      var n := |h| - 1;
      if Accepts(Run(maxAge, h[..n]), h[n]) then Some(h[n].now) else LastAccepted(maxAge, h[..n])
  }

  // ----- The register it is -----

  /** The first merge to carry the greatest timestamp ever validly merged for a URL. */
  ghost function Winner(h: seq<Merge>, url: string): (w: Option<Merge>)
    ensures w.Some? ==> IsFor(w.value, url)
  {
    if h == [] then None
    else
      var n := |h| - 1;
      var w := Winner(h[..n], url);
      if IsFor(h[n], url) && (w.None? || w.value.entry.value.ts < h[n].entry.value.ts) then Some(h[n]) else w
  }

  ghost predicate FirstGreatest(h: seq<Merge>, url: string, i: nat) {
    && i < |h| && IsFor(h[i], url)
    && (forall j :: 0 <= j < |h| && IsFor(h[j], url) ==> h[j].entry.value.ts <= h[i].entry.value.ts)
    && (forall j :: 0 <= j < i && IsFor(h[j], url) ==> h[j].entry.value.ts < h[i].entry.value.ts)
  }

  lemma StillFirstGreatest(h: seq<Merge>, url: string, i: nat)
    requires h != [] && FirstGreatest(h[..|h| - 1], url, i)
    requires var m := h[|h| - 1]; IsFor(m, url) ==> m.entry.value.ts <= h[i].entry.value.ts
    ensures FirstGreatest(h, url, i)
  {
    var front := h[..|h| - 1];
    assert forall j :: 0 <= j < |front| ==> front[j] == h[j];
  }

  lemma NewFirstGreatest(h: seq<Merge>, url: string)
    requires h != [] && IsFor(h[|h| - 1], url)
    requires forall j :: 0 <= j < |h| - 1 && IsFor(h[j], url) ==> h[j].entry.value.ts < h[|h| - 1].entry.value.ts
    ensures FirstGreatest(h, url, |h| - 1)
  {
  }

  lemma {:induction false} WinnerIsFirstGreatest(h: seq<Merge>, url: string)
    ensures Winner(h, url).Some? ==> exists i: nat :: FirstGreatest(h, url, i) && h[i] == Winner(h, url).value
    ensures Winner(h, url).None? ==> forall j :: 0 <= j < |h| ==> !IsFor(h[j], url)
  {
    if h != [] {
      var n := |h| - 1;
      var w := Winner(h[..n], url);
      WinnerIsFirstGreatest(h[..n], url);
      assert forall j :: 0 <= j < n ==> h[..n][j] == h[j];
      if Winner(h, url).Some? {
        if IsFor(h[n], url) && (w.None? || w.value.entry.value.ts < h[n].entry.value.ts) {
          NewFirstGreatest(h, url);
        } else {
          var i: nat :| FirstGreatest(h[..n], url, i) && h[..n][i] == w.value;
          StillFirstGreatest(h, url, i);
        }
      }
    }
  }

  ghost predicate Clocked(h: seq<Merge>) {
    forall i, j :: 0 <= i < j < |h| ==> h[i].now <= h[j].now
  }

  /** The greatest timestamp is stored, unless it had aged out when a merge was last accepted. */
  ghost predicate Registers(b: Book, last: Option<int>, h: seq<Merge>, maxAge: int) {
    && (last.None? ==> b == map[] && forall url :: Winner(h, url).None?)
    && (last.Some? ==> forall url ::
          var w := Winner(h, url);
          && (url in b <==> w.Some? && last.value - w.value.entry.value.ts <= maxAge)
          && (url in b ==> b[url].entry == w.value.entry.value))
  }

  lemma {:induction false} ApplyRegisters(b: Book, last: Option<int>, h: seq<Merge>, maxAge: int, m: Merge)
    requires Registers(b, last, h, maxAge)
    requires last.Some? ==> last.value <= m.now
    ensures Registers(Apply(b, maxAge, m), if Accepts(b, m) then Some(m.now) else last, h + [m], maxAge)
  {
    assert (h + [m])[..|h|] == h;
    forall url
      ensures Winner(h + [m], url) ==
              if IsFor(m, url) && (Winner(h, url).None? || Winner(h, url).value.entry.value.ts < m.entry.value.ts)
              then Some(m) else Winner(h, url)
    {
    }
  }

  lemma {:induction false} LastIsPast(maxAge: int, h: seq<Merge>, now: int)
    requires forall i :: 0 <= i < |h| ==> h[i].now <= now
    ensures LastAccepted(maxAge, h).Some? ==> LastAccepted(maxAge, h).value <= now
  {
    if h != [] { LastIsPast(maxAge, h[..|h| - 1], now); }
  }

  lemma {:induction false} RunRegisters(maxAge: int, h: seq<Merge>)
    requires Clocked(h)
    ensures Registers(Run(maxAge, h), LastAccepted(maxAge, h), h, maxAge)
  {
    if h != [] {
      var n := |h| - 1;
      RunRegisters(maxAge, h[..n]);
      LastIsPast(maxAge, h[..n], h[n].now);
      ApplyRegisters(Run(maxAge, h[..n]), LastAccepted(maxAge, h[..n]), h[..n], maxAge, h[n]);
      assert h[..n] + [h[n]] == h;
    }
  }

  /** After any merges: the greatest timestamp wins, and only age takes it out. */
  lemma LastWriterWins(maxAge: int, h: seq<Merge>, url: string)
    requires Clocked(h)
    ensures
      var b, w, last := Run(maxAge, h), Winner(h, url), LastAccepted(maxAge, h);
      && (w.Some? ==> last.Some?)
      && (url in b <==> w.Some? && last.value - w.value.entry.value.ts <= maxAge)
      && (url in b ==> b[url].entry == w.value.entry.value)
  {
    RunRegisters(maxAge, h);
  }

  lemma {:induction false} Later(maxAge: int, h: seq<Merge>, more: seq<Merge>, url: string)
    requires Clocked(h + more) && Winner(h, url).Some?
    requires forall m :: m in more && IsFor(m, url) ==> m.entry.value.ts <= Winner(h, url).value.entry.value.ts
    ensures Winner(h + more, url) == Winner(h, url)
    ensures LastAccepted(maxAge, h).Some? ==>
      LastAccepted(maxAge, h + more).Some? && LastAccepted(maxAge, h).value <= LastAccepted(maxAge, h + more).value
    decreases |more|
  {
    if more == [] {
      assert h + more == h;
    } else {
      var n := |more| - 1;
      assert (h + more)[..|h| + n] == h + more[..n];
      assert (h + more)[|h| + n] == more[n];
      assert Clocked(h + more[..n]) by {
        assert forall i :: 0 <= i < |h| + n ==> (h + more[..n])[i] == (h + more)[i];
      }
      Later(maxAge, h, more[..n], url);
      forall i | 0 <= i < |h|
        ensures h[i].now <= more[n].now
      {
        assert (h + more)[i] == h[i];
      }
      LastIsPast(maxAge, h, more[n].now);
    }
  }

  /** Once a bridge has aged out, no replay of what was already merged brings it back. */
  lemma ReplaysDoNotResurrect(maxAge: int, h: seq<Merge>, more: seq<Merge>, url: string)
    requires Clocked(h + more) && Winner(h, url).Some? && url !in Run(maxAge, h)
    requires forall m :: m in more && IsFor(m, url) ==> m.entry.value.ts <= Winner(h, url).value.entry.value.ts
    ensures url !in Run(maxAge, h + more)
  {
    assert Clocked(h) by { assert forall i :: 0 <= i < |h| ==> (h + more)[i] == h[i]; }
    LastWriterWins(maxAge, h, url);
    LastWriterWins(maxAge, h + more, url);
    Later(maxAge, h, more, url);
  }

  /**
   `merge` answers true when it accepts. That is not quite "it changed the book": an entry
   already too old when it comes is stored and swept away again in the same call.
  */
  lemma AcceptedUnchangedIff(b: Book, maxAge: int, m: Merge)
    requires forall url :: url in b ==> b[url].entry.url == url
    ensures !Accepts(b, m) ==> Apply(b, maxAge, m) == b
    ensures Accepts(b, m) ==> (Apply(b, maxAge, m) == b <==>
      (&& m.entry.value.url !in b && m.now - m.entry.value.ts > maxAge
       && forall url :: url in b ==> m.now - b[url].entry.ts <= maxAge))
  {
    if Accepts(b, m) {
      var url := m.entry.value.url;
      var b1 := Apply(b, maxAge, m);
      if m.now - m.entry.value.ts <= maxAge {
        assert url in b1 && b1[url].entry == m.entry.value;
      } else {
        assert url !in b1;
        if url !in b {
          if forall u :: u in b ==> m.now - b[u].entry.ts <= maxAge {
            assert b1 == b;
          } else {
            var u :| u in b && m.now - b[u].entry.ts > maxAge;
            assert u !in b1;
          }
        }
      }
    }
  }

  /** As when the first entry of all is already too old: accepted, and nothing to show for it. */
  lemma StaleArrival(maxAge: int, m: Merge)
    requires m.entry.Some? && m.now - m.entry.value.ts > maxAge
    ensures Accepts(map[], m) && Apply(map[], maxAge, m) == map[]
  {
    AcceptedUnchangedIff(map[], maxAge, m);
  }

  // ----- The order of arrival -----

  /** Nothing is ever too old for any of these merges. */
  ghost predicate NoAgeing(maxAge: int, h: seq<Merge>) {
    forall m, e :: m in h && e in h && e.entry.Some? ==> m.now - e.entry.value.ts <= maxAge
  }

  ghost predicate NoTies(h: seq<Merge>, url: string) {
    forall i, j :: 0 <= i < j < |h| && IsFor(h[i], url) && IsFor(h[j], url) ==>
      h[i].entry.value.ts != h[j].entry.value.ts
  }

  /** The signer a URL ends up with: the winner's, or the last one it inherited on the way up. */
  ghost function Claim(h: seq<Merge>, url: string): string {
    if h == [] then ""
    else
      var n := |h| - 1;
      if Winner(h, url) != Winner(h[..n], url) && h[n].signer != "" then h[n].signer else Claim(h[..n], url)
  }

  ghost function FirstNow(h: seq<Merge>, url: string): Option<int> {
    if h == [] then None
    else
      var n := |h| - 1;
      if FirstNow(h[..n], url).None? && IsFor(h[n], url) then Some(h[n].now) else FirstNow(h[..n], url)
  }

  lemma {:induction false} RunWithoutAgeing(maxAge: int, h: seq<Merge>, url: string)
    requires NoAgeing(maxAge, h)
    ensures
      var b, w := Run(maxAge, h), Winner(h, url);
      && (url in b <==> w.Some?) && (w.Some? <==> FirstNow(h, url).Some?)
      && (url in b ==> b[url].entry == w.value.entry.value && b[url].signer == Claim(h, url))
      && (w.None? ==> Claim(h, url) == "")
      && (w.Some? ==> w.value in h)
  {
    if h != [] {
      var n := |h| - 1;
      RunWithoutAgeing(maxAge, h[..n], url);
      assert h[n] in h && forall m :: m in h[..n] ==> m in h;
      if h[n].entry.Some? && h[n].entry.value.url != url && Accepts(Run(maxAge, h[..n]), h[n]) {
        assert url in Run(maxAge, h[..n]) ==> Winner(h[..n], url).value in h;
      }
    }
  }

  /** Tenure: without ageing, a bridge has been known since its first valid merge. */
  lemma {:induction false} TenureIsKept(maxAge: int, h: seq<Merge>, url: string)
    requires NoAgeing(maxAge, h) && forall m :: m in h ==> m.now != 0
    ensures url in Run(maxAge, h) ==> FirstNow(h, url) == Some(Run(maxAge, h)[url].firstSeen)
    ensures url in Run(maxAge, h) ==> Run(maxAge, h)[url].firstSeen != 0
  {
    if h != [] {
      var n := |h| - 1;
      assert h[n] in h && forall m :: m in h[..n] ==> m in h;
      TenureIsKept(maxAge, h[..n], url);
      RunWithoutAgeing(maxAge, h[..n], url);
      RunWithoutAgeing(maxAge, h, url);
    }
  }

  lemma SameMembers(g: seq<Merge>, h: seq<Merge>)
    requires multiset(g) == multiset(h)
    ensures forall m :: m in g <==> m in h
  {
    forall m
      ensures m in g <==> m in h
    {
      assert m in g <==> m in multiset(g);
      assert m in h <==> m in multiset(h);
    }
  }

  lemma WinnersExist(h: seq<Merge>, url: string)
    ensures Winner(h, url).Some? <==> exists m :: m in h && IsFor(m, url)
    ensures Winner(h, url).Some? ==> Winner(h, url).value in h
    ensures Winner(h, url).Some? ==> forall m :: m in h && IsFor(m, url) ==>
      m.entry.value.ts <= Winner(h, url).value.entry.value.ts
  {
    WinnerIsFirstGreatest(h, url);
  }

  lemma SameWinner(g: seq<Merge>, h: seq<Merge>, url: string)
    requires multiset(g) == multiset(h) && NoTies(h, url)
    ensures Winner(g, url) == Winner(h, url)
  {
    SameMembers(g, h);
    WinnersExist(g, url);
    WinnersExist(h, url);
    if Winner(h, url).Some? {
      var w, v := Winner(h, url).value, Winner(g, url).value;
      var i: nat :| i < |h| && h[i] == w;
      var l: nat :| l < |h| && h[l] == v;
      assert w.entry.value.ts == v.entry.value.ts;
    }
  }

  /** Without ageing or equal timestamps, what is stored does not depend on the order of arrival. */
  lemma EntriesDoNotDependOnOrder(maxAge: int, g: seq<Merge>, h: seq<Merge>, url: string)
    requires multiset(g) == multiset(h) && NoAgeing(maxAge, h) && NoTies(h, url)
    ensures url in Run(maxAge, g) <==> url in Run(maxAge, h)
    ensures url in Run(maxAge, h) ==> Run(maxAge, g)[url].entry == Run(maxAge, h)[url].entry
  {
    SameMembers(g, h);
    SameWinner(g, h, url);
    RunWithoutAgeing(maxAge, g, url);
    RunWithoutAgeing(maxAge, h, url);
  }

  ghost predicate SignerFixed(maxAge: int, h: seq<Merge>, url: string)
    requires url in Run(maxAge, h)
  {
    forall g: seq<Merge> :: multiset(g) == multiset(h) && url in Run(maxAge, g) ==>
      Run(maxAge, g)[url].signer == Run(maxAge, h)[url].signer
  }

  lemma {:induction false} SignedWinnerClaims(h: seq<Merge>, url: string)
    requires Winner(h, url).Some? && Winner(h, url).value.signer != ""
    ensures Claim(h, url) == Winner(h, url).value.signer
  {
    var n := |h| - 1;
    if Winner(h, url) == Winner(h[..n], url) { SignedWinnerClaims(h[..n], url); }
  }

  lemma {:induction false} NobodyClaims(h: seq<Merge>, url: string)
    requires forall m :: m in h && IsFor(m, url) ==> m.signer == ""
    ensures Claim(h, url) == ""
  {
    if h != [] {
      NobodyClaims(h[..|h| - 1], url);
      assert h[|h| - 1] in h;
    }
  }

  /** Merges that never win change neither the winner nor the claim. */
  lemma {:induction false} LosersChangeNothing(front: seq<Merge>, rest: seq<Merge>, url: string, w: Merge)
    requires Winner(front, url) == Some(w)
    requires forall m :: m in rest && IsFor(m, url) ==> m.entry.value.ts <= w.entry.value.ts
    ensures Winner(front + rest, url) == Some(w) && Claim(front + rest, url) == Claim(front, url)
  {
    if rest == [] {
      assert front + rest == front;
    } else {
      var n := |rest| - 1;
      assert (front + rest)[..|front| + n] == front + rest[..n] && (front + rest)[|front| + n] == rest[n];
      LosersChangeNothing(front, rest[..n], url, w);
    }
  }

  function Without(s: seq<Merge>, i: nat): seq<Merge>
    requires i < |s|
  {
    s[..i] + s[i + 1..]
  }

  lemma MoveToFront(s: seq<Merge>, i: nat)
    requires i < |s|
    ensures multiset([s[i]] + Without(s, i)) == multiset(s)
    ensures forall m :: m in Without(s, i) ==> m in s
  {
    assert s == s[..i] + ([s[i]] + s[i + 1..]);
  }

  /** An unsigned winner that comes first is left unsigned. */
  lemma WinnerFirst(h: seq<Merge>, url: string, i: nat)
    requires FirstGreatest(h, url, i)
    ensures
      var a := [h[i]] + Without(h, i);
      multiset(a) == multiset(h) && Claim(a, url) == h[i].signer
  {
    MoveToFront(h, i);
    FirstOne(h[i], url);
    LosersChangeNothing([h[i]], Without(h, i), url, h[i]);
  }

  /** Coming right after a signed loser, it inherits. */
  lemma WinnerSecond(h: seq<Merge>, url: string, i: nat, k: nat)
    requires FirstGreatest(h, url, i) && h[i].signer == "" && k < |Without(h, i)|
    requires IsFor(Without(h, i)[k], url) && Without(h, i)[k].entry.value.ts < h[i].entry.value.ts
    ensures
      var w, e, rest := h[i], Without(h, i)[k], Without(Without(h, i), k);
      multiset([e, w] + rest) == multiset(h) && Claim([e, w] + rest, url) == e.signer
  {
    var w, e, others := h[i], Without(h, i)[k], Without(h, i);
    var rest := Without(others, k);
    MoveToFront(h, i);
    MoveToFront(others, k);
    assert multiset([e, w] + rest) == multiset(h) by {
      assert [e, w] + rest == [e] + ([w] + rest);
      assert multiset([e] + rest) == multiset(others);
    }
    FirstOne(e, url);
    assert [e, w][..1] == [e];
    LosersChangeNothing([e, w], rest, url, w);
  }

  lemma TwoOrders(h: seq<Merge>, url: string, e: Merge) returns (a: seq<Merge>, b: seq<Merge>)
    requires Winner(h, url).Some? && Winner(h, url).value.signer == "" && NoTies(h, url)
    requires e in h && IsFor(e, url) && e.signer != ""
    ensures multiset(a) == multiset(h) == multiset(b)
    ensures Claim(a, url) == "" && Claim(b, url) == e.signer
  {
    WinnerIsFirstGreatest(h, url);
    var i: nat :| FirstGreatest(h, url, i) && h[i] == Winner(h, url).value;
    WinnerFirst(h, url, i);
    a := [h[i]] + Without(h, i);
    var j: nat :| j < |h| && h[j] == e;
    var k := if j < i then j else j - 1;
    assert Without(h, i)[k] == e;
    WinnerSecond(h, url, i, k);
    b := [e, h[i]] + Without(Without(h, i), k);
  }

  lemma FirstOne(m: Merge, url: string)
    requires IsFor(m, url)
    ensures Winner([m], url) == Some(m) && Claim([m], url) == m.signer
  {
    assert [m][..0] == [];
  }

  /** The stored signer does depend on it, unless the winner is signed or nobody ever signed. */
  lemma SignerIsFixedIff(maxAge: int, h: seq<Merge>, url: string)
    requires NoAgeing(maxAge, h) && NoTies(h, url) && url in Run(maxAge, h)
    ensures Winner(h, url).Some?
    ensures SignerFixed(maxAge, h, url) <==>
      (Winner(h, url).value.signer != "" || forall m :: m in h && IsFor(m, url) ==> m.signer == "")
  {
    RunWithoutAgeing(maxAge, h, url);
    if Winner(h, url).value.signer != "" || forall m :: m in h && IsFor(m, url) ==> m.signer == "" {
      forall g: seq<Merge> | multiset(g) == multiset(h) && url in Run(maxAge, g)
        ensures Run(maxAge, g)[url].signer == Run(maxAge, h)[url].signer
      {
        SameMembers(g, h);
        SameWinner(g, h, url);
        RunWithoutAgeing(maxAge, g, url);
        if Winner(h, url).value.signer != "" {
          SignedWinnerClaims(g, url);
          SignedWinnerClaims(h, url);
        } else {
          NobodyClaims(g, url);
          NobodyClaims(h, url);
        }
      }
    } else {
      var e :| e in h && IsFor(e, url) && e.signer != "";
      var a, b := TwoOrders(h, url, e);
      SameMembers(a, h);
      SameMembers(b, h);
      SameWinner(a, h, url);
      SameWinner(b, h, url);
      RunWithoutAgeing(maxAge, a, url);
      RunWithoutAgeing(maxAge, b, url);
      assert Run(maxAge, a)[url].signer != Run(maxAge, b)[url].signer;
    }
  }

  const SIGNED := Merge(Some(Entry("wss://bridge", 1, "")), "signer", 2)
  const UNSIGNED := Merge(Some(Entry("wss://bridge", 2, "")), "", 2)

  /** A signed entry and an unsigned newer one: the stored entry is the newer either way, its signer is not. */
  lemma OrderDecidesTheSigner(maxAge: nat)
    requires maxAge > 0
    ensures multiset([SIGNED, UNSIGNED]) == multiset([UNSIGNED, SIGNED])
    ensures Run(maxAge, [SIGNED, UNSIGNED]) == map["wss://bridge" := Stored(UNSIGNED.entry.value, "signer", 2)]
    ensures Run(maxAge, [UNSIGNED, SIGNED]) == map["wss://bridge" := Stored(UNSIGNED.entry.value, "", 2)]
  {
    var a, b := [SIGNED, UNSIGNED], [UNSIGNED, SIGNED];
    assert a[..1] == [SIGNED] && b[..1] == [UNSIGNED] && a[..1][..0] == [] && b[..1][..0] == [];
    assert Run(maxAge, []) == map[];
    assert Run(maxAge, [SIGNED]) == Apply(map[], maxAge, SIGNED);
    assert Run(maxAge, [UNSIGNED]) == Apply(map[], maxAge, UNSIGNED);
  }

  // ----- The store -----

  class BridgeBookStore {
    const maxAge: int
    var entries: Book

    constructor (maxAge: int)
      ensures entries == map[] && this.maxAge == maxAge
    {
      this.maxAge := maxAge;
      entries := map[];
    }

    method MergeEntry(m: Merge) returns (accepted: bool)
      modifies this
      ensures entries == Apply(old(entries), maxAge, m)
      ensures accepted <==> Accepts(old(entries), m)
    {
      if m.entry.None? {
        return false;
      }
      var v := m.entry.value;
      if v.url in entries && entries[v.url].entry.ts >= v.ts {
        return false;
      }
      var signer, firstSeen := m.signer, m.now;
      if v.url in entries {
        var prev := entries[v.url];
        if signer == "" { signer := prev.signer; }
        if prev.firstSeen != 0 { firstSeen := prev.firstSeen; }
      }
      entries := entries[v.url := Stored(v, signer, firstSeen)];
      ghost var stored := entries;
      var urls := entries.Keys;
      while urls != {}
        invariant urls <= stored.Keys
        invariant entries == map url | url in stored && (url in urls || m.now - stored[url].entry.ts <= maxAge) ::
            stored[url]
        decreases |urls|
      {
        var url :| url in urls;
        if m.now - entries[url].entry.ts > maxAge {
          entries := entries - {url};
        }
        urls := urls - {url};
      }
      return true;
    }
  }
}
