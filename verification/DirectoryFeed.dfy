/** A bridge answering its own kernel's requests for introductions (src/directory_feed.js). */
module DirectoryFeed {
  import opened Collections
  import opened NodeId
  import Sampler

  /** What evaluating the source came to; an item that is not a string is None. */
  datatype Supply = NoSource | Threw | Malformed | Pool(items: seq<Option<string>>)

  /** A deferred delivery: the generation it was made under, and when it was asked for. */
  datatype Timer = Timer(gen: nat, sample: seq<string>, asked: nat)

  /** A delivery that reached the handlers there were. */
  datatype Delivery = Delivery(sample: seq<string>, asked: nat, fired: nat, handlers: set<nat>)

  datatype Stats = Stats(requests: nat, unavailable: nat, served: nat, failed: nat, lastPool: nat, lastSample: nat)

  // ----- The candidates -----

  function LowerChar(c: char): char {
    if 'A' <= c <= 'Z' then c - 'A' + 'a' else c
  }

  function Lower(s: string): (r: string)
    ensures |r| == |s|
  {
    seq(|s|, i requires 0 <= i < |s| => LowerChar(s[i]))
  }

  /** Capital letters become the small ones of their place in the alphabet, and nothing else changes. */
  lemma LowerIs(s: string, i: nat)
    requires i < |s|
    ensures Lower(s)[i] == if 'A' <= s[i] <= 'Z' then "abcdefghijklmnopqrstuvwxyz"[s[i] as int - 'A' as int] else s[i]
  {
  }

  predicate Usable(item: Option<string>, self: string) {
    item.Some? && IsHex66(Lower(item.value)) && Lower(item.value) != self
  }

  /** Lowercased, well formed, not the bridge, each once, in the order first met. */
  function Candidates(items: seq<Option<string>>, self: string): seq<string> {
    if items == [] then []
    else
      var n := |items| - 1;
      var front := Candidates(items[..n], self);
      if Usable(items[n], self) && Lower(items[n].value) !in front then front + [Lower(items[n].value)] else front
  }

  lemma {:induction false} CandidatesAre(items: seq<Option<string>>, self: string)
    ensures Distinct(Candidates(items, self))
    ensures forall h :: h in Candidates(items, self) <==>
                        exists p :: p in items && Usable(p, self) && Lower(p.value) == h
  {
    if items != [] {
      var n := |items| - 1;
      CandidatesAre(items[..n], self);
      assert items == items[..n] + [items[n]];
    }
  }

  // ----- The feed -----

  datatype Feed = Feed(
    self: string,
    sampleSize: nat,
    handlers: set<nat>,
    timers: seq<Timer>,
    generation: nat,
    stats: Stats,
    deliveries: seq<Delivery>)

  /** One draw for each place in the sample. */
  ghost predicate Draws(f: Feed, s: Supply, draws: seq<nat>) {
    s.Pool? ==>
      var m := |Candidates(s.items, f.self)|;
      |draws| == Min(f.sampleSize, m) && Sampler.ValidDraws(m, draws)
  }

  function Request(f: Feed, s: Supply, draws: seq<nat>, at: nat): Feed
    requires Draws(f, s, draws)
  {
    var st := f.stats.(requests := f.stats.requests + 1);
    match s
    case NoSource => f.(stats := st.(unavailable := st.unavailable + 1))
    case Pool(items) =>
      var cand := Candidates(items, f.self);
      var sample := Sampler.Pick(cand, draws);
      f.(stats := st.(served := st.served + 1, lastPool := |cand|, lastSample := |sample|),
         timers := f.timers + [Timer(f.generation, sample, at)])
    case _ => f.(stats := st.(unavailable := st.unavailable + 1, failed := st.failed + 1))
  }

  /** `stop` clears the timers; the ones already on their way (`late`) can still fire. */
  function Stop(f: Feed, late: set<nat>): Feed {
    f.(generation := f.generation + 1, timers := Keep(f.timers, late))
  }

  function Keep(ts: seq<Timer>, late: set<nat>): (r: seq<Timer>)
    ensures forall t :: t in r ==> t in ts
  {
    if ts == [] then []
    else Keep(ts[..|ts| - 1], late) + if ts[|ts| - 1].asked in late then [ts[|ts| - 1]] else []
  }

  function Fire(f: Feed, i: nat, at: nat): Feed {
    if i >= |f.timers| then f
    else
      var t := f.timers[i];
      var rest := f.timers[..i] + f.timers[i + 1..];
      if t.gen != f.generation then f.(timers := rest)
      else f.(timers := rest, deliveries := f.deliveries + [Delivery(t.sample, t.asked, at, f.handlers)])
  }

  datatype Event =
    | Requested(supply: Supply, draws: seq<nat>)
    | Stopped(late: set<nat>)
    | Fired(i: nat)
    | Subscribed(handler: nat)
    | Unsubscribed(handler: nat)

  ghost function Step(f: Feed, e: Event, at: nat): Feed {
    match e
    case Requested(s, draws) => if Draws(f, s, draws) then Request(f, s, draws, at) else f
    case Stopped(late) => Stop(f, late)
    case Fired(i) => Fire(f, i, at)
    case Subscribed(h) => f.(handlers := f.handlers + {h})
    case Unsubscribed(h) => f.(handlers := f.handlers - {h})
  }

  function Start(self: string, sampleSize: nat): Feed {
    Feed(self, sampleSize, {}, [], 0, Stats(0, 0, 0, 0, 0, 0), [])
  }

  ghost function Run(self: string, sampleSize: nat, es: seq<Event>): Feed
    decreases |es|
  {
    var n := |es| - 1;
    if es == [] then Start(self, sampleSize) else Step(Run(self, sampleSize, es[..n]), es[n], n)
  }

  // ----- What every run keeps -----

  ghost function StopsIn(es: seq<Event>): nat
    decreases |es|
  {
    if es == [] then 0 else StopsIn(es[..|es| - 1]) + if es[|es| - 1].Stopped? then 1 else 0
  }

  lemma {:induction false} StopsGrow(es: seq<Event>, k: nat, n: nat)
    requires k <= n <= |es|
    ensures StopsIn(es[..k]) <= StopsIn(es[..n])
    ensures StopsIn(es[..k]) == StopsIn(es[..n]) ==> forall i :: k <= i < n ==> !es[i].Stopped?
    decreases n
  {
    if k < n {
      StopsGrow(es, k, n - 1);
      assert es[..n][..n - 1] == es[..n - 1];
    }
  }

  /** The answer to a request is a random selection of its candidates, as large as it may be. */
  ghost predicate Answers(sample: seq<string>, asked: nat, es: seq<Event>, self: string, size: nat) {
    && asked < |es| && es[asked].Requested? && es[asked].supply.Pool?
    && var cand := Candidates(es[asked].supply.items, self);
       |sample| == Min(size, |cand|) && Sampler.IsSelection(cand, sample)
  }

  ghost predicate Timed(t: Timer, es: seq<Event>, self: string, size: nat) {
    Answers(t.sample, t.asked, es, self, size) && t.gen == StopsIn(es[..t.asked])
  }

  ghost predicate InOrder(ts: seq<Timer>) {
    forall i, j :: 0 <= i < j < |ts| ==> ts[i].asked < ts[j].asked
  }

  ghost predicate TimersKept(f: Feed, es: seq<Event>) {
    && f.generation == StopsIn(es)
    && (forall t :: t in f.timers ==> Timed(t, es, f.self, f.sampleSize))
    && InOrder(f.timers)
  }

  ghost predicate Sound(d: Delivery, es: seq<Event>, self: string, size: nat) {
    && Answers(d.sample, d.asked, es, self, size)
    && d.asked < d.fired < |es| && es[d.fired].Fired?
    && (forall i :: d.asked <= i < d.fired ==> !es[i].Stopped?)
    && d.handlers == Run(self, size, es[..d.fired]).handlers
  }

  ghost predicate DeliveriesKept(f: Feed, es: seq<Event>) {
    && (forall d :: d in f.deliveries ==> Sound(d, es, f.self, f.sampleSize))
    && (forall i, j :: 0 <= i < j < |f.deliveries| ==> f.deliveries[i].asked != f.deliveries[j].asked)
    && (forall d, t :: d in f.deliveries && t in f.timers ==> d.asked != t.asked)
  }

  ghost predicate Counted(f: Feed) {
    var st := f.stats;
    st.requests == st.served + st.unavailable && st.failed <= st.unavailable
  }

  ghost predicate Kept(f: Feed, es: seq<Event>) {
    TimersKept(f, es) && DeliveriesKept(f, es) && Counted(f)
  }

  lemma LongerRun(es: seq<Event>, e: Event, self: string, size: nat)
    ensures forall s, k :: Answers(s, k, es, self, size) ==> Answers(s, k, es + [e], self, size)
    ensures forall t :: Timed(t, es, self, size) ==> Timed(t, es + [e], self, size)
    ensures forall d :: Sound(d, es, self, size) ==> Sound(d, es + [e], self, size)
    ensures StopsIn(es + [e]) == StopsIn(es) + if e.Stopped? then 1 else 0
    ensures forall k: nat :: k <= |es| ==> (es + [e])[..k] == es[..k]
  {
    assert (es + [e])[..|es|] == es;
    assert forall k: nat :: k <= |es| ==> (es + [e])[..k] == es[..k];
  }

  lemma RequestTimed(f: Feed, es: seq<Event>, s: Supply, draws: seq<nat>)
    requires Kept(f, es) && Draws(f, s, draws) && s.Pool?
    ensures
      var t := Timer(f.generation, Sampler.Pick(Candidates(s.items, f.self), draws), |es|);
      Timed(t, es + [Requested(s, draws)], f.self, f.sampleSize)
  {
    CandidatesAre(s.items, f.self);
    Sampler.PickIsSelection(Candidates(s.items, f.self), draws);
    assert (es + [Requested(s, draws)])[..|es|] == es;
  }

  lemma RequestKeeps(f: Feed, es: seq<Event>, s: Supply, draws: seq<nat>)
    requires Kept(f, es) && Draws(f, s, draws)
    ensures Kept(Request(f, s, draws, |es|), es + [Requested(s, draws)])
  {
    if s.Pool? {
      RequestTimed(f, es, s, draws);
      var t := Timer(f.generation, Sampler.Pick(Candidates(s.items, f.self), draws), |es|);
      OneMoreTimer(f, es, Requested(s, draws), t);
    } else {
      OthersKeep(f, es, Requested(s, draws), f.handlers);
    }
  }

  lemma OneMoreTimer(f: Feed, es: seq<Event>, e: Event, t: Timer)
    requires Kept(f, es) && !e.Stopped? && t.asked == |es| && Timed(t, es + [e], f.self, f.sampleSize)
    ensures TimersKept(f.(timers := f.timers + [t]), es + [e]) && DeliveriesKept(f.(timers := f.timers + [t]), es + [e])
  {
    LongerRun(es, e, f.self, f.sampleSize);
    assert forall i :: 0 <= i < |f.timers| ==> f.timers[i] in f.timers;
    assert forall x :: x in f.timers ==> x.asked < |es|;
    assert forall d :: d in f.deliveries ==> d.asked < |es|;
  }

  lemma OthersKeep(f: Feed, es: seq<Event>, e: Event, handlers: set<nat>)
    requires Kept(f, es) && !e.Stopped?
    ensures Kept(f.(handlers := handlers), es + [e])
  {
    LongerRun(es, e, f.self, f.sampleSize);
  }

  lemma {:induction false} KeepOrder(ts: seq<Timer>, late: set<nat>)
    requires InOrder(ts)
    ensures InOrder(Keep(ts, late))
    decreases |ts|
  {
    if ts != [] {
      var n := |ts| - 1;
      KeepOrder(ts[..n], late);
      var r := Keep(ts[..n], late);
      forall t | t in r
        ensures t.asked < ts[n].asked
      {
        assert t in ts[..n];
      }
      assert Keep(ts, late) == r || Keep(ts, late) == r + [ts[n]];
      assert InOrder(r + [ts[n]]) by { assert forall i :: 0 <= i < |r| ==> r[i] in r; }
    }
  }

  lemma StopKeeps(f: Feed, es: seq<Event>, late: set<nat>)
    requires Kept(f, es)
    ensures Kept(Stop(f, late), es + [Stopped(late)])
  {
    LongerRun(es, Stopped(late), f.self, f.sampleSize);
    KeepOrder(f.timers, late);
  }

  /** A timer leaves the queue once. */
  lemma TakeOut(ts: seq<Timer>, i: nat)
    requires InOrder(ts) && i < |ts|
    ensures
      var rest := ts[..i] + ts[i + 1..];
      && InOrder(rest)
      && (forall t :: t in rest ==> t in ts && t.asked != ts[i].asked)
  {
    var rest := ts[..i] + ts[i + 1..];
    assert forall k :: 0 <= k < |rest| ==> rest[k] == ts[if k < i then k else k + 1];
  }

  lemma FireSounds(f: Feed, es: seq<Event>, i: nat)
    requires Kept(f, es) && f == Run(f.self, f.sampleSize, es) && i < |f.timers| && f.timers[i].gen == f.generation
    ensures
      var t := f.timers[i];
      Sound(Delivery(t.sample, t.asked, |es|, f.handlers), es + [Fired(i)], f.self, f.sampleSize)
  {
    var t := f.timers[i];
    assert t in f.timers;
    LongerRun(es, Fired(i), f.self, f.sampleSize);
    StopsGrow(es, t.asked, |es|);
    assert es[..|es|] == es;
  }

  lemma FireKeeps(f: Feed, es: seq<Event>, i: nat)
    requires Kept(f, es) && f == Run(f.self, f.sampleSize, es)
    ensures Kept(Fire(f, i, |es|), es + [Fired(i)])
  {
    LongerRun(es, Fired(i), f.self, f.sampleSize);
    if i < |f.timers| {
      TakeOut(f.timers, i);
      if f.timers[i].gen == f.generation { FireSounds(f, es, i); }
      assert f.timers[i] in f.timers;
      assert forall k :: 0 <= k < |f.deliveries| ==> f.deliveries[k] in f.deliveries;
    }
  }

  lemma {:induction false} RunKeeps(self: string, size: nat, es: seq<Event>)
    ensures Kept(Run(self, size, es), es)
    ensures Run(self, size, es).self == self && Run(self, size, es).sampleSize == size
    decreases |es|
  {
    if es != [] {
      var n := |es| - 1;
      var f := Run(self, size, es[..n]);
      RunKeeps(self, size, es[..n]);
      assert es[..n] + [es[n]] == es;
      StepKeeps(f, es[..n], es[n]);
    }
  }

  lemma StepKeeps(f: Feed, es: seq<Event>, e: Event)
    requires Kept(f, es) && f == Run(f.self, f.sampleSize, es)
    ensures Kept(Step(f, e, |es|), es + [e])
    ensures Step(f, e, |es|).self == f.self && Step(f, e, |es|).sampleSize == f.sampleSize
  {
    match e
    case Requested(s, draws) =>
      if Draws(f, s, draws) { RequestKeeps(f, es, s, draws); } else { OthersKeep(f, es, e, f.handlers); }
    case Stopped(late) => StopKeeps(f, es, late);
    case Fired(i) => FireKeeps(f, es, i);
    case Subscribed(h) => OthersKeep(f, es, e, f.handlers + {h});
    case Unsubscribed(h) => OthersKeep(f, es, e, f.handlers - {h});
  }

  // ----- What the kernel can rely on -----

  /**
   Whatever is delivered was asked for under the same generation: no stop lies between. It is
   a fresh selection of the candidates of that request, it goes to whoever is subscribed when
   it fires, and a request is delivered once at most. Requests are served or reported unavailable.
  */
  lemma DeliveriesAreSound(self: string, size: nat, es: seq<Event>)
    ensures
      var f := Run(self, size, es);
      && (forall d :: d in f.deliveries ==> Sound(d, es, self, size))
      && (forall i, j :: 0 <= i < j < |f.deliveries| ==> f.deliveries[i].asked != f.deliveries[j].asked)
      && f.stats.requests == f.stats.served + f.stats.unavailable && f.stats.failed <= f.stats.unavailable
  {
    RunKeeps(self, size, es);
  }

  /** A served request whose timer fires before any stop is delivered, to everyone subscribed by then. */
  lemma UnstoppedIsDelivered(self: string, size: nat, es: seq<Event>, i: nat)
    requires i < |Run(self, size, es).timers|
    requires forall k :: Run(self, size, es).timers[i].asked <= k < |es| ==> !es[k].Stopped?
    ensures
      var f, t := Run(self, size, es), Run(self, size, es).timers[i];
      var f1 := Run(self, size, es + [Fired(i)]);
      f1.deliveries == f.deliveries + [Delivery(t.sample, t.asked, |es|, f.handlers)]
  {
    RunKeeps(self, size, es);
    var f := Run(self, size, es);
    var t := f.timers[i];
    assert t in f.timers;
    NoStopsBetween(es, t.asked, |es|);
    assert es[..|es|] == es;
    assert (es + [Fired(i)])[..|es|] == es;
  }

  lemma {:induction false} NoStopsBetween(es: seq<Event>, k: nat, n: nat)
    requires k <= n <= |es| && forall i :: k <= i < n ==> !es[i].Stopped?
    ensures StopsIn(es[..k]) == StopsIn(es[..n])
    decreases n
  {
    if k < n {
      NoStopsBetween(es, k, n - 1);
      assert es[..n][..n - 1] == es[..n - 1];
    }
  }

  // ----- What is counted, and who is told -----

  ghost function RequestsOf(es: seq<Event>, want: Supply -> bool, self: string, size: nat): nat
    decreases |es|
  {
    if es == [] then 0
    else
      var n := |es| - 1;
      RequestsOf(es[..n], want, self, size)
      + if es[n].Requested? && want(es[n].supply) && Draws(Run(self, size, es[..n]), es[n].supply, es[n].draws)
        then 1 else 0
  }

  /** Served, unavailable and failed are the requests met by an array, by anything else, and by a fault. */
  lemma {:induction false} StatsAre(self: string, size: nat, es: seq<Event>)
    ensures
      var st := Run(self, size, es).stats;
      && st.served == RequestsOf(es, (s: Supply) => s.Pool?, self, size)
      && st.unavailable == RequestsOf(es, (s: Supply) => !s.Pool?, self, size)
      && st.failed == RequestsOf(es, (s: Supply) => s == Threw || s == Malformed, self, size)
    decreases |es|
  {
    if es != [] { StatsAre(self, size, es[..|es| - 1]); }
  }

  /** A request met by an array reports how many candidates there were and how many it will deliver. */
  lemma RequestReports(f: Feed, items: seq<Option<string>>, draws: seq<nat>, at: nat)
    requires Draws(f, Pool(items), draws)
    ensures
      var st := Request(f, Pool(items), draws, at).stats;
      st.lastPool == |Candidates(items, f.self)| && st.lastSample == Min(f.sampleSize, |Candidates(items, f.self)|)
  {
    CandidatesAre(items, f.self);
    Sampler.PickIsSelection(Candidates(items, f.self), draws);
  }

  /** Does the handler's last subscription or cancellation leave it subscribed? */
  ghost predicate Listening(es: seq<Event>, h: nat)
    decreases |es|
  {
    var n := |es| - 1;
    es != [] &&
    if es[n] == Subscribed(h) then true
    else if es[n] == Unsubscribed(h) then false
    else Listening(es[..n], h)
  }

  lemma {:induction false} HandlersAre(self: string, size: nat, es: seq<Event>, h: nat)
    ensures h in Run(self, size, es).handlers <==> Listening(es, h)
    decreases |es|
  {
    if es != [] { HandlersAre(self, size, es[..|es| - 1], h); }
  }

  /** Every selection of the candidates is the answer to exactly one vector of draws. */
  lemma AnswersAreUniform(f: Feed, items: seq<Option<string>>, sample: seq<string>)
    requires
      var cand := Candidates(items, f.self);
      |sample| == Min(f.sampleSize, |cand|) && Sampler.IsSelection(cand, sample)
    ensures Distinct(Candidates(items, f.self))
    ensures
      var only := Sampler.DrawsFor(Candidates(items, f.self), sample);
      && Draws(f, Pool(items), only)
      && (forall draws, at :: Draws(f, Pool(items), draws) ==>
            var ts := Request(f, Pool(items), draws, at).timers;
            ts[|ts| - 1].sample == sample <==> draws == only)
  {
    CandidatesAre(items, f.self);
    var cand := Candidates(items, f.self);
    var only := Sampler.DrawsFor(cand, sample);
    Sampler.Uniform(cand, sample);
    Sampler.VectorsAreTheValidDraws(|cand|, |sample|, only);
    forall draws, at | Draws(f, Pool(items), draws)
      ensures
        var ts := Request(f, Pool(items), draws, at).timers;
        ts[|ts| - 1].sample == sample <==> draws == only
    {
      Sampler.VectorsAreTheValidDraws(|cand|, |sample|, draws);
    }
  }

  // ----- The class -----

  /** What one request set going. */
  datatype Asked = Asked(answered: bool, timer: Option<Timer>)

  class DirectoryFeed {
    const self: string
    const sampleSize: nat
    var handlers: set<nat>
    var generation: nat
    var stats: Stats
    // the event loop's side of it
    ghost var timers: seq<Timer>
    ghost var deliveries: seq<Delivery>

    ghost function Model(): Feed
      reads this
    {
      Feed(self, sampleSize, handlers, timers, generation, stats, deliveries)
    }

    constructor (self: string, sampleSize: nat)
      ensures Model() == Start(self, sampleSize)
    {
      this.self, this.sampleSize := self, sampleSize;
      handlers, generation, stats := {}, 0, Stats(0, 0, 0, 0, 0, 0);
      timers, deliveries := [], [];
    }

    method Collect(items: seq<Option<string>>) returns (cand: seq<string>)
      ensures cand == Candidates(items, self)
    {
      cand := [];
      var seen: set<string> := {};
      for i := 0 to |items|
        invariant cand == Candidates(items[..i], self)
        invariant forall h :: h in seen <==> h in cand
      {
        assert items[..i + 1][..i] == items[..i];
        if items[i].Some? {
          var h := Lower(items[i].value);
          if IsHex66(h) && h != self && h !in seen {
            seen := seen + {h};
            cand := cand + [h];
          }
        }
      }
      assert items[..|items|] == items;
    }

    method RequestIntroductions(supply: Supply, draws: seq<nat>, at: nat) returns (r: Asked)
      requires Draws(Model(), supply, draws)
      modifies this
      ensures Model() == Request(old(Model()), supply, draws, at)
      ensures r.answered == supply.Pool?
      ensures r.timer == if supply.Pool? then Some(timers[|timers| - 1]) else None
    {
      stats := stats.(requests := stats.requests + 1);
      if !supply.Pool? {
        stats := stats.(unavailable := stats.unavailable + 1);
        if !supply.NoSource? {
          stats := stats.(failed := stats.failed + 1);
        }
        return Asked(false, None);
      }
      var cand := Collect(supply.items);
      var sample := Sampler.Sample(cand, draws);
      stats := stats.(served := stats.served + 1, lastPool := |cand|, lastSample := |sample|);
      timers := timers + [Timer(generation, sample, at)];
      r := Asked(true, Some(Timer(generation, sample, at)));
    }

    method StopFeed(ghost late: set<nat>)
      modifies this
      ensures Model() == Stop(old(Model()), late)
    {
      generation := generation + 1;
      timers := Keep(timers, late);
    }

    /** The timer's callback: the handlers told are the ones there now. */
    method Deliver(t: Timer, ghost i: nat, ghost at: nat) returns (told: set<nat>)
      requires i < |timers| && timers[i] == t
      modifies this
      ensures Model() == Fire(old(Model()), i, at)
      ensures told == if t.gen == generation then handlers else {}
    {
      timers := timers[..i] + timers[i + 1..];
      told := {};
      if t.gen == generation {
        told := handlers;
        deliveries := deliveries + [Delivery(t.sample, t.asked, at, handlers)];
      }
    }
  }
}
