/**
  Two caches with the same shape: identities by authorization info, and users of the platform by
  identity. A call looks its key up, asks the source on a miss, and stores the answer if it is one
  of those that are cached. Calls interleave, and time passes between their steps.
 */
module ExpiringCache {
  import opened Common

  const TTL := 120

  datatype Entry<A> = Entry(value: A, expiry: int)

  type Cache<A> = map<string, Entry<A>>

  function Get<A>(cache: Cache<A>, key: string, now: int): Option<A> {
    if key in cache && now < cache[key].expiry then Some(cache[key].value) else None
  }

  function Set<A>(cache: Cache<A>, key: string, value: A, now: int): Cache<A> {
    cache[key := Entry(value, now + TTL)]
  }

  /** What is asked is turned into a key; some answers are cached and some are not. */
  datatype Config<!Q(!new), !A(!new)> = Config(keyOf: Q -> string, cached: A -> bool)

  /** A call that is asking since some time, or one that has its answer and is about to store it. */
  datatype Pending<Q, A> =
    | Asking(q: Q, since: int)
    | Storing(q: Q, since: int, a: A, answeredAt: int)

  datatype Event<Q, A> =
    | Answered(call: nat, q: Q, a: A, at: int)
    | Stored(key: string, a: A, answeredAt: int, storedAt: int)
    | Replied(call: nat, q: Q, a: A, since: int, at: int)

  datatype World<Q, A> = World(now: int, cache: Cache<A>, pending: map<nat, Pending<Q, A>>, log: seq<Event<Q, A>>)

  datatype Step<Q, A> =
    | Tick(seconds: nat)
    | Lookup(call: nat, q: Q)
    | Answer(call: nat, a: A)
    | Store(call: nat)

  function Next<Q(!new), A(!new)>(cfg: Config<Q, A>, w: World<Q, A>, step: Step<Q, A>): World<Q, A> {
    match step
    case Tick(seconds) => w.(now := w.now + seconds)
    case Lookup(call, q) =>
      if call in w.pending then w
      else
        var hit := Get(w.cache, cfg.keyOf(q), w.now);
        if hit.Some? then w.(log := w.log + [Replied(call, q, hit.value, w.now, w.now)])
        else w.(pending := w.pending[call := Asking(q, w.now)])
    case Answer(call, a) =>
      if call !in w.pending || !w.pending[call].Asking? then w
      else
        var p := w.pending[call];
        var answered := w.log + [Answered(call, p.q, a, w.now)];
        if cfg.cached(a) then w.(pending := w.pending[call := Storing(p.q, p.since, a, w.now)], log := answered)
        else w.(pending := w.pending - {call}, log := answered + [Replied(call, p.q, a, p.since, w.now)])
    case Store(call) =>
      if call !in w.pending || !w.pending[call].Storing? then w
      else
        var p := w.pending[call];
        w.(cache := Set(w.cache, cfg.keyOf(p.q), p.a, w.now),
           pending := w.pending - {call},
           log := w.log + [Stored(cfg.keyOf(p.q), p.a, p.answeredAt, w.now), Replied(call, p.q, p.a, p.since, w.now)])
  }

  function After<Q(!new), A(!new)>(cfg: Config<Q, A>, steps: seq<Step<Q, A>>): World<Q, A> {
    if steps == [] then World(0, map[], map[], [])
    else Next(cfg, After(cfg, steps[..|steps| - 1]), steps[|steps| - 1])
  }

  /**
    The source gave the answer to this very call, between its beginning and its reply; only storing it came in
    between.
   */
  ghost predicate Fresh<Q(!new), A(!new)>(log: seq<Event<Q, A>>, key: string, call: nat, q: Q, a: A, since: int,
      at: int)
  {
    exists asked :: since <= asked <= at && Answered(call, q, a, asked) in log &&
      (asked == at || Stored(key, a, asked, at) in log)
  }

  /** The answer was stored less than the lifetime of an entry ago. */
  ghost predicate Remembered<Q(!new), A(!new)>(log: seq<Event<Q, A>>, key: string, a: A, at: int) {
    exists answered, stored :: stored <= at < stored + TTL && Stored(key, a, answered, stored) in log
  }

  /** Some call got the answer from the source, for a question with the same key. */
  ghost predicate Given<Q(!new), A(!new)>(cfg: Config<Q, A>, log: seq<Event<Q, A>>, key: string, a: A, at: int) {
    exists call, q :: cfg.keyOf(q) == key && Answered(call, q, a, at) in log
  }

  ghost predicate Sound<Q(!new), A(!new)>(cfg: Config<Q, A>, log: seq<Event<Q, A>>, e: Event<Q, A>) {
    match e
    case Answered(_, _, _, _) => true
    case Stored(key, a, answeredAt, storedAt) =>
      cfg.cached(a) && answeredAt <= storedAt && Given(cfg, log, key, a, answeredAt)
    case Replied(call, q, a, since, at) =>
      since <= at && (Fresh(log, cfg.keyOf(q), call, q, a, since, at) || Remembered(log, cfg.keyOf(q), a, at))
  }

  ghost predicate Backed<Q(!new), A(!new)>(log: seq<Event<Q, A>>, key: string, entry: Entry<A>, now: int) {
    exists answered, stored :: stored == entry.expiry - TTL <= now && Stored(key, entry.value, answered, stored) in log
  }

  ghost predicate Begun<Q(!new), A(!new)>(cfg: Config<Q, A>, log: seq<Event<Q, A>>, call: nat, p: Pending<Q, A>,
      now: int)
  {
    && p.since <= now
    && (p.Storing? ==>
      cfg.cached(p.a) && p.since <= p.answeredAt <= now && Answered(call, p.q, p.a, p.answeredAt) in log)
  }

  ghost predicate Invariant<Q(!new), A(!new)>(cfg: Config<Q, A>, w: World<Q, A>) {
    && (forall e :: e in w.log ==> Sound(cfg, w.log, e))
    && (forall k :: k in w.cache ==> Backed(w.log, k, w.cache[k], w.now))
    && (forall c :: c in w.pending ==> Begun(cfg, w.log, c, w.pending[c], w.now))
  }

  lemma LookupStep<Q(!new), A(!new)>(cfg: Config<Q, A>, w: World<Q, A>, call: nat, q: Q)
    requires Invariant(cfg, w)
    ensures Invariant(cfg, Next(cfg, w, Lookup(call, q)))
  {
  }

  lemma AnswerStep<Q(!new), A(!new)>(cfg: Config<Q, A>, w: World<Q, A>, call: nat, a: A)
    requires Invariant(cfg, w)
    ensures Invariant(cfg, Next(cfg, w, Answer(call, a)))
  {
  }

  lemma StoreStep<Q(!new), A(!new)>(cfg: Config<Q, A>, w: World<Q, A>, call: nat)
    requires Invariant(cfg, w)
    ensures Invariant(cfg, Next(cfg, w, Store(call)))
  {
  }

  lemma {:induction false} InvariantHolds<Q(!new), A(!new)>(cfg: Config<Q, A>, steps: seq<Step<Q, A>>)
    ensures Invariant(cfg, After(cfg, steps))
  {
    if steps != [] {
      var w, step := After(cfg, steps[..|steps| - 1]), steps[|steps| - 1];
      InvariantHolds(cfg, steps[..|steps| - 1]);
      match step
      case Tick(_) =>
      case Lookup(call, q) => LookupStep(cfg, w, call, q);
      case Answer(call, a) => AnswerStep(cfg, w, call, a);
      case Store(call) => StoreStep(cfg, w, call);
    }
  }

  /**
    Every reply, in every interleaving, is either the source's answer to that call or a cached kind of
    answer that the source gave to a question with the same key and that was stored under 120 seconds ago.
   */
  lemma RepliesAreJustified<Q(!new), A(!new)>(cfg: Config<Q, A>, steps: seq<Step<Q, A>>, call: nat, q: Q, a: A,
      since: int, at: int)
    requires Replied(call, q, a, since, at) in After(cfg, steps).log
    ensures
      var log := After(cfg, steps).log;
      || Fresh(log, cfg.keyOf(q), call, q, a, since, at)
      || (cfg.cached(a) && exists c, q', answered, stored ::
            && answered <= stored <= at < stored + TTL
            && Stored(cfg.keyOf(q), a, answered, stored) in log
            && cfg.keyOf(q') == cfg.keyOf(q)
            && Answered(c, q', a, answered) in log)
  {
    InvariantHolds(cfg, steps);
    var log := After(cfg, steps).log;
    assert Sound(cfg, log, Replied(call, q, a, since, at));
    if !Fresh(log, cfg.keyOf(q), call, q, a, since, at) {
      var answered, stored :| stored <= at < stored + TTL && Stored(cfg.keyOf(q), a, answered, stored) in log;
      assert Sound(cfg, log, Stored(cfg.keyOf(q), a, answered, stored));
      var c, q' :| cfg.keyOf(q') == cfg.keyOf(q) && Answered(c, q', a, answered) in log;
    }
  }

  // ---------------------------------------------------------------- how old a reply can be

  /** No call takes longer than `d` from its answer to having stored it. */
  ghost predicate StoredWithin<Q(!new), A(!new)>(log: seq<Event<Q, A>>, d: int) {
    forall e :: e in log && e.Stored? ==> e.storedAt - e.answeredAt <= d
  }

  /** At that time the source has not given the answer, for the key, for the lifetime of an entry. */
  ghost predicate Outdated<Q(!new), A(!new)>(cfg: Config<Q, A>, log: seq<Event<Q, A>>, key: string, a: A, at: int) {
    forall c, q, asked :: Answered(c, q, a, asked) in log && cfg.keyOf(q) == key ==> at - asked >= TTL
  }

  lemma PromptRepliesAreYoung<Q(!new), A(!new)>(cfg: Config<Q, A>, steps: seq<Step<Q, A>>, call: nat, q: Q, a: A,
      since: int, at: int)
    requires Replied(call, q, a, since, at) in After(cfg, steps).log && StoredWithin(After(cfg, steps).log, 0)
    ensures !Outdated(cfg, After(cfg, steps).log, cfg.keyOf(q), a, at)
  {
    var log := After(cfg, steps).log;
    RepliesAreJustified(cfg, steps, call, q, a, since, at);
    if Fresh(log, cfg.keyOf(q), call, q, a, since, at) {
      var asked :| since <= asked <= at && Answered(call, q, a, asked) in log &&
        (asked == at || Stored(cfg.keyOf(q), a, asked, at) in log);
    } else {
      var c, q', answered, stored :|
        && answered <= stored <= at < stored + TTL
        && Stored(cfg.keyOf(q), a, answered, stored) in log
        && cfg.keyOf(q') == cfg.keyOf(q)
        && Answered(c, q', a, answered) in log;
    }
  }

  /** A call is answered, takes `d` to store the answer, and is followed by another at the end of the entry's life. */
  function SlowRun<Q(!new), A(!new)>(q: Q, a: A, d: nat): seq<Step<Q, A>> {
    [Lookup(0, q), Answer(0, a), Tick(d), Store(0), Tick(TTL - 1), Lookup(1, q)]
  }

  lemma AfterOne<Q(!new), A(!new)>(cfg: Config<Q, A>, steps: seq<Step<Q, A>>, step: Step<Q, A>)
    ensures After(cfg, steps + [step]) == Next(cfg, After(cfg, steps), step)
  {
    assert (steps + [step])[..|steps|] == steps;
  }

  lemma SlowRunReplies<Q(!new), A(!new)>(cfg: Config<Q, A>, q: Q, a: A, d: nat)
    requires cfg.cached(a)
    ensures After(cfg, SlowRun(q, a, d)).log ==
            [Answered(0, q, a, 0), Stored(cfg.keyOf(q), a, 0, d), Replied(0, q, a, 0, d),
              Replied(1, q, a, d + TTL - 1, d + TTL - 1)]
  {
    var s1: seq<Step<Q, A>> := [Lookup(0, q)];
    var s2, k := s1 + [Answer(0, a)], cfg.keyOf(q);
    var s3 := s2 + [Tick(d)];
    var s4 := s3 + [Store(0)];
    var s5 := s4 + [Tick(TTL - 1)];
    assert s5 + [Lookup(1, q)] == SlowRun(q, a, d);
    assert [] + s1 == s1;
    AfterOne(cfg, [], Lookup(0, q));
    AfterOne(cfg, s1, Answer(0, a));
    AfterOne(cfg, s2, Tick(d));
    AfterOne(cfg, s3, Store(0));
    AfterOne(cfg, s4, Tick(TTL - 1));
    AfterOne(cfg, s5, Lookup(1, q));
    assert After(cfg, s3) == World(d, map[], map[0 := Storing(q, 0, a, 0)], [Answered(0, q, a, 0)]);
    assert After(cfg, s4).cache == map[k := Entry(a, d + TTL)];
    assert After(cfg, s4).pending == map[];
    assert After(cfg, s4).log == [Answered(0, q, a, 0), Stored(k, a, 0, d), Replied(0, q, a, 0, d)];
  }

  /**
    A reply that the source has not given for the lifetime of an entry is possible exactly when some call may
    take time to store its answer, however little.
   */
  lemma OutdatedReplyIff<Q(!new), A(!new)>(cfg: Config<Q, A>, q: Q, a: A, d: nat)
    requires cfg.cached(a)
    ensures (exists steps, call, since, at ::
      StoredWithin(After(cfg, steps).log, d) && Replied(call, q, a, since, at) in After(cfg, steps).log
                                              && Outdated(cfg, After(cfg, steps).log, cfg.keyOf(q), a, at)) <==> d > 0
  {
    if d > 0 {
      SlowRunReplies(cfg, q, a, d);
      var steps := SlowRun(q, a, d);
      var log := After(cfg, steps).log;
      assert log[3] == Replied(1, q, a, d + TTL - 1, d + TTL - 1);
      assert Outdated(cfg, log, cfg.keyOf(q), a, d + TTL - 1);
      assert StoredWithin(log, d);
    } else {
      forall steps, call, since, at | StoredWithin(After(cfg, steps).log, 0) &&
        Replied(call, q, a, since, at) in After(cfg, steps).log
        ensures !Outdated(cfg, After(cfg, steps).log, cfg.keyOf(q), a, at)
      {
        PromptRepliesAreYoung(cfg, steps, call, q, a, since, at);
      }
    }
  }
}
