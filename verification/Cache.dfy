/** The Redis-facing half of the cache (app/cache/article_cache.py): three gates, a per-request
    latch, and failures that never escape. The server, the database and every other request are
    the `World`: it answers each event as it likes. */
module Cache {
  import opened Articles
  import opened Protocol
  import Breaker

  // --- commands and the world -----------------------------------------------------------------------

  datatype Command =
    | ReadGenerations(whose: Option<int>)
    | ReadKey(key: Key)
    | WriteKey(key: Key, value: Value)
    | ClaimLock(key: Key)
    | FreeLock(key: Key)
    | DropBody(id: int)
    | BumpAll
    | BumpOne(author: int)

  /** Everything a request does: commands sent to Redis, commands a gate held back, and loads
      from the database. */
  datatype Event = Sent(command: Command) | Held(command: Command) | Queried(target: Target)

  /** What sits under a key. `Garbled` is a body the service cannot parse. */
  datatype Cached = Absent | Garbled | Stored(value: Value)

  /** A command fails, or it ends in an exception that is no CACHE_FAILURES (`Cut`: a cancellation, or
      any other), or it is answered; each command looks at the part of the answer it asked for. */
  datatype Reply = Failure | Cut(cancelled: bool) | Answer(cached: Cached, generations: (nat, nat), granted: bool)

  /** What the database says to a load: a value, no such article, or an exception. */
  datatype Row = Row(value: Value) | NoRow | Trouble(code: int)

  class World {
    const redis: nat -> Reply
    const database: nat -> Row
    /** the process-wide breaker of Redis */
    const breaker: Breaker.CircuitBreaker
    /** how long event i takes, in microseconds: a command held back takes time, too */
    const delays: nat -> nat
    /** event i is answered by redis(i) or database(i) */
    var log: seq<Event>
    var now: real
    /** when event i began */
    ghost var times: seq<real>

    constructor (redis: nat -> Reply, database: nat -> Row, breaker: Breaker.CircuitBreaker, delays: nat -> nat,
                 now: real)
      ensures this.redis == redis && this.database == database && this.breaker == breaker
      ensures this.delays == delays && log == [] && this.now == now && times == []
    {
      this.redis, this.database, this.breaker, this.delays := redis, database, breaker, delays;
      log, this.now, times := [], now, [];
    }

    function Seconds(i: nat): (d: real)
      ensures d >= 0.0
    {
      delays(i) as real / 1000000.0
    }

    /** Nothing is promised about the breaker: other requests ran meanwhile. */
    method Send(c: Command) returns (r: Reply)
      modifies this, breaker
      ensures log == old(log) + [Sent(c)] && r == redis(|old(log)|) && now == old(now) + Seconds(|old(log)|)
      ensures times == old(times) + [old(now)]
    {
      times := times + [now];
      r, now := redis(|log|), now + Seconds(|log|);
      log := log + [Sent(c)];
    }

    method Hold(c: Command)
      modifies this
      ensures log == old(log) + [Held(c)] && now == old(now) + Seconds(|old(log)|)
      ensures times == old(times) + [old(now)]
    {
      times := times + [now];
      now := now + Seconds(|log|);
      log := log + [Held(c)];
    }

    method Load(t: Target) returns (r: Row)
      modifies this, breaker
      ensures log == old(log) + [Queried(t)] && r == database(|old(log)|) && now == old(now) + Seconds(|old(log)|)
      ensures times == old(times) + [old(now)]
    {
      times := times + [now];
      r, now := database(|log|), now + Seconds(|log|);
      log := log + [Queried(t)];
    }

    method Sleep(seconds: real)
      requires seconds >= 0.0
      modifies this`now, breaker
      ensures now >= old(now) + seconds
    {
      now := now + seconds;
    }
  }

  // --- reading the log ------------------------------------------------------------------------------

  /** Event i is an attempt at `c`, sent or held back. */
  predicate Tries(log: seq<Event>, i: nat, c: Command) {
    i < |log| && (log[i] == Sent(c) || log[i] == Held(c))
  }

  /** What the request hears of event i: a command held back looks like a failed one. */
  function Heard(redis: nat -> Reply, log: seq<Event>, i: nat): Reply
    requires i < |log|
  {
    if log[i].Sent? then redis(i) else Failure
  }

  predicate Tried(before: seq<Event>, after: seq<Event>, c: Command) {
    after == before + [Sent(c)] || after == before + [Held(c)]
  }

  // --- the latch ------------------------------------------------------------------------------------

  predicate FailedAt(redis: nat -> Reply, log: seq<Event>, i: nat)
    requires i < |log|
  {
    log[i].Sent? && redis(i).Failure?
  }

  /** Since event `at`: no command follows a failed one, and the latch is closed exactly when one failed. */
  predicate Latched(redis: nat -> Reply, log: seq<Event>, at: nat, degraded: bool) {
    && (forall i, j :: at <= i < j < |log| && FailedAt(redis, log, i) ==> !log[j].Sent?)
    && (degraded <==> exists i :: at <= i < |log| && FailedAt(redis, log, i))
  }

  lemma LatchedMore(redis: nat -> Reply, log: seq<Event>, at: nat, degraded: bool, e: Event)
    requires at <= |log| && Latched(redis, log, at, degraded) && (degraded ==> !e.Sent?)
    ensures Latched(redis, log + [e], at, degraded || (e.Sent? && redis(|log|).Failure?))
  {
    var log' := log + [e];
    assert forall i :: 0 <= i < |log| ==> FailedAt(redis, log', i) == FailedAt(redis, log, i);
    if e.Sent? && redis(|log|).Failure? {
      assert FailedAt(redis, log', |log|);
    }
    if degraded {
      var i :| at <= i < |log| && FailedAt(redis, log, i);
      assert FailedAt(redis, log', i);
    }
  }

  /** How a cache method ends for its caller: it returns, or an exception comes out of it. */
  datatype Fate = Through | Crashed | Cancelled

  function FateOf(r: Reply): Fate {
    if !r.Cut? then Through else if r.cancelled then Cancelled else Crashed
  }

  /** One request's view of the cache. */
  class ArticleCache {
    const enabled: bool
    const world: World
    var degraded: bool
    /** permits the breaker granted this instance, and what became of them */
    ghost var permits: nat
    ghost var successes: nat
    ghost var failures: nat
    ghost var cuts: nat
    ghost const since: nat

    /** No command follows a failed one; at most one failure is reported; every permit is reported
        once, unless an exception passed through while it was held. */
    ghost predicate Valid()
      reads this, world
    {
      && |world.times| == |world.log|
      && since <= |world.log| && Latched(world.redis, world.log, since, degraded)
      && failures == (if degraded then 1 else 0)
      && permits == successes + failures + cuts
      && (!enabled ==> forall i :: since <= i < |world.log| ==> !world.log[i].Sent?)
    }

    constructor (enabled: bool, world: World)
      requires |world.times| == |world.log|
      ensures Valid() && this.enabled == enabled && this.world == world
      ensures !degraded && permits == 0 && since == |world.log|
    {
      this.enabled, this.world, degraded := enabled, world, false;
      permits, successes, failures, cuts, since := 0, 0, 0, 0, |world.log|;
    }

    /** The three gates, cheapest first. */
    method Live() returns (ok: bool)
      modifies this`permits, world.breaker
      ensures ok == (enabled && !degraded
                     && Breaker.Admits(world.breaker.config, old(world.breaker.State()), world.now))
      ensures world.breaker.State() == if enabled && !degraded
        then Breaker.Asked(world.breaker.config, old(world.breaker.State()), world.now)
        else old(world.breaker.State())
      ensures permits == old(permits) + if ok then 1 else 0
    {
      if !enabled || degraded {
        return false;
      }
      ok := world.breaker.Allow(world.now);
      if ok { permits := permits + 1; }
    }

    method Succeed()
      modifies this`successes, world.breaker
      ensures world.breaker.State() == Breaker.Succeeded(old(world.breaker.State()))
      ensures successes == old(successes) + 1
    {
      world.breaker.RecordSuccess();
      successes := successes + 1;
    }

    method Degrade()
      modifies this`degraded, this`failures, world.breaker
      ensures world.breaker.State() == Breaker.Failed(world.breaker.config, old(world.breaker.State()), world.now)
      ensures degraded && failures == old(failures) + 1
    {
      degraded := true;
      world.breaker.RecordFailure(world.now);
      failures := failures + 1;
    }

    /** What an answered, failed or cancelled command leaves behind. */
    method Report(r: Reply)
      modifies this`degraded, this`successes, this`failures, this`cuts, world.breaker
      ensures degraded == (old(degraded) || r.Failure?)
      ensures failures == old(failures) + if r.Failure? then 1 else 0
      ensures successes + cuts == old(successes + cuts) + if r.Failure? then 0 else 1
      ensures var b, c := old(world.breaker.State()), world.breaker.config;
        world.breaker.State() == match r
          case Failure => Breaker.Failed(c, b, world.now)
          case Cut(_) => b
          case Answer(_, _, _) => Breaker.Succeeded(b)
    {
      match r
      case Failure => Degrade();
      case Cut(_) => cuts := cuts + 1;
      case Answer(_, _, _) => Succeed();
    }

    /** One gated command. `Failure` stands for refused, too: callers fall through alike. `met` is
        the breaker the report met, after whatever other requests did to it during the wait. */
    method Try(c: Command) returns (r: Reply, ghost met: Breaker.Core)
      requires Valid()
      modifies this, world, world.breaker
      ensures Valid() && world.now == old(world.now) + world.Seconds(|old(world.log)|)
      ensures world.times == old(world.times) + [old(world.now)]
      ensures Tried(old(world.log), world.log, c)
      ensures r == Heard(world.redis, world.log, |old(world.log)|)
      ensures world.log[|old(world.log)|].Sent? <==> (enabled && !old(degraded)
        && Breaker.Admits(world.breaker.config, old(world.breaker.State()), old(world.now)))
      ensures world.log[|old(world.log)|].Held? && (!enabled || old(degraded))
        ==> world.breaker.State() == old(world.breaker.State())
      ensures world.log[|old(world.log)|].Held? && enabled && !old(degraded)
        ==> world.breaker.State() == Breaker.Asked(world.breaker.config, old(world.breaker.State()), old(world.now))
      ensures r.Cut? ==> world.breaker.State() == met
      ensures world.log[|old(world.log)|].Sent? && r.Failure?
        ==> world.breaker.State() == Breaker.Failed(world.breaker.config, met, world.now)
      ensures r.Answer? ==> world.breaker.State() == Breaker.Succeeded(met)
    {
      ghost var log := world.log;
      var ok := Live();
      met := world.breaker.State();
      if !ok {
        LatchedMore(world.redis, log, since, degraded, Held(c));
        world.Hold(c);
        return Failure, met;
      }
      LatchedMore(world.redis, log, since, degraded, Sent(c));
      r := world.Send(c);
      met := world.breaker.State();
      Report(r);
    }

    /** `_get` and `peek`: Absent on a miss, a closed gate or a failure. */
    method Read(key: Key) returns (v: Cached, cut: bool)
      requires Valid()
      modifies this, world, world.breaker
      ensures Valid() && world.now >= old(world.now)
      ensures world.times == old(world.times) + [old(world.now)]
      ensures Tried(old(world.log), world.log, ReadKey(key))
      ensures var r := Heard(world.redis, world.log, |old(world.log)|);
        cut == r.Cut? && v == if r.Answer? then r.cached else Absent
    {
      var r, _ := Try(ReadKey(key));
      cut, v := r.Cut?, if r.Answer? then r.cached else Absent;
    }

    /** `get_generations`: zero for a counter that is unset or unreachable. */
    method Generations(whose: Option<int>) returns (g: (nat, nat), cut: bool)
      requires Valid()
      modifies this, world, world.breaker
      ensures Valid() && world.now >= old(world.now)
      ensures world.times == old(world.times) + [old(world.now)]
      ensures Tried(old(world.log), world.log, ReadGenerations(whose))
      ensures var r := Heard(world.redis, world.log, |old(world.log)|);
        && cut == r.Cut?
        && g.0 == (if r.Answer? then r.generations.0 else 0)
        && g.1 == (if r.Answer? && whose.Some? then r.generations.1 else 0)
    {
      var r, _ := Try(ReadGenerations(whose));
      cut := r.Cut?;
      g := if r.Answer? then (r.generations.0, if whose.Some? then r.generations.1 else 0) else (0, 0);
    }

    method Write(key: Key, value: Value) returns (cut: bool)
      requires Valid()
      modifies this, world, world.breaker
      ensures Valid() && world.now >= old(world.now)
      ensures world.times == old(world.times) + [old(world.now)]
      ensures Tried(old(world.log), world.log, WriteKey(key, value))
      ensures cut == Heard(world.redis, world.log, |old(world.log)|).Cut?
    {
      var r, _ := Try(WriteKey(key, value));
      cut := r.Cut?;
    }

    /** `acquire_lock`: true for the winner, and whenever the lock is unavailable. */
    method Claim(key: Key) returns (won: bool, cut: bool)
      requires Valid()
      modifies this, world, world.breaker
      ensures Valid() && world.now >= old(world.now)
      ensures world.times == old(world.times) + [old(world.now)]
      ensures Tried(old(world.log), world.log, ClaimLock(key))
      ensures var r := Heard(world.redis, world.log, |old(world.log)|);
        cut == r.Cut? && won == Wins(r)
    {
      var r, _ := Try(ClaimLock(key));
      cut, won := r.Cut?, Wins(r);
    }

    method Free(key: Key) returns (cut: bool)
      requires Valid()
      modifies this, world, world.breaker
      ensures Valid() && world.now >= old(world.now)
      ensures world.times == old(world.times) + [old(world.now)]
      ensures Tried(old(world.log), world.log, FreeLock(key))
      ensures cut == Heard(world.redis, world.log, |old(world.log)|).Cut?
    {
      var r, _ := Try(FreeLock(key));
      cut := r.Cut?;
    }

    method InvalidateArticle(id: int) returns (fate: Fate)
      requires Valid()
      modifies this, world, world.breaker
      ensures Valid() && world.now >= old(world.now)
      ensures world.times == old(world.times) + [old(world.now)]
      ensures Tried(old(world.log), world.log, DropBody(id))
      ensures fate == FateOf(Heard(world.redis, world.log, |old(world.log)|))
    {
      var r, _ := Try(DropBody(id));
      fate := FateOf(r);
    }

    /** Both INCRs under one permit, the second only after the first was answered. */
    method BumpGenerations(author: int) returns (fate: Fate)
      requires Valid()
      modifies this, world, world.breaker
      ensures Valid() && world.now >= old(world.now)
      ensures Bumped(world.redis, old(world.log), world.log, author)
      ensures fate == FateOf(Heard(world.redis, world.log, |world.log| - 1))
    {
      ghost var log := world.log;
      var ok := Live();
      if !ok {
        LatchedMore(world.redis, log, since, degraded, Held(BumpAll));
        world.Hold(BumpAll);
        return Through;
      }
      LatchedMore(world.redis, log, since, degraded, Sent(BumpAll));
      var r := world.Send(BumpAll);
      if !r.Answer? {
        Report(r);
        return FateOf(r);
      }
      LatchedMore(world.redis, log + [Sent(BumpAll)], since, degraded, Sent(BumpOne(author)));
      r := world.Send(BumpOne(author));
      assert log + [Sent(BumpAll)] + [Sent(BumpOne(author))] == log + [Sent(BumpAll), Sent(BumpOne(author))];
      Report(r);
      fate := FateOf(r);
    }
  }

  function CachedIn(r: Reply): Cached {
    if r.Answer? then r.cached else Absent
  }

  predicate Wins(r: Reply) {
    r.Failure? || (r.Answer? && r.granted)
  }

  /** The author's counter moves only after the global one did. */
  predicate Bumped(redis: nat -> Reply, before: seq<Event>, after: seq<Event>, author: int) {
    if after == before + [Sent(BumpAll), Sent(BumpOne(author))] then redis(|before|).Answer?
    else Tried(before, after, BumpAll) && !Heard(redis, after, |before|).Answer?
  }

  /** A refusal by the breaker does not latch: under every configuration a request may have its generation
      read held back and the lookup after it sent. */
  method RefusalDoesNotLatch(c: Breaker.Config, key: Key, redis: nat -> Reply, database: nat -> Row)
    returns (cache: ArticleCache)
    requires c.Valid()
    ensures fresh(cache) && cache.Valid()
    ensures cache.world.log == [Held(ReadGenerations(None)), Sent(ReadKey(key))]
  {
    var breaker := new Breaker.CircuitBreaker(c);
    var failures := 0;
    while failures < c.threshold
      invariant breaker.config == c && failures <= c.threshold
      invariant failures < c.threshold ==> breaker.State() == Breaker.FRESH.(failures := failures)
      invariant failures == c.threshold ==> breaker.State() == Breaker.Opened(0.0)
    {
      breaker.RecordFailure(0.0);
      failures := failures + 1;
    }
    var reset := (c.reset.Floor + 1) * 1000000;
    var world := new World(redis, database, breaker, i => reset, 0.0);
    cache := new ArticleCache(true, world);
    var _, _ := cache.Try(ReadGenerations(None));
    assert world.now >= c.reset;
    var _, _ := cache.Try(ReadKey(key));
  }
}
