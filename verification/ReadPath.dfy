/** The read path of one request (app/services/article_service.py `get`, `list_articles`,
    `_await_loader`): cache, single flight, database, cache. */
module ReadPath {
  import opened Articles
  import opened Protocol
  import opened Cache

  /** What the caller gets; `Killed` is a cancellation, or any other exception the cache does not catch,
      passing through. */
  datatype Outcome = Served(value: Value) | NotFound | Raised(code: int) | Killed

  /** _POLL_INTERVAL_SECONDS */
  const POLL := 0.02

  function Uncached(row: Row): (out: Outcome)
    ensures (out.Served? <==> row.Row?) && (out.NotFound? <==> row.NoRow?) && (out.Raised? <==> row.Trouble?)
    ensures row.Row? ==> out.value == row.value
    ensures row.Trouble? ==> out.code == row.code
  {
    match row
    case Row(v) => Served(v)
    case NoRow => NotFound
    case Trouble(code) => Raised(code)
  }

  predicate Hits(r: Reply) {
    r.Answer? && r.cached.Stored?
  }

  // --- the events of a read -------------------------------------------------------------------------

  /** The read ends after event `end - 1` with `out`, the lock released first if this request won it. */
  predicate Ends(redis: nat -> Reply, log: seq<Event>, end: nat, k: Key, won: bool, result: Outcome, out: Outcome) {
    if won then
      && |log| == end + 1 && Tries(log, end, FreeLock(k))
      && out == if Heard(redis, log, end).Cut? then Killed else result
    else |log| == end && out == result
  }

  /** From the load at event m on. */
  predicate Loads(redis: nat -> Reply, database: nat -> Row, log: seq<Event>, m: nat, target: Target, k: Key,
                  won: bool, out: Outcome)
  {
    && m < |log| && log[m] == Queried(target)
    && if database(m).Row? then
         && Tries(log, m + 1, WriteKey(k, database(m).value))
         && Ends(redis, log, m + 2, k, won,
                 if Heard(redis, log, m + 1).Cut? then Killed else Uncached(database(m)), out)
       else Ends(redis, log, m + 1, k, won, Uncached(database(m)), out)
  }

  /** Events `from` to `to` are polls that found nothing. */
  predicate PolledInVain(redis: nat -> Reply, log: seq<Event>, from: nat, to: nat, k: Key) {
    && from <= to <= |log|
    && forall i :: from <= i < to ==> Tries(log, i, ReadKey(k)) && !Heard(redis, log, i).Cut?
                                      && CachedIn(Heard(redis, log, i)).Absent?
  }

  lemma StillInVain(redis: nat -> Reply, log: seq<Event>, more: seq<Event>, from: nat, to: nat, k: Key)
    requires PolledInVain(redis, log, from, to, k) && log <= more
    ensures PolledInVain(redis, more, from, to, k)
  {
    forall i | from <= i < to
      ensures Tries(more, i, ReadKey(k)) && Heard(redis, more, i) == Heard(redis, log, i)
    {
      assert more[i] == log[i] && Tries(log, i, ReadKey(k));
    }
  }

  /** A whole read of key k that began at event `at` and polled `polls` times. */
  predicate Reads(redis: nat -> Reply, database: nat -> Row, log: seq<Event>, at: nat, target: Target, k: Key,
                  polls: nat, out: Outcome)
  {
    && Tries(log, at, ReadKey(k))
    && var get := Heard(redis, log, at);
    if get.Cut? || Hits(get) then
      |log| == at + 1 && polls == 0 && out == (if get.Cut? then Killed else Served(get.cached.value))
    else Claims(redis, database, log, at + 1, target, k, polls, out)
  }

  /** After the miss: single flight. */
  predicate Claims(redis: nat -> Reply, database: nat -> Row, log: seq<Event>, at: nat, target: Target, k: Key,
                   polls: nat, out: Outcome)
  {
    && Tries(log, at, ClaimLock(k))
    && var claim := Heard(redis, log, at);
    if claim.Cut? then |log| == at + 1 && polls == 0 && out == Killed
    else if Wins(claim) then polls == 0 && Loads(redis, database, log, at + 1, target, k, true, out)
    else Waits(redis, database, log, at + 1, target, k, polls, out)
  }

  /** A loser: polls in vain, and then either a last poll that settles it or the load. */
  predicate Waits(redis: nat -> Reply, database: nat -> Row, log: seq<Event>, at: nat, target: Target, k: Key,
                  polls: nat, out: Outcome)
  {
    || (PolledInVain(redis, log, at, at + polls, k)
        && Loads(redis, database, log, at + polls, target, k, false, out))
    || (polls > 0 && PolledInVain(redis, log, at, at + polls - 1, k) && Tries(log, at + polls - 1, ReadKey(k))
        && var last := Heard(redis, log, at + polls - 1);
        if last.Answer? && last.cached.Garbled? then Loads(redis, database, log, at + polls, target, k, false, out)
        else (last.Cut? || Hits(last)) && |log| == at + polls
             && out == if last.Cut? then Killed else Served(last.cached.value))
  }

  predicate GarbledAt(redis: nat -> Reply, log: seq<Event>, i: nat) {
    i < |log| && log[i].Sent? && redis(i).Answer? && redis(i).cached.Garbled?
  }

  /** A request that lost the claim at event `claim` loads only after a poll found something it could not
      parse, or once the timeout has passed; and then not without having polled. */
  predicate Patient(redis: nat -> Reply, log: seq<Event>, times: seq<real>, claim: nat, timeout: real) {
    && |times| == |log|
    && forall m :: claim < m < |log| && log[m].Queried? && !Wins(Heard(redis, log, claim)) ==>
         || (m > claim + 1 && GarbledAt(redis, log, m - 1))
         || (times[m] >= times[claim] + timeout && (timeout > 0.0 ==> m > claim + 1))
  }

  lemma LoadsOnce(redis: nat -> Reply, database: nat -> Row, log: seq<Event>, m: nat, target: Target, k: Key,
                  won: bool, out: Outcome)
    requires Loads(redis, database, log, m, target, k, won, out)
    ensures forall i :: m < i < |log| ==> !log[i].Queried?
  {
  }

  class ArticleService {
    const cache: ArticleCache
    const world: World
    const lockTimeout: real

    ghost predicate Valid()
      reads this, cache, world
    {
      cache.world == world && cache.Valid()
    }

    constructor (cache: ArticleCache, lockTimeout: real)
      requires cache.Valid()
      ensures Valid() && this.cache == cache && this.lockTimeout == lockTimeout
    {
      this.cache, this.world, this.lockTimeout := cache, cache.world, lockTimeout;
    }

    /** Polls until the key holds something or the deadline passes, and no shorter: a pause before every
        poll, and no more polls than fit. */
    method AwaitLoader(k: Key) returns (found: Cached, cut: bool, ghost polls: nat)
      requires Valid()
      modifies cache, world, world.breaker
      ensures Valid()
      ensures |world.log| == |old(world.log)| + polls && old(world.log) <= world.log
      ensures old(world.times) <= world.times
      ensures polls > 0 ==> (polls - 1) as real * POLL < lockTimeout
      ensures polls == 0 ==> !cut && found.Absent?
      ensures !cut && found.Absent? ==> world.now >= old(world.now) + lockTimeout && (lockTimeout > 0.0 ==> polls > 0)
      ensures forall m :: |old(world.log)| <= m < |world.log| ==>
        && !world.log[m].Queried?
        && world.times[m] >= old(world.now) + (m - |old(world.log)| + 1) as real * POLL
      ensures if cut || !found.Absent? then
          && PolledInVain(world.redis, world.log, |old(world.log)|, |world.log| - 1, k)
          && Tries(world.log, |world.log| - 1, ReadKey(k))
          && var last := Heard(world.redis, world.log, |world.log| - 1);
          cut == last.Cut? && (!cut ==> last.Answer? && found == last.cached)
        else PolledInVain(world.redis, world.log, |old(world.log)|, |world.log|, k)
      ensures forall m :: |old(world.log)| <= m < |world.log| - (if cut || !found.Absent? then 1 else 0) ==>
        !(world.log[m].Sent? && world.redis(m).Answer? && !world.redis(m).cached.Absent?)
    {
      var start := world.now;
      polls := 0;
      while world.now < start + lockTimeout
        invariant Valid() && world.now >= start + polls as real * POLL
        invariant |world.log| == |old(world.log)| + polls && old(world.log) <= world.log
        invariant old(world.times) <= world.times
        invariant polls == 0 ==> world.now == start
        invariant forall m :: |old(world.log)| <= m < |world.log| ==>
          && !world.log[m].Queried?
          && !(world.log[m].Sent? && world.redis(m).Answer? && !world.redis(m).cached.Absent?)
          && world.times[m] >= start + (m - |old(world.log)| + 1) as real * POLL
        invariant polls > 0 ==> (polls - 1) as real * POLL < lockTimeout
        invariant PolledInVain(world.redis, world.log, |old(world.log)|, |world.log|, k)
        decreases (lockTimeout / POLL).Floor + 1 - polls
      {
        world.Sleep(POLL);
        ghost var before := world.log;
        found, cut := cache.Read(k);
        polls := polls + 1;
        StillInVain(world.redis, before, world.log, |old(world.log)|, |before|, k);
        if cut || !found.Absent? {
          return;
        }
      }
      found, cut := Absent, false;
    }

    /** The `finally`. */
    method Finish(k: Key, won: bool, result: Outcome) returns (out: Outcome)
      requires Valid()
      modifies cache, world, world.breaker
      ensures Valid() && old(world.log) <= world.log && old(world.times) <= world.times
      ensures Ends(world.redis, world.log, |old(world.log)|, k, won, result, out)
    {
      out := result;
      if won {
        var cut := cache.Free(k);
        if cut { out := Killed; }
      }
    }

    /** Load, store, release: the part under `try ... finally`. */
    method LoadThrough(target: Target, k: Key, won: bool) returns (out: Outcome)
      requires Valid()
      modifies cache, world, world.breaker
      ensures Valid() && old(world.log) <= world.log && old(world.times) <= world.times
      ensures Loads(world.redis, world.database, world.log, |old(world.log)|, target, k, won, out)
      ensures world.times[|old(world.log)|] == old(world.now)
    {
      LatchedMore(world.redis, world.log, cache.since, cache.degraded, Queried(target));
      var row := world.Load(target);
      out := Uncached(row);
      if row.Row? {
        var cut := cache.Write(k, row.value);
        if cut { out := Killed; }
      }
      ghost var before := world.log;
      out := Finish(k, won, out);
      assert forall i :: 0 <= i < |before| ==> world.log[i] == before[i];
    }

    /** The loser's part: wait, and load all the same when the wait was in vain. */
    method WaitThenLoad(target: Target, k: Key) returns (out: Outcome, ghost polls: nat)
      requires Valid()
      modifies cache, world, world.breaker
      ensures Valid() && old(world.log) <= world.log
      ensures Waits(world.redis, world.database, world.log, |old(world.log)|, target, k, polls, out)
      ensures polls > 0 ==> (polls - 1) as real * POLL < lockTimeout
      ensures old(world.times) <= world.times
      ensures forall m :: |old(world.log)| <= m < |world.log| && world.log[m].Queried? ==>
        || (m > |old(world.log)| && GarbledAt(world.redis, world.log, m - 1))
        || (world.times[m] >= old(world.now) + lockTimeout && (lockTimeout > 0.0 ==> m > |old(world.log)|))
    {
      var found, cut;
      found, cut, polls := AwaitLoader(k);
      if cut {
        return Killed, polls;
      }
      if found.Stored? {
        return Served(found.value), polls;
      }
      ghost var at, before := |old(world.log)|, world.log;
      out := LoadThrough(target, k, false);
      LoadsOnce(world.redis, world.database, world.log, |before|, target, k, false, out);
      assert forall i :: 0 <= i < |before| ==> world.log[i] == before[i];
      if found.Absent? {
        StillInVain(world.redis, before, world.log, at, |before|, k);
      } else {
        StillInVain(world.redis, before, world.log, at, |before| - 1, k);
        assert world.log[|before| - 1] == before[|before| - 1];
      }
    }

    method ClaimThenLoad(target: Target, k: Key) returns (out: Outcome, ghost polls: nat)
      requires Valid()
      modifies cache, world, world.breaker
      ensures Valid() && old(world.log) <= world.log
      ensures Claims(world.redis, world.database, world.log, |old(world.log)|, target, k, polls, out)
      ensures polls > 0 ==> (polls - 1) as real * POLL < lockTimeout
      ensures old(world.times) <= world.times
      ensures Patient(world.redis, world.log, world.times, |old(world.log)|, lockTimeout)
    {
      var won, cut := cache.Claim(k);
      if cut {
        return Killed, 0;
      }
      if won {
        polls := 0;
        out := LoadThrough(target, k, true);
      } else {
        out, polls := WaitThenLoad(target, k);
      }
    }

    /** Both read paths, once the key is known. */
    method ReadThrough(target: Target, k: Key) returns (out: Outcome, ghost polls: nat)
      requires Valid()
      modifies cache, world, world.breaker
      ensures Valid() && old(world.log) <= world.log
      ensures Reads(world.redis, world.database, world.log, |old(world.log)|, target, k, polls, out)
      ensures polls > 0 ==> (polls - 1) as real * POLL < lockTimeout
      ensures |world.log| > |old(world.log)| + 1
        ==> Patient(world.redis, world.log, world.times, |old(world.log)| + 1, lockTimeout)
    {
      var cached, cut := cache.Read(k);
      if cut {
        return Killed, 0;
      }
      if cached.Stored? {
        return Served(cached.value), 0;
      }
      out, polls := ClaimThenLoad(target, k);
    }

    method Get(id: int) returns (out: Outcome, ghost polls: nat)
      requires Valid()
      modifies cache, world, world.breaker
      ensures Valid() && old(world.log) <= world.log
      ensures Reads(world.redis, world.database, world.log, |old(world.log)|, BodyOf(id), BodyKey(id), polls, out)
      ensures polls > 0 ==> (polls - 1) as real * POLL < lockTimeout
      ensures |world.log| > |old(world.log)| + 1
        ==> Patient(world.redis, world.log, world.times, |old(world.log)| + 1, lockTimeout)
    {
      out, polls := ReadThrough(BodyOf(id), BodyKey(id));
    }

    /** The generation is read first, and the key carries it. */
    method ListArticles(w: Window) returns (out: Outcome, ghost polls: nat)
      requires Valid()
      modifies cache, world, world.breaker
      ensures Valid() && old(world.log) <= world.log
      ensures Tries(world.log, |old(world.log)|, ReadGenerations(w.author))
      ensures var r := Heard(world.redis, world.log, |old(world.log)|);
        if r.Cut? then out == Killed && |world.log| == |old(world.log)| + 1 && polls == 0
        else Reads(world.redis, world.database, world.log, |old(world.log)| + 1, PageOf(w),
                   PageKey(GenerationIn(r, w), w), polls, out)
      ensures polls > 0 ==> (polls - 1) as real * POLL < lockTimeout
      ensures |world.log| > |old(world.log)| + 2
        ==> Patient(world.redis, world.log, world.times, |old(world.log)| + 2, lockTimeout)
    {
      var g, cut := cache.Generations(w.author);
      if cut {
        return Killed, 0;
      }
      out, polls := ReadThrough(PageOf(w), PageKey(if w.author.Some? then g.1 else g.0, w));
    }
  }

  /** The generation a list reader takes from the answer: its author's counter, or the global one;
      zero when Redis did not answer. */
  function GenerationIn(r: Reply, w: Window): nat {
    if !r.Answer? then 0 else if w.author.Some? then r.generations.1 else r.generations.0
  }

  // --- what every read promises -----------------------------------------------------------------------

  predicate OneLoad(log: seq<Event>, at: nat, m: nat) {
    at <= m < |log| && forall j :: at <= j < |log| ==> (log[j].Queried? <==> j == m)
  }

  predicate CutAt(redis: nat -> Reply, log: seq<Event>, i: nat) {
    i < |log| && log[i].Sent? && redis(i).Cut?
  }

  /** The read ended with a cached value that Redis gave for the key. */
  predicate ServedByCache(redis: nat -> Reply, log: seq<Event>, at: nat, k: Key, out: Outcome) {
    && at < |log| && log[|log| - 1] == Sent(ReadKey(k)) && Hits(redis(|log| - 1))
    && out == Served(redis(|log| - 1).cached.value)
    && forall j :: at <= j < |log| ==> !log[j].Queried?
  }

  /** What is answered comes from the cache under the read's own key, or from the one load; a read is
      killed only by a cancellation or the like, and no failure of Redis is ever what the caller sees. */
  lemma ReadIsHonest(redis: nat -> Reply, database: nat -> Row, log: seq<Event>, at: nat, target: Target, k: Key,
                     polls: nat, out: Outcome)
    requires Reads(redis, database, log, at, target, k, polls, out)
    ensures ServedByCache(redis, log, at, k, out)
      || (exists m: nat :: OneLoad(log, at, m) && log[m] == Queried(target) && out == Uncached(database(m)))
      || (out.Killed? && exists i :: at <= i && CutAt(redis, log, i))
  {
    var get := Heard(redis, log, at);
    if get.Cut? {
      assert CutAt(redis, log, at);
    } else if !Hits(get) {
      var claim := Heard(redis, log, at + 1);
      if claim.Cut? {
        assert CutAt(redis, log, at + 1);
      } else if Wins(claim) {
        LoadIsHonest(redis, database, log, at, at + 2, target, k, true, out);
      } else {
        assert forall j :: at <= j < at + 2 ==> !log[j].Queried?;
        WaitIsHonest(redis, database, log, at, at + 2, target, k, polls, out);
      }
    }
  }

  lemma NoLoadWhileWaiting(redis: nat -> Reply, database: nat -> Row, log: seq<Event>, from: nat, target: Target,
                           k: Key, polls: nat, out: Outcome)
    requires Waits(redis, database, log, from, target, k, polls, out)
    ensures from + polls <= |log|
    ensures forall j :: from <= j < from + polls ==> log[j] == Sent(ReadKey(k)) || log[j] == Held(ReadKey(k))
  {
    forall j | from <= j < from + polls
      ensures log[j] == Sent(ReadKey(k)) || log[j] == Held(ReadKey(k))
    {
      assert Tries(log, j, ReadKey(k));
    }
  }

  lemma WaitIsHonest(redis: nat -> Reply, database: nat -> Row, log: seq<Event>, at: nat, from: nat, target: Target,
                     k: Key, polls: nat, out: Outcome)
    requires at <= from <= |log| && Waits(redis, database, log, from, target, k, polls, out)
    requires forall j :: at <= j < from ==> !log[j].Queried?
    ensures ServedByCache(redis, log, at, k, out)
      || (exists m: nat :: OneLoad(log, at, m) && log[m] == Queried(target) && out == Uncached(database(m)))
      || (out.Killed? && exists i :: at <= i && CutAt(redis, log, i))
  {
    var m := from + polls;
    NoLoadWhileWaiting(redis, database, log, from, target, k, polls, out);
    if |log| == m {
      assert redis(m - 1).Cut? ==> CutAt(redis, log, m - 1);
    } else {
      LoadIsHonest(redis, database, log, at, m, target, k, false, out);
    }
  }

  lemma LoadIsHonest(redis: nat -> Reply, database: nat -> Row, log: seq<Event>, at: nat, m: nat, target: Target,
                     k: Key, won: bool, out: Outcome)
    requires at <= m && Loads(redis, database, log, m, target, k, won, out)
    requires forall j :: at <= j < m ==> !log[j].Queried?
    ensures OneLoad(log, at, m) && log[m] == Queried(target)
    ensures out == Uncached(database(m)) || (out.Killed? && exists i :: at <= i && CutAt(redis, log, i))
  {
    if out != Uncached(database(m)) {
      var last := |log| - 1;
      assert CutAt(redis, log, last) || CutAt(redis, log, m + 1);
    }
  }

  /** The cache is only ever filled under the read's own key and with what this read loaded, right
      after it loaded it: never a value from before the generation was read. */
  lemma WritesStoreTheLoad(redis: nat -> Reply, database: nat -> Row, log: seq<Event>, at: nat, target: Target, k: Key,
                           polls: nat, out: Outcome, i: nat, key: Key, value: Value)
    requires Reads(redis, database, log, at, target, k, polls, out)
    requires at <= i && Tries(log, i, WriteKey(key, value))
    ensures i > at && key == k && log[i - 1] == Queried(target) && database(i - 1) == Row(value)
  {
    if |log| > at + 1 && !Wins(Heard(redis, log, at + 1)) && !Heard(redis, log, at + 1).Cut? {
      NoLoadWhileWaiting(redis, database, log, at + 2, target, k, polls, out);
    }
  }

  /** A request that won the lock, or was let through because the lock was out of order, ends by
      trying to free it, whatever the load raised; a loser never touches it. */
  lemma WinnersRelease(redis: nat -> Reply, database: nat -> Row, log: seq<Event>, at: nat, target: Target, k: Key,
                       polls: nat, out: Outcome)
    requires Reads(redis, database, log, at, target, k, polls, out)
    ensures forall i :: at <= i < |log| && Tries(log, i, ClaimLock(k)) ==> i == at + 1
    ensures forall i :: at <= i < |log| && Tries(log, i, FreeLock(k)) ==> i == |log| - 1 && i > at + 1
    ensures Tries(log, |log| - 1, FreeLock(k)) ==> at + 1 < |log| && Wins(Heard(redis, log, at + 1))
    ensures at + 1 < |log| && Wins(Heard(redis, log, at + 1)) ==> Tries(log, |log| - 1, FreeLock(k))
  {
    if |log| > at + 1 && !Wins(Heard(redis, log, at + 1)) && !Heard(redis, log, at + 1).Cut? {
      NoLoadWhileWaiting(redis, database, log, at + 2, target, k, polls, out);
    }
  }

  predicate NothingAnswered(redis: nat -> Reply, log: seq<Event>, at: nat) {
    forall i :: at <= i < |log| && log[i].Sent? ==> redis(i).Failure?
  }

  predicate SendsOnce(log: seq<Event>, at: nat) {
    forall i, j :: at <= i < |log| && at <= j < |log| && log[i].Sent? && log[j].Sent? ==> i == j
  }

  lemma LatchSendsOnce(redis: nat -> Reply, log: seq<Event>, since: nat, at: nat, degraded: bool)
    requires since <= at && Latched(redis, log, since, degraded) && NothingAnswered(redis, log, at)
    ensures SendsOnce(log, at)
  {
    forall i, j | at <= i < |log| && at <= j < |log| && log[i].Sent? && log[j].Sent?
      ensures i == j
    {
      assert FailedAt(redis, log, i) && FailedAt(redis, log, j);
    }
  }

  /** Redis down, or the cache switched off: one load, its answer, and at most one command sent. */
  lemma FailOpen(redis: nat -> Reply, database: nat -> Row, log: seq<Event>, since: nat, at: nat, target: Target,
                 k: Key, polls: nat, out: Outcome, degraded: bool)
    requires Reads(redis, database, log, at, target, k, polls, out) && NothingAnswered(redis, log, at)
    requires since <= at && Latched(redis, log, since, degraded)
    ensures OneLoad(log, at, at + 2) && log[at + 2] == Queried(target) && out == Uncached(database(at + 2))
    ensures polls == 0 && |log| <= at + 5 && SendsOnce(log, at)
  {
    LoadIsHonest(redis, database, log, at, at + 2, target, k, true, out);
    assert forall i :: at <= i < |log| ==> !CutAt(redis, log, i);
    LatchSendsOnce(redis, log, since, at, degraded);
  }

  /** The whole list read, its generation read included: still at most one command, and the page of
      the database. */
  lemma ListFailsOpen(redis: nat -> Reply, database: nat -> Row, log: seq<Event>, since: nat, at: nat, w: Window,
                      polls: nat, out: Outcome, degraded: bool)
    requires Tries(log, at, ReadGenerations(w.author)) && NothingAnswered(redis, log, at)
    requires var k := PageKey(GenerationIn(Heard(redis, log, at), w), w);
      Reads(redis, database, log, at + 1, PageOf(w), k, polls, out)
    requires since <= at && Latched(redis, log, since, degraded)
    ensures OneLoad(log, at, at + 3) && log[at + 3] == Queried(PageOf(w)) && out == Uncached(database(at + 3))
    ensures polls == 0 && |log| <= at + 6 && SendsOnce(log, at)
  {
    FailOpen(redis, database, log, since, at + 1, PageOf(w), PageKey(0, w), polls, out, degraded);
    LatchSendsOnce(redis, log, since, at, degraded);
  }
}
