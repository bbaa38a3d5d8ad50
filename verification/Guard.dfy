/** Breaker, then timeout, then retry, around one dependency call (app/resilience/guard.py,
    app/resilience/retry.py). The world answers every awaited call; other requests may use the
    breaker during any wait. */
module Guard {
  import opened Breaker

  /** What an awaited call comes back with. `Fault` is a transient error of retry.py
      (`timeout` for its TIMEOUT_ERRORS), `Problem` any other exception; `Budget` is the outer
      timeout firing during the wait, `Cancelled` the request being cancelled. */
  datatype Reply<T> = Answer(value: T) | Fault(timeout: bool) | Problem(code: int) | Budget | Cancelled

  datatype Call = Operation | Rollback | Pause

  /** What a caller gets. `Expired` is the budget before guard.py translates it. */
  datatype Outcome<T> =
    | Returned(value: T)
    | Raised(code: int)
    | UpstreamTimeout
    | Unavailable
    | Expired
    | Killed
    | Refused(retryAfter: real)

  datatype Verdict = Silent | Success | Failure

  // --- what the retry loop may do -------------------------------------------------------------------

  /** `is_transient` and `translate`: what a reply means when nothing follows it. */
  function Ending<T>(r: Reply<T>): Outcome<T> {
    match r
    case Answer(v) => Returned(v)
    case Fault(timeout) => if timeout then UpstreamTimeout else Unavailable
    case Problem(code) => Raised(code)
    case Budget => Expired
    case Cancelled => Killed
  }

  predicate Cuts<T>(r: Reply<T>) {
    r.Budget? || r.Cancelled?
  }

  /** The only call that may follow call `c` answered by `r`. A rollback that fails uses its attempt
      up, and only a transient fault is worth another attempt. */
  predicate Follows<T>(hook: bool, c: Call, r: Reply<T>, next: Call) {
    match c
    case Operation => r.Fault? && next == Pause
    case Rollback => (r.Answer? && next == Operation) || (r.Fault? && next == Pause)
    case Pause => !Cuts(r) && next == if hook then Rollback else Operation
  }

  /** After `c` answered by `r` nothing follows, unless attempts are left. */
  predicate Stops<T>(c: Call, r: Reply<T>, exhausted: bool) {
    match c
    case Operation => r.Fault? ==> exhausted
    case Rollback => !r.Answer? && (r.Fault? ==> exhausted)
    case Pause => Cuts(r)
  }

  /** Calls of kind c from index `at` on. */
  function Count(calls: seq<Call>, at: nat, c: Call): nat {
    if |calls| <= at then 0
    else Count(calls[..|calls| - 1], at, c) + if calls[|calls| - 1] == c then 1 else 0
  }

  /** The calls from index `at` on are those of one loop; call i is answered by reply i. */
  predicate Path<T>(replies: nat -> Reply<T>, at: nat, hook: bool, calls: seq<Call>) {
    && (at < |calls| ==> calls[at] == Operation)
    && forall i :: at < i < |calls| ==> Follows(hook, calls[i - 1], replies(i - 1), calls[i])
  }

  /** A finished loop: a path, as many pauses as retries, and a last reply that ends it. */
  predicate Trail<T>(replies: nat -> Reply<T>, at: nat, limit: int, hook: bool, calls: seq<Call>) {
    && at < |calls| && Path(replies, at, hook, calls)
    && (Count(calls, at, Pause) > 0 ==> Count(calls, at, Pause) < limit)
    && Stops(calls[|calls| - 1], replies(|calls| - 1), Count(calls, at, Pause) + 1 >= limit)
  }

  // --- the world and the programs -------------------------------------------------------------------

  class World<T(!new)> {
    const replies: nat -> Reply<T>
    const breaker: CircuitBreaker
    /** every call awaited so far; the i-th of them is answered by the i-th reply */
    var calls: seq<Call>

    constructor (replies: nat -> Reply<T>, breaker: CircuitBreaker)
      ensures this.replies == replies && this.breaker == breaker && calls == []
    {
      this.replies, this.breaker, calls := replies, breaker, [];
    }

    /** One await. Nothing is promised about the breaker: other requests ran meanwhile. */
    method Await(call: Call) returns (r: Reply<T>)
      modifies this, breaker
      ensures r == replies(|old(calls)|) && calls == old(calls) + [call]
    {
      r := replies(|calls|);
      calls := calls + [call];
    }
  }

  /** One call of the loop that began at call `at`. */
  method Next<T(!new)>(world: World<T>, call: Call, hook: bool, ghost at: nat) returns (r: Reply<T>)
    requires at <= |world.calls| && Path(world.replies, at, hook, world.calls)
    requires var n := |world.calls|;
      if n == at then call == Operation else Follows(hook, world.calls[n - 1], world.replies(n - 1), call)
    modifies world, world.breaker
    ensures world.calls == old(world.calls) + [call] && r == world.replies(|old(world.calls)|)
    ensures Path(world.replies, at, hook, world.calls)
    ensures Count(world.calls, at, Pause) == Count(old(world.calls), at, Pause) + if call == Pause then 1 else 0
  {
    r := world.Await(call);
    assert world.calls[..|world.calls| - 1] == old(world.calls);
  }

  /** Between attempts: `n` attempts are behind the loop, each of them ended by an uncut pause. */
  predicate Between<T>(replies: nat -> Reply<T>, at: nat, hook: bool, calls: seq<Call>, n: nat) {
    && at <= |calls| && Path(replies, at, hook, calls) && Count(calls, at, Pause) == n
    && (n == 0 <==> |calls| == at)
    && (n > 0 ==> calls[|calls| - 1] == Pause && !Cuts(replies(|calls| - 1)))
  }

  /** The attempt is over, with `last` for its reply. */
  ghost predicate Attempted<T>(replies: nat -> Reply<T>, at: nat, hook: bool, calls: seq<Call>, n: nat,
                               last: Reply<T>) {
    && at < |calls| && Path(replies, at, hook, calls) && Count(calls, at, Pause) == n
    && last == replies(|calls| - 1)
    && (calls[|calls| - 1] == Operation || (calls[|calls| - 1] == Rollback && !last.Answer?))
  }

  method Attempt<T(!new)>(world: World<T>, n: nat, hook: bool, ghost at: nat) returns (last: Reply<T>)
    requires n >= 1 && Between(world.replies, at, hook, world.calls, n - 1)
    modifies world, world.breaker
    ensures old(world.calls) <= world.calls && Attempted(world.replies, at, hook, world.calls, n - 1, last)
  {
    ghost var before := world.calls;
    if n > 1 && hook {
      last := Next(world, Rollback, hook, at);
      assert before <= world.calls;
      if last.Answer? {
        last := Next(world, Operation, hook, at);
        assert before + [Rollback] <= world.calls;
      }
    } else {
      last := Next(world, Operation, hook, at);
    }
  }

  /** One attempt, and the pause after it when it is worth another one. */
  method Round<T(!new)>(world: World<T>, n: nat, limit: int, hook: bool, ghost at: nat)
    returns (last: Reply<T>, over: bool)
    requires n >= 1 && Between(world.replies, at, hook, world.calls, n - 1)
    modifies world, world.breaker
    ensures old(world.calls) < world.calls && last == world.replies(|world.calls| - 1)
    ensures over ==> at < |world.calls| && Path(world.replies, at, hook, world.calls)
                     && Stops(world.calls[|world.calls| - 1], last, Count(world.calls, at, Pause) + 1 >= limit)
                     && (Count(world.calls, at, Pause) == n - 1 || (Count(world.calls, at, Pause) == n && n < limit))
    ensures !over ==> n < limit && Between(world.replies, at, hook, world.calls, n)
  {
    last := Attempt(world, n, hook, at);
    if !last.Fault? || n >= limit {
      return last, true;
    }
    last := Next(world, Pause, hook, at);
    over := Cuts(last);
  }

  method WithRetry<T(!new)>(world: World<T>, limit: int, hook: bool) returns (out: Outcome<T>)
    modifies world, world.breaker
    ensures old(world.calls) < world.calls
    ensures Trail(world.replies, |old(world.calls)|, limit, hook, world.calls)
    ensures out == Ending(world.replies(|world.calls| - 1))
  {
    ghost var at := |world.calls|;
    var attempts := 0;
    while true
      invariant 0 <= attempts && (attempts > 0 ==> attempts < limit)
      invariant old(world.calls) <= world.calls && Between(world.replies, at, hook, world.calls, attempts)
      decreases limit - attempts
    {
      attempts := attempts + 1;
      var last, over := Round(world, attempts, limit, hook, at);
      if over {
        return Ending(last);
      }
    }
  }

  // --- the guard --------------------------------------------------------------------------------------

  /** What the breaker hears: every fault is a failure, every other answer a success, and a
      cancelled call says nothing. */
  function VerdictOf<T>(out: Outcome<T>): Verdict {
    match out
    case Returned(_) => Success
    case Raised(_) => Success
    case Killed => Silent
    case Refused(_) => Silent
    case _ => Failure
  }

  function Hear(c: Config, b: Core, v: Verdict, now: real): Core {
    match v
    case Silent => b
    case Success => Succeeded(b)
    case Failure => Failed(c, b, now)
  }

  function Translated<T>(out: Outcome<T>): Outcome<T> {
    if out.Expired? then UpstreamTimeout else out
  }

  /** A finished guarded call that the breaker admitted, and what its caller gets. */
  ghost predicate GuardedTrail<T>(replies: nat -> Reply<T>, at: nat, attempts: int, retry: bool, hook: bool,
                                  calls: seq<Call>, out: Outcome<T>)
  {
    && Trail(replies, at, if retry then attempts else 1, retry && hook, calls)
    && out == Translated(Ending(replies(|calls| - 1)))
  }

  /** `times` are the clock readings at the question, at the refusal and at the report; `before` is
      the breaker the report meets. */
  method GuardedCall<T(!new)>(world: World<T>, attempts: int, retry: bool, hook: bool, times: (real, real, real))
    returns (out: Outcome<T>, ghost before: Core)
    modifies world, world.breaker
    ensures var b, c := old(world.breaker.State()), world.breaker.config;
      if Admits(c, b, times.0) then
        && old(world.calls) < world.calls
        && GuardedTrail(world.replies, |old(world.calls)|, attempts, retry, hook, world.calls, out)
        && world.breaker.State() == Hear(c, before, VerdictOf(out), times.2)
        && (out.Returned? || out.Raised? ==> world.breaker.State() == Succeeded(before))
        && (out.UpstreamTimeout? || out.Unavailable? ==> world.breaker.State() == Failed(c, before, times.2))
        && (out.Killed? ==> world.breaker.State() == before)
        && !out.Expired? && !out.Refused?
      else
        && world.calls == old(world.calls)
        && out == Refused(SecondsUntilProbe(c, Asked(c, b, times.0), times.1))
        && world.breaker.State() == Asked(c, b, times.0)
  {
    var breaker := world.breaker;
    var ok := breaker.Allow(times.0);
    before := breaker.State();
    if !ok {
      var wait := breaker.RetryAfter(times.1);
      out := Refused(wait);
      return;
    }
    out := WithRetry(world, if retry then attempts else 1, retry && hook);
    before := breaker.State();
    match out
    case Expired =>
      breaker.RecordFailure(times.2);
      out := UpstreamTimeout;
    case UpstreamTimeout =>
      breaker.RecordFailure(times.2);
    case Unavailable =>
      breaker.RecordFailure(times.2);
    case Raised(_) =>
      breaker.RecordSuccess();
    case Returned(_) =>
      breaker.RecordSuccess();
    case Killed =>
    case Refused(_) =>
      assert false;
  }

  // --- what a trail looks like ------------------------------------------------------------------------

  lemma PathFront<T>(replies: nat -> Reply<T>, at: nat, hook: bool, calls: seq<Call>)
    requires at < |calls| && Path(replies, at, hook, calls)
    ensures Path(replies, at, hook, calls[..|calls| - 1])
  {
  }

  /** At most one operation per attempt, and a rollback only before a retry. */
  lemma {:induction false} PathCounts<T>(replies: nat -> Reply<T>, at: nat, hook: bool, calls: seq<Call>)
    requires at < |calls| && Path(replies, at, hook, calls)
    ensures var last, pauses := calls[|calls| - 1], Count(calls, at, Pause);
      && Count(calls, at, Operation) <= pauses + (if last == Operation then 1 else 0)
      && Count(calls, at, Rollback) <= pauses - (if last == Pause then 1 else 0)
      && (!hook ==> Count(calls, at, Rollback) == 0)
    decreases |calls|
  {
    var front := calls[..|calls| - 1];
    if |calls| == at + 1 {
      assert Count(front, at, Operation) == Count(front, at, Pause) == Count(front, at, Rollback) == 0;
    } else {
      PathFront(replies, at, hook, calls);
      PathCounts(replies, at, hook, front);
      var i := |calls| - 1;
      assert Follows(hook, calls[i - 1], replies(i - 1), calls[i]);
    }
  }

  lemma {:induction false} CountsIt(calls: seq<Call>, at: nat, i: nat)
    requires at <= i < |calls|
    ensures Count(calls, at, calls[i]) > 0
    decreases |calls|
  {
    if i < |calls| - 1 {
      CountsIt(calls[..|calls| - 1], at, i);
    }
  }

  /** Without a pause the operation is the only call. */
  lemma NoPauseNoRetry<T>(replies: nat -> Reply<T>, at: nat, hook: bool, calls: seq<Call>)
    requires at < |calls| && Path(replies, at, hook, calls) && Count(calls, at, Pause) == 0
    ensures |calls| == at + 1
  {
    if |calls| > at + 1 {
      var second := calls[at + 1];
      assert Follows(hook, calls[at], replies(at), second);
      CountsIt(calls, at, at + 1);
    }
  }

  /** A loop has no choice: two paths through the same replies agree as far as both go. */
  lemma {:induction false} PathIsForced<T>(replies: nat -> Reply<T>, at: nat, hook: bool, p: seq<Call>, q: seq<Call>,
                                           i: nat)
    requires Path(replies, at, hook, p) && Path(replies, at, hook, q) && at <= i < |p| && i < |q|
    ensures p[i] == q[i]
    decreases i
  {
    if i > at {
      PathIsForced(replies, at, hook, p, q, i - 1);
      assert Follows(hook, p[i - 1], replies(i - 1), p[i]);
      assert Follows(hook, q[i - 1], replies(i - 1), q[i]);
    }
  }

  /** What stands before what: with a hook every attempt after the first follows a rollback that was
      answered, and every rollback a pause; without one every such attempt follows a pause. A pause
      follows a transient fault. */
  lemma EveryRetryRollsBack<T>(replies: nat -> Reply<T>, at: nat, limit: int, hook: bool, calls: seq<Call>, i: nat)
    requires Trail(replies, at, limit, hook, calls) && at < i < |calls|
    ensures calls[i] == Operation ==> calls[i - 1] == if hook then Rollback else Pause
    ensures calls[i] == Operation && hook ==> replies(i - 1).Answer?
    ensures calls[i] == Rollback ==> hook && calls[i - 1] == Pause
    ensures calls[i] == Pause ==> calls[i - 1] != Pause && replies(i - 1).Fault?
    ensures calls[i - 1] == Pause ==> !replies(i - 1).Budget? && !replies(i - 1).Cancelled?
  {
    assert Follows(hook, calls[i - 1], replies(i - 1), calls[i]);
    if i - 1 > at {
      assert Follows(hook, calls[i - 2], replies(i - 2), calls[i - 1]);
    }
  }

  /** As many rollbacks as repeated operations, at least. */
  lemma {:induction false} RollbackCounts<T>(replies: nat -> Reply<T>, at: nat, calls: seq<Call>)
    requires at < |calls| && Path(replies, at, true, calls)
    ensures Count(calls, at, Rollback) >= Count(calls, at, Operation) - if calls[|calls| - 1] == Rollback then 0 else 1
    decreases |calls|
  {
    var front := calls[..|calls| - 1];
    if |calls| == at + 1 {
      assert Count(front, at, Operation) == Count(front, at, Rollback) == 0;
    } else {
      PathFront(replies, at, true, calls);
      RollbackCounts(replies, at, front);
      var i := |calls| - 1;
      assert Follows(true, calls[i - 1], replies(i - 1), calls[i]);
    }
  }

  /** A transient fault is the last word only when the attempts are used up. */
  lemma FaultsAreRetried<T>(replies: nat -> Reply<T>, at: nat, limit: int, hook: bool, calls: seq<Call>)
    requires Trail(replies, at, limit, hook, calls)
    ensures var last := |calls| - 1;
      && (calls[last] != Pause && replies(last).Fault? ==> Count(calls, at, Pause) + 1 >= limit)
      && (calls[last] == Pause ==> replies(last).Budget? || replies(last).Cancelled?)
      && (calls[last] == Rollback ==> !replies(last).Answer?)
      && (hook ==> Count(calls, at, Rollback) >= Count(calls, at, Operation) - 1)
  {
    if hook { RollbackCounts(replies, at, calls); }
  }

  /** Every guarded call that is admitted, for every script of replies: a write runs its operation
      once and nothing else; a read runs at most `attempts` operations and rolls back only between
      them; and the breaker hears a failure exactly when the caller gets a timeout or unavailable
      error, nothing exactly when the last call was cancelled, and a success otherwise. */
  lemma GuardTrace<T>(replies: nat -> Reply<T>, at: nat, attempts: int, retry: bool, hook: bool,
                      calls: seq<Call>, out: Outcome<T>)
    requires GuardedTrail(replies, at, attempts, retry, hook, calls, out)
    ensures at < |calls| && calls[at] == Operation
    ensures !retry ==> |calls| == at + 1
    ensures attempts >= 1 ==> Count(calls, at, Operation) <= attempts && Count(calls, at, Rollback) <= attempts - 1
    ensures !hook ==> Count(calls, at, Rollback) == 0
    ensures var last := replies(|calls| - 1);
      && (VerdictOf(out) == Failure <==> out.UpstreamTimeout? || out.Unavailable?)
      && (VerdictOf(out) == Failure <==> last.Fault? || last.Budget?)
      && (VerdictOf(out) == Silent <==> last.Cancelled?)
      && (VerdictOf(out) == Success <==> last.Answer? || last.Problem?)
      && (forall v :: out == Returned(v) <==> last == Answer(v))
      && (forall code :: out == Raised(code) <==> last == Problem(code))
      && (out.UpstreamTimeout? <==> last.Budget? || (last.Fault? && last.timeout))
      && (out.Unavailable? <==> last.Fault? && !last.timeout)
      && (out.Killed? <==> last.Cancelled?)
  {
    PathCounts(replies, at, retry && hook, calls);
    if !retry {
      NoPauseNoRetry(replies, at, retry && hook, calls);
    }
  }
}
