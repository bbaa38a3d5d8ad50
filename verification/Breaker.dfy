/** The circuit breaker of one dependency (app/resilience/breaker.py). Every call that reads the
    injected clock takes the instant as a parameter. */
module Breaker {

  datatype Mode = Closed | Open | HalfOpen

  datatype Config = Config(threshold: int, reset: real, maxProbes: int) {
    /** What app/resilience/policy.py admits. */
    predicate Valid() {
      threshold >= 1 && reset > 0.0 && maxProbes >= 1
    }
  }

  datatype Core = Core(mode: Mode, failures: int, openedAt: real, probes: int)

  const FRESH := Core(Closed, 0, 0.0, 0)

  // --- the transitions --------------------------------------------------------------------------

  function Opened(at: real): Core {
    Core(Open, 0, at, 0)
  }

  /** Whether a caller is admitted at `now`, and the breaker it leaves. */
  predicate Admits(c: Config, b: Core, now: real) {
    match b.mode
    case Closed => true
    case Open => now - b.openedAt >= c.reset && 0 < c.maxProbes
    case HalfOpen => b.probes < c.maxProbes
  }

  function Asked(c: Config, b: Core, now: real): Core {
    match b.mode
    case Closed => b
    case Open =>
      if now - b.openedAt < c.reset then b
      else b.(mode := HalfOpen, probes := if 0 < c.maxProbes then 1 else 0)
    case HalfOpen => if b.probes < c.maxProbes then b.(probes := b.probes + 1) else b
  }

  function Succeeded(b: Core): Core {
    if b.mode == HalfOpen then b.(mode := Closed, failures := 0, probes := 0) else b.(failures := 0)
  }

  function Failed(c: Config, b: Core, now: real): Core {
    if b.mode == HalfOpen || b.failures + 1 >= c.threshold then Opened(now)
    else b.(failures := b.failures + 1)
  }

  function SecondsUntilProbe(c: Config, b: Core, now: real): real {
    if b.mode != Open then 0.0
    else
      var remaining := c.reset - (now - b.openedAt);
      if remaining > 0.001 then remaining else 0.001
  }

  /** The breaker itself: fields updated in place. */
  class CircuitBreaker {
    const config: Config
    var mode: Mode
    var failures: int
    var openedAt: real
    var probes: int

    function State(): Core
      reads this
    {
      Core(mode, failures, openedAt, probes)
    }

    constructor (config: Config)
      ensures this.config == config && State() == FRESH
    {
      this.config := config;
      mode, failures, openedAt, probes := Closed, 0, 0.0, 0;
    }

    method Allow(now: real) returns (ok: bool)
      modifies this
      ensures ok == Admits(config, old(State()), now)
      ensures State() == Asked(config, old(State()), now)
    {
      if mode == Closed {
        return true;
      }
      if mode == Open {
        if now - openedAt < config.reset {
          return false;
        }
        ToHalfOpen();
      }
      if probes >= config.maxProbes {
        return false;
      }
      probes := probes + 1;
      return true;
    }

    method RecordSuccess()
      modifies this
      ensures State() == Succeeded(old(State()))
    {
      if mode == HalfOpen {
        ToClosed();
        return;
      }
      failures := 0;
    }

    method RecordFailure(now: real)
      modifies this
      ensures State() == Failed(config, old(State()), now)
    {
      if mode == HalfOpen {
        ToOpen(now);
        return;
      }
      failures := failures + 1;
      if failures >= config.threshold {
        ToOpen(now);
      }
    }

    /** The wait told to a refused caller: none when the circuit is not open; otherwise positive, long
        enough for an untouched breaker to admit whoever waits it out, and, unless it is the least wait
        of a millisecond, no longer than that. */
    method RetryAfter(now: real) returns (seconds: real)
      ensures seconds == SecondsUntilProbe(config, State(), now)
      ensures if mode == Open then seconds >= 0.001 else seconds == 0.0
      ensures mode == Open && 0 < config.maxProbes
        ==> forall later :: later >= now + seconds ==> Admits(config, State(), later)
      ensures mode == Open && seconds > 0.001
        ==> forall later :: Admits(config, State(), later) ==> later >= now + seconds
    {
      if mode != Open {
        return 0.0;
      }
      var remaining := config.reset - (now - openedAt);
      seconds := if remaining > 0.001 then remaining else 0.001;
    }

    method ToOpen(now: real)
      modifies this
      ensures State() == Opened(now)
    {
      mode, openedAt, probes, failures := Open, now, 0, 0;
    }

    method ToHalfOpen()
      modifies this`mode, this`probes
      ensures mode == HalfOpen && probes == 0
    {
      mode, probes := HalfOpen, 0;
    }

    method ToClosed()
      modifies this`mode, this`failures, this`probes
      ensures mode == Closed && failures == 0 && probes == 0
    {
      mode, failures, probes := Closed, 0, 0;
    }
  }

  // --- runs of one breaker ----------------------------------------------------------------------

  /** Calls ask; callers that were admitted report, in any order and however late. */
  datatype Event = Ask(at: real) | Report(ok: bool, at: real)

  function Next(c: Config, b: Core, e: Event): Core {
    match e
    case Ask(at) => Asked(c, b, at)
    case Report(ok, at) => if ok then Succeeded(b) else Failed(c, b, at)
  }

  function After(c: Config, b: Core, es: seq<Event>): Core {
    if es == [] then b else Next(c, After(c, b, es[..|es| - 1]), es[|es| - 1])
  }

  /** How many of the calls were admitted. */
  function Admissions(c: Config, b: Core, es: seq<Event>): nat {
    if es == [] then 0
    else
      var front, e := es[..|es| - 1], es[|es| - 1];
      Admissions(c, b, front) + if e.Ask? && Admits(c, After(c, b, front), e.at) then 1 else 0
  }

  /** Timestamps never run backwards: the clock is monotonic. */
  predicate Clocked(es: seq<Event>, from: real, to: real) {
    && from <= to
    && (forall i :: 0 <= i < |es| ==> from <= es[i].at <= to)
    && (forall i, j :: 0 <= i < j < |es| ==> es[i].at <= es[j].at)
  }

  lemma ClockedFront(es: seq<Event>, from: real, to: real)
    requires es != [] && Clocked(es, from, to)
    ensures Clocked(es[..|es| - 1], from, es[|es| - 1].at)
  {
  }

  // --- what every reachable breaker satisfies -----------------------------------------------------

  /** Probes exist only half-open and within their limit; the count stays below the threshold. */
  predicate CoreOk(c: Config, b: Core) {
    && 0 <= b.failures < c.threshold
    && (b.mode == HalfOpen ==> 1 <= b.probes <= c.maxProbes)
    && (b.mode != HalfOpen ==> b.probes == 0)
  }

  lemma {:induction false} CoreStaysOk(c: Config, es: seq<Event>)
    requires c.Valid()
    ensures CoreOk(c, After(c, FRESH, es))
    decreases |es|
  {
    if es != [] {
      CoreStaysOk(c, es[..|es| - 1]);
    }
  }

  // --- consecutive failures open it -----------------------------------------------------------------

  /** The length of the run of failures at the end of the reports. */
  function TrailingFailures(es: seq<Event>): nat {
    if es == [] then 0
    else
      var e := es[|es| - 1];
      if e.Ask? then TrailingFailures(es[..|es| - 1])
      else if e.ok then 0
      else TrailingFailures(es[..|es| - 1]) + 1
  }

  predicate NeverReaches(es: seq<Event>, threshold: int) {
    forall n :: 0 <= n <= |es| ==> TrailingFailures(es[..n]) < threshold
  }

  /** From b on, the breaker stays closed all along. */
  predicate StaysClosed(c: Config, b: Core, es: seq<Event>) {
    forall n :: 0 <= n <= |es| ==> After(c, b, es[..n]).mode == Closed
  }

  predicate AlwaysClosed(c: Config, es: seq<Event>) {
    StaysClosed(c, FRESH, es)
  }

  lemma StaysClosedFront(c: Config, b: Core, es: seq<Event>)
    requires es != []
    ensures StaysClosed(c, b, es) <==> StaysClosed(c, b, es[..|es| - 1]) && After(c, b, es).mode == Closed
  {
    var front := es[..|es| - 1];
    assert es[..|es|] == es;
    assert forall n :: 0 <= n <= |front| ==> front[..n] == es[..n];
    if StaysClosed(c, b, front) && After(c, b, es).mode == Closed {
      forall n | 0 <= n <= |es| ensures After(c, b, es[..n]).mode == Closed {
        if n < |es| { assert front[..n] == es[..n]; }
      }
    }
    if StaysClosed(c, b, es) {
      forall n | 0 <= n <= |front| ensures After(c, b, front[..n]).mode == Closed {
        assert front[..n] == es[..n];
      }
    }
  }

  lemma NeverReachesFront(es: seq<Event>, threshold: int)
    requires es != []
    ensures NeverReaches(es, threshold)
       <==> NeverReaches(es[..|es| - 1], threshold) && TrailingFailures(es) < threshold
  {
    var front := es[..|es| - 1];
    assert es[..|es|] == es;
    assert forall n :: 0 <= n <= |front| ==> front[..n] == es[..n];
    if NeverReaches(front, threshold) && TrailingFailures(es) < threshold {
      forall n | 0 <= n <= |es| ensures TrailingFailures(es[..n]) < threshold {
        if n < |es| { assert front[..n] == es[..n]; }
      }
    }
    if NeverReaches(es, threshold) {
      forall n | 0 <= n <= |front| ensures TrailingFailures(front[..n]) < threshold {
        assert front[..n] == es[..n];
      }
    }
  }

  /** A closed breaker without failures stays closed exactly while no run of failures is as long as the
      threshold, and while it does its count is the current run. */
  lemma {:induction false} StaysClosedIff(c: Config, b: Core, es: seq<Event>)
    requires c.Valid() && b.mode == Closed && b.failures == 0
    ensures StaysClosed(c, b, es) <==> NeverReaches(es, c.threshold)
    ensures StaysClosed(c, b, es) ==> After(c, b, es).failures == TrailingFailures(es)
    decreases |es|
  {
    if es == [] {
      assert es[..0] == es;
    } else {
      var front := es[..|es| - 1];
      StaysClosedIff(c, b, front);
      StaysClosedFront(c, b, es);
      NeverReachesFront(es, c.threshold);
      assert front[..|front|] == front;
    }
  }

  /** A breaker has never left closed exactly when no run of failures was as long as the threshold, and
      then its count is the current run. */
  lemma ClosedIffFewFailures(c: Config, es: seq<Event>)
    requires c.Valid()
    ensures AlwaysClosed(c, es) <==> NeverReaches(es, c.threshold)
    ensures AlwaysClosed(c, es) ==> After(c, FRESH, es).failures == TrailingFailures(es)
  {
    StaysClosedIff(c, FRESH, es);
  }

  // --- recovery ---------------------------------------------------------------------------------------

  lemma {:induction false} AfterJoin(c: Config, b: Core, xs: seq<Event>, ys: seq<Event>)
    ensures After(c, b, xs + ys) == After(c, After(c, b, xs), ys)
    decreases |ys|
  {
    if ys == [] {
      assert xs + ys == xs;
    } else {
      AfterJoin(c, b, xs, ys[..|ys| - 1]);
      assert (xs + ys)[..|xs + ys| - 1] == xs + ys[..|ys| - 1];
    }
  }

  /** A success that is reported half-open closes the circuit: from then on it is closed, and admits
      every call at any time, up to and not beyond `threshold` failures in a row. */
  lemma SuccessRecovers(c: Config, es: seq<Event>, at: real, more: seq<Event>)
    requires c.Valid() && After(c, FRESH, es).mode == HalfOpen
    ensures (forall n :: 0 <= n <= |more| ==> After(c, FRESH, es + [Report(true, at)] + more[..n]).mode == Closed)
       <==> NeverReaches(more, c.threshold)
    ensures NeverReaches(more, c.threshold)
        ==> forall t :: Admits(c, After(c, FRESH, es + [Report(true, at)] + more), t)
  {
    var xs := es + [Report(true, at)];
    var b := After(c, FRESH, xs);
    assert xs[..|xs| - 1] == es;
    forall n | 0 <= n <= |more|
      ensures After(c, FRESH, xs + more[..n]) == After(c, b, more[..n])
    {
      AfterJoin(c, FRESH, xs, more[..n]);
    }
    StaysClosedIff(c, b, more);
    assert more[..|more|] == more;
  }

  /** Event j - 1 is a success reported half-open, or there is none before j. */
  predicate Recovery(c: Config, es: seq<Event>, j: nat)
    requires j <= |es|
  {
    j > 0 ==> After(c, FRESH, es[..j - 1]).mode == HalfOpen && es[j - 1].Report? && es[j - 1].ok
  }

  /** In every history: closed if and only if, since the start or since some success that was reported
      half-open, there never were `threshold` failures in a row. */
  lemma {:induction false} ClosedIff(c: Config, es: seq<Event>)
    requires c.Valid()
    ensures After(c, FRESH, es).mode == Closed
       <==> exists j :: 0 <= j <= |es| && Recovery(c, es, j) && NeverReaches(es[j..], c.threshold)
    decreases |es|
  {
    if exists j :: 0 <= j <= |es| && Recovery(c, es, j) && NeverReaches(es[j..], c.threshold) {
      var j :| 0 <= j <= |es| && Recovery(c, es, j) && NeverReaches(es[j..], c.threshold);
      ClosedSince(c, es, j);
    }
    if After(c, FRESH, es).mode == Closed {
      ClosedHasRecovery(c, es);
    }
  }

  lemma RecoveredCore(c: Config, es: seq<Event>, j: nat)
    requires c.Valid() && j <= |es| && Recovery(c, es, j)
    ensures var b := After(c, FRESH, es[..j]);
      && b.mode == Closed && b.failures == 0
      && forall n :: j <= n <= |es| ==> After(c, FRESH, es[..n]) == After(c, b, es[j..n])
  {
    if j > 0 { assert es[..j][..j - 1] == es[..j - 1]; }
    forall n | j <= n <= |es|
      ensures After(c, FRESH, es[..n]) == After(c, After(c, FRESH, es[..j]), es[j..n])
    {
      AfterJoin(c, FRESH, es[..j], es[j..n]);
      assert es[..j] + es[j..n] == es[..n];
    }
  }

  lemma ClosedSince(c: Config, es: seq<Event>, j: nat)
    requires c.Valid() && j <= |es| && Recovery(c, es, j) && NeverReaches(es[j..], c.threshold)
    ensures After(c, FRESH, es).mode == Closed
  {
    RecoveredCore(c, es, j);
    StaysClosedIff(c, After(c, FRESH, es[..j]), es[j..]);
    assert es[..|es|] == es && es[j..|es|] == es[j..] && es[j..][..|es| - j] == es[j..];
  }

  lemma {:induction false} ClosedHasRecovery(c: Config, es: seq<Event>)
    requires c.Valid() && After(c, FRESH, es).mode == Closed
    ensures exists j :: 0 <= j <= |es| && Recovery(c, es, j) && NeverReaches(es[j..], c.threshold)
    decreases |es|
  {
    if es == [] {
      assert Recovery(c, es, 0) && NeverReaches(es[0..], c.threshold);
    } else {
      var front := es[..|es| - 1];
      if After(c, FRESH, front).mode == Closed {
        ClosedHasRecovery(c, front);
        var j :| 0 <= j <= |front| && Recovery(c, front, j) && NeverReaches(front[j..], c.threshold);
        RecoveryExtends(c, es, j);
      } else {
        assert Recovery(c, es, |es|) && NeverReaches(es[|es|..], c.threshold);
      }
    }
  }

  lemma RecoveryExtends(c: Config, es: seq<Event>, j: nat)
    requires c.Valid() && es != [] && j < |es| && Recovery(c, es[..|es| - 1], j)
    requires NeverReaches(es[..|es| - 1][j..], c.threshold) && After(c, FRESH, es).mode == Closed
    ensures Recovery(c, es, j) && NeverReaches(es[j..], c.threshold)
  {
    var front := es[..|es| - 1];
    if j > 0 { assert front[..j - 1] == es[..j - 1]; }
    RecoveredCore(c, es, j);
    var b := After(c, FRESH, es[..j]);
    assert front[j..] == es[j..][..|es| - j - 1] && es[..|es|] == es && es[j..|es|] == es[j..];
    StaysClosedIff(c, b, front[j..]);
    StaysClosedFront(c, b, es[j..]);
    StaysClosedIff(c, b, es[j..]);
  }

  // --- open and half-open -----------------------------------------------------------------------------

  /** Only a failure opens the circuit, and the interval starts with it. */
  lemma OpensAtFailure(c: Config, es: seq<Event>)
    requires es != [] && After(c, FRESH, es[..|es| - 1]).mode != Open && After(c, FRESH, es).mode == Open
    ensures var e := es[|es| - 1]; e.Report? && !e.ok && After(c, FRESH, es).openedAt == e.at
  {
  }

  /** Until the interval is over an open circuit stays open and refuses every call, whatever late reports
      come in, successes among them. */
  lemma {:induction false} OpenRefuses(c: Config, b: Core, es: seq<Event>, to: real)
    requires c.Valid() && b.mode == Open && Clocked(es, b.openedAt, to) && to < b.openedAt + c.reset
    ensures After(c, b, es).mode == Open && b.openedAt <= After(c, b, es).openedAt <= to
    ensures Admissions(c, b, es) == 0
    decreases |es|
  {
    if es != [] {
      ClockedFront(es, b.openedAt, to);
      OpenRefuses(c, b, es[..|es| - 1], es[|es| - 1].at);
    }
  }

  /** After the interval, calls that come before any report are admitted up to the quota, and exactly. */
  lemma {:induction false} QuotaIsAdmitted(c: Config, b: Core, es: seq<Event>)
    requires c.Valid() && b.mode == Open && b.probes == 0
    requires forall i :: 0 <= i < |es| ==> es[i].Ask? && es[i].at >= b.openedAt + c.reset
    ensures Admissions(c, b, es) == if |es| <= c.maxProbes then |es| else c.maxProbes
    ensures es != [] ==> After(c, b, es).mode == HalfOpen && After(c, b, es).probes == Admissions(c, b, es)
    decreases |es|
  {
    if es != [] {
      QuotaIsAdmitted(c, b, es[..|es| - 1]);
    }
  }

  /** A failure reported half-open opens the circuit again, from that moment. */
  lemma FailureReopens(c: Config, es: seq<Event>, at: real)
    requires c.Valid() && After(c, FRESH, es).mode == HalfOpen
    ensures var b := After(c, FRESH, es + [Report(false, at)]); b.mode == Open && b.openedAt == at && b.probes == 0
  {
    assert (es + [Report(false, at)])[..|es|] == es;
  }

  // --- a failing dependency is called at a bounded rate ----------------------------------------------

  predicate OnlyFailures(es: seq<Event>) {
    forall i :: 0 <= i < |es| && es[i].Report? ==> !es[i].ok
  }

  /** Entries into half-open. */
  function Entries(c: Config, b: Core, es: seq<Event>): nat {
    if es == [] then 0
    else
      var front, e := es[..|es| - 1], es[|es| - 1];
      var before := After(c, b, front);
      Entries(c, b, front) + if before.mode == Open && Next(c, before, e).mode == HalfOpen then 1 else 0
  }

  /** n entries, at least r apart, fit into t seconds. */
  predicate Fits(n: nat, r: real, t: real) {
    n as real * r <= t
  }

  lemma FitsOneMore(n: nat, r: real, t: real, t': real)
    requires Fits(n, r, t) && t + r <= t'
    ensures Fits(n + 1, r, t')
  {
    assert (n + 1) as real * r == n as real * r + r;
  }

  lemma FitsLonger(n: nat, r: real, t: real, t': real)
    requires Fits(n, r, t) && t <= t'
    ensures Fits(n, r, t')
  {
  }

  lemma FitsFloor(n: nat, r: real, t: real)
    requires r > 0.0 && t >= 0.0 && Fits(n, r, t)
    ensures n <= (t / r).Floor
  {
    var q := t / r;
    assert q * r == t;
    assert n as real <= q by {
      var d := q - n as real;
      assert d * r == q * r - n as real * r;
      assert d * r >= 0.0;
    }
  }

  /** A breaker some time after an opening, with only failures since. */
  predicate Failing(c: Config, b: Core) {
    CoreOk(c, b) && b.mode != Closed
  }

  lemma FailingStep(c: Config, b: Core, e: Event)
    requires c.Valid() && Failing(c, b) && (e.Report? ==> !e.ok) && b.openedAt <= e.at
    ensures var b' := Next(c, b, e);
      && Failing(c, b') && b.openedAt <= b'.openedAt <= e.at
      && (b'.openedAt == b.openedAt || (b'.mode == Open && b'.openedAt == e.at))
      && (b.mode == Open && b'.mode == HalfOpen ==> e.at >= b.openedAt + c.reset && b'.openedAt == b.openedAt)
  {
  }

  /** From an opening on, entries into half-open are at least `reset` apart, whatever the order of
      asks and of failure reports, late ones included. */
  lemma {:induction false} EntriesAreSpaced(c: Config, b: Core, es: seq<Event>, now: real)
    requires c.Valid() && Failing(c, b) && b.mode == Open
    requires Clocked(es, b.openedAt, now) && OnlyFailures(es)
    ensures var b', n := After(c, b, es), Entries(c, b, es);
      && Failing(c, b') && b.openedAt <= b'.openedAt <= now
      && Fits(n, c.reset, (if b'.mode == Open then b'.openedAt else now) - b.openedAt)
    decreases |es|
  {
    if es != [] {
      var front, e := es[..|es| - 1], es[|es| - 1];
      ClockedFront(es, b.openedAt, now);
      EntriesAreSpaced(c, b, front, e.at);
      var before, n := After(c, b, front), Entries(c, b, front);
      FailingStep(c, before, e);
      var b' := Next(c, before, e);
      var end := if b'.mode == Open then b'.openedAt else now;
      if before.mode == Open && b'.mode == HalfOpen {
        FitsOneMore(n, c.reset, before.openedAt - b.openedAt, now - b.openedAt);
      } else {
        FitsLonger(n, c.reset, (if before.mode == Open then before.openedAt else e.at) - b.openedAt, end - b.openedAt);
      }
    }
  }

  /** n entries, all but the last one's permits spent. */
  predicate WithinQuota(admitted: nat, n: nat, c: Config, b: Core) {
    admitted <= n * c.maxProbes - (if b.mode == HalfOpen then c.maxProbes - b.probes else 0)
  }

  lemma QuotaStep(c: Config, b: Core, e: Event, admitted: nat, n: nat)
    requires c.Valid() && Failing(c, b) && (e.Report? ==> !e.ok) && b.openedAt <= e.at && WithinQuota(admitted, n, c, b)
    ensures var b' := Next(c, b, e);
      WithinQuota(admitted + (if e.Ask? && Admits(c, b, e.at) then 1 else 0),
                  n + (if b.mode == Open && b'.mode == HalfOpen then 1 else 0), c, b')
  {
    assert (n + 1) * c.maxProbes == n * c.maxProbes + c.maxProbes;
  }

  /** Each entry into half-open admits at most `maxProbes` calls. */
  lemma {:induction false} EntriesAdmitFew(c: Config, b: Core, es: seq<Event>, now: real)
    requires c.Valid() && Failing(c, b) && b.mode == Open
    requires Clocked(es, b.openedAt, now) && OnlyFailures(es)
    ensures WithinQuota(Admissions(c, b, es), Entries(c, b, es), c, After(c, b, es))
    decreases |es|
  {
    if es != [] {
      var front, e := es[..|es| - 1], es[|es| - 1];
      ClockedFront(es, b.openedAt, now);
      EntriesAdmitFew(c, b, front, e.at);
      EntriesAreSpaced(c, b, front, e.at);
      QuotaStep(c, After(c, b, front), e, Admissions(c, b, front), Entries(c, b, front));
    }
  }

  lemma TimesMonotone(n: int, k: int, m: int)
    requires n <= k && m >= 0
    ensures n * m <= k * m
  {
  }

  /** If a dependency keeps failing after an opening, at most maxProbes * floor(T / reset) calls
      reach it in the next T seconds. */
  lemma FailingDependencyRate(c: Config, es0: seq<Event>, es: seq<Event>, t: real)
    requires c.Valid() && After(c, FRESH, es0).mode == Open
    requires var b := After(c, FRESH, es0);
      t >= 0.0 && Clocked(es, b.openedAt, b.openedAt + t) && OnlyFailures(es)
    ensures Admissions(c, After(c, FRESH, es0), es) <= (t / c.reset).Floor * c.maxProbes
  {
    CoreStaysOk(c, es0);
    var b := After(c, FRESH, es0);
    EntriesAreSpaced(c, b, es, b.openedAt + t);
    EntriesAdmitFew(c, b, es, b.openedAt + t);
    var n := Entries(c, b, es);
    FitsLonger(n, c.reset, (if After(c, b, es).mode == Open then After(c, b, es).openedAt - b.openedAt else t), t);
    FitsFloor(n, c.reset, t);
    TimesMonotone(n, (t / c.reset).Floor, c.maxProbes);
  }

  function ReportsFrom(es: seq<Event>, j: nat): nat {
    if |es| <= j then 0 else ReportsFrom(es[..|es| - 1], j) + if es[|es| - 1].Report? then 1 else 0
  }

  predicate FailuresFrom(es: seq<Event>, j: nat) {
    forall i :: j <= i < |es| && es[i].Report? ==> !es[i].ok
  }

  predicate ResetBy(c: Config, es: seq<Event>, j: nat)
    requires j <= |es|
  {
    j > 0 ==> es[j - 1].Report? && (es[j - 1].ok || After(c, FRESH, es[..j]) == Opened(es[j - 1].at))
  }

  /** Event j - 1 is a success or an opening, every report since is a failure, and there are as many
      of them as the breaker counts. */
  predicate Streak(c: Config, es: seq<Event>, j: nat) {
    j <= |es| && ResetBy(c, es, j) && FailuresFrom(es, j) && ReportsFrom(es, j) == After(c, FRESH, es).failures
  }

  lemma StreakGrows(c: Config, es: seq<Event>, j: nat)
    requires es != [] && Streak(c, es[..|es| - 1], j)
    requires var e := es[|es| - 1]; e.Report? ==> !e.ok
    requires var e, n := es[|es| - 1], After(c, FRESH, es[..|es| - 1]).failures;
      After(c, FRESH, es).failures == n + if e.Report? then 1 else 0
    ensures Streak(c, es, j)
  {
    var front := es[..|es| - 1];
    assert ResetBy(c, es, j) by {
      assert es[..j] == front[..j];
    }
    assert FailuresFrom(es, j) by {
      assert forall i :: j <= i < |front| ==> es[i] == front[i];
    }
  }

  /** In every history the counter is the number of failures since the last success or opening. */
  lemma {:induction false} FailuresAreTheStreak(c: Config, es: seq<Event>)
    ensures exists j :: Streak(c, es, j)
    decreases |es|
  {
    if es == [] {
      assert Streak(c, es, 0);
    } else {
      var front, e := es[..|es| - 1], es[|es| - 1];
      FailuresAreTheStreak(c, front);
      if e.Report? && (e.ok || After(c, FRESH, es) == Opened(e.at)) {
        assert es[..|es|] == es;
        assert Streak(c, es, |es|);
      } else {
        var j :| Streak(c, front, j);
        StreakGrows(c, es, j);
      }
    }
  }

  // --- Retry-After ------------------------------------------------------------------------------------

  /** The header (app/api/errors.py): whole seconds, rounded up, never below one. */
  function RetryAfterHeader(seconds: real): int {
    var up := -((-seconds).Floor);
    if up < 1 then 1 else up
  }

  /** No more than that: the smallest whole number of seconds that is at least one and at least the
      wait. */
  lemma HeaderIsLeast(seconds: real, n: int)
    ensures RetryAfterHeader(seconds) >= 1 && RetryAfterHeader(seconds) as real >= seconds
    ensures n >= 1 && n as real >= seconds ==> RetryAfterHeader(seconds) <= n
  {
  }

  /** A refused caller is told to wait at least one second and at least the computed wait, and the
      next call that comes no earlier than that to an open circuit nobody touched is admitted. */
  lemma HonestRetryAfter(c: Config, es: seq<Event>, now: real, later: real, back: real)
    requires c.Valid()
    requires var b := After(c, FRESH, es); !Admits(c, b, now)
    requires now <= later
    ensures var b := After(c, FRESH, es);
      var wait := SecondsUntilProbe(c, Asked(c, b, now), later);
      && RetryAfterHeader(wait) >= 1 && RetryAfterHeader(wait) as real >= wait
      && (b.mode == Open && back >= later + RetryAfterHeader(wait) as real ==> Admits(c, Asked(c, b, now), back))
      && (b.mode != Open ==> b.mode == HalfOpen && wait == 0.0 && b.probes == c.maxProbes)
  {
    CoreStaysOk(c, es);
  }
}
