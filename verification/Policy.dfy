/** The validated budget of each dependency (app/resilience/policy.py). Durations are seconds. */
module Policy {

  datatype Settings = Settings(
    connectTimeout: real, statementTimeout: real, callTimeout: real, redisTimeout: real,
    backoffBase: real, backoffMax: real, resetSeconds: real,
    attempts: int, failureThreshold: int, halfOpenMaxCalls: int)

  datatype DependencyPolicy = DependencyPolicy(
    callTimeout: real, attempts: int, backoffBase: real, backoffMax: real,
    failureThreshold: int, resetSeconds: real, halfOpenMaxCalls: int)

  /** The variable the ValueError names. */
  datatype Fault = DbConnectTimeout | DbStatementTimeout | DbCallTimeout | RedisSocketTimeout | BackoffBase
    | BreakerReset | RetryAttempts | FailureThreshold | HalfOpenMaxCalls | BackoffMax | CallBelowStatement
    | AttemptsOverBudget

  datatype Result = Policies(mysql: DependencyPolicy, redis: DependencyPolicy) | Rejected(fault: Fault)

  // --- the longest the waits can add up to ----------------------------------------------------------

  function Pow2(n: nat): real {
    if n == 0 then 1.0 else 2.0 * Pow2(n - 1)
  }

  function Min(x: real, y: real): real {
    if x <= y then x else y
  }

  /** The ceiling of the wait after attempt k + 1. */
  function Ceiling(base: real, cap: real, k: nat): real {
    Min(base * Pow2(k), cap)
  }

  /** The sum of the first n ceilings. */
  function Ceilings(base: real, cap: real, n: nat): real {
    if n == 0 then 0.0 else Ceilings(base, cap, n - 1) + Ceiling(base, cap, n - 1)
  }

  function Retries(attempts: int): nat {
    if attempts > 1 then attempts - 1 else 0
  }

  function WorstCaseBackoff(p: DependencyPolicy): real {
    Ceilings(p.backoffBase, p.backoffMax, Retries(p.attempts))
  }

  // --- the closed form --------------------------------------------------------------------------------

  /** How many of the first n waits are still below the cap. */
  function Crossover(base: real, cap: real, n: nat): (m: nat)
    ensures m <= n
  {
    if n == 0 then 0 else if base * Pow2(n - 1) <= cap then n else Crossover(base, cap, n - 1)
  }

  lemma {:induction false} Pow2Grows(i: nat, j: nat)
    requires i <= j
    ensures 1.0 <= Pow2(i) <= Pow2(j)
    decreases j
  {
    if i < j {
      Pow2Grows(i, j - 1);
    } else if i > 0 {
      Pow2Grows(i - 1, i - 1);
    }
  }

  lemma Scale(base: real, x: real, y: real)
    requires base > 0.0 && x <= y
    ensures base * x <= base * y
  {
  }

  /** While no wait reaches the cap the sum is geometric. */
  lemma {:induction false} GeometricSum(base: real, cap: real, n: nat)
    requires base > 0.0 && (n > 0 ==> base * Pow2(n - 1) <= cap)
    ensures Ceilings(base, cap, n) == base * (Pow2(n) - 1.0)
  {
    if n > 0 {
      if n > 1 {
        Pow2Grows(n - 2, n - 1);
        Scale(base, Pow2(n - 2), Pow2(n - 1));
      }
      GeometricSum(base, cap, n - 1);
      assert base * (Pow2(n) - 1.0) == base * (Pow2(n - 1) - 1.0) + base * Pow2(n - 1);
    }
  }

  function Times(k: int, x: real): real {
    k as real * x
  }

  lemma OneMore(k: int, x: real)
    ensures Times(k + 1, x) == Times(k, x) + x && Times(0, x) == 0.0
  {
  }

  /** base * (2^m - 1) + (n - m) * cap */
  function Closed(base: real, cap: real, n: nat, m: nat): real {
    base * (Pow2(m) - 1.0) + Times(n - m, cap)
  }

  /** The worst case doubles up to the crossover and is linear after it. */
  lemma {:induction false} ClosedForm(base: real, cap: real, n: nat)
    requires base > 0.0
    ensures Ceilings(base, cap, n) == Closed(base, cap, n, Crossover(base, cap, n))
  {
    if n > 0 {
      if base * Pow2(n - 1) <= cap {
        GeometricSum(base, cap, n);
        OneMore(0, cap);
      } else {
        ClosedForm(base, cap, n - 1);
        OneMore(n - 1 - Crossover(base, cap, n - 1), cap);
      }
    } else {
      OneMore(0, cap);
    }
  }

  lemma {:induction false} CeilingsGrow(base: real, cap: real, n: nat, n': nat)
    requires base > 0.0 && cap >= base && n <= n'
    ensures 0.0 <= Ceilings(base, cap, n) <= Ceilings(base, cap, n')
    ensures n < n' ==> Ceilings(base, cap, n) < Ceilings(base, cap, n')
    decreases n'
  {
    if n' > 0 {
      Pow2Grows(0, n' - 1);
      Scale(base, 1.0, Pow2(n' - 1));
      assert Ceiling(base, cap, n' - 1) >= base;
      if n < n' { CeilingsGrow(base, cap, n, n' - 1); } else { CeilingsGrow(base, cap, n - 1, n' - 1); }
    }
  }

  // --- the validation -----------------------------------------------------------------------------------

  function MysqlPolicy(s: Settings): DependencyPolicy {
    DependencyPolicy(s.callTimeout, s.attempts, s.backoffBase, s.backoffMax, s.failureThreshold, s.resetSeconds,
                     s.halfOpenMaxCalls)
  }

  function BuildPolicies(s: Settings): Result {
    if s.connectTimeout <= 0.0 then Rejected(DbConnectTimeout)
    else if s.statementTimeout <= 0.0 then Rejected(DbStatementTimeout)
    else if s.callTimeout <= 0.0 then Rejected(DbCallTimeout)
    else if s.redisTimeout <= 0.0 then Rejected(RedisSocketTimeout)
    else if s.backoffBase <= 0.0 then Rejected(BackoffBase)
    else if s.resetSeconds <= 0.0 then Rejected(BreakerReset)
    else if s.attempts < 1 then Rejected(RetryAttempts)
    else if s.failureThreshold < 1 then Rejected(FailureThreshold)
    else if s.halfOpenMaxCalls < 1 then Rejected(HalfOpenMaxCalls)
    else if s.backoffMax < s.backoffBase then Rejected(BackoffMax)
    else if s.callTimeout <= s.statementTimeout then Rejected(CallBelowStatement)
    else if WorstCaseBackoff(MysqlPolicy(s)) >= s.callTimeout then Rejected(AttemptsOverBudget)
    else Policies(MysqlPolicy(s), MysqlPolicy(s).(callTimeout := s.redisTimeout, attempts := 1))
  }

  /** Exactly which settings are accepted, and what they become: Redis gets one attempt and its own
      socket timeout for a budget, and the rest is the same. */
  lemma AcceptedIff(s: Settings)
    ensures BuildPolicies(s).Policies? <==>
      && s.connectTimeout > 0.0 && s.statementTimeout > 0.0 && s.redisTimeout > 0.0
      && s.callTimeout > s.statementTimeout
      && 0.0 < s.backoffBase <= s.backoffMax && s.resetSeconds > 0.0
      && s.attempts >= 1 && s.failureThreshold >= 1 && s.halfOpenMaxCalls >= 1
      && Ceilings(s.backoffBase, s.backoffMax, s.attempts - 1) < s.callTimeout
    ensures BuildPolicies(s).Policies? ==>
      var m, r := BuildPolicies(s).mysql, BuildPolicies(s).redis;
      && m.callTimeout == s.callTimeout && m.attempts == s.attempts
      && r.callTimeout == s.redisTimeout && r.attempts == 1
      && m.backoffBase == r.backoffBase == s.backoffBase && m.backoffMax == r.backoffMax == s.backoffMax
      && m.failureThreshold == r.failureThreshold == s.failureThreshold
      && m.resetSeconds == r.resetSeconds == s.resetSeconds
      && m.halfOpenMaxCalls == r.halfOpenMaxCalls == s.halfOpenMaxCalls
  {
  }

  /** A rejection names a variable that is at fault. */
  lemma RejectionNamesTheFault(s: Settings)
    requires BuildPolicies(s).Rejected?
    ensures match BuildPolicies(s).fault
      case DbConnectTimeout => s.connectTimeout <= 0.0
      case DbStatementTimeout => s.statementTimeout <= 0.0
      case DbCallTimeout => s.callTimeout <= 0.0
      case RedisSocketTimeout => s.redisTimeout <= 0.0
      case BackoffBase => s.backoffBase <= 0.0
      case BreakerReset => s.resetSeconds <= 0.0
      case RetryAttempts => s.attempts < 1
      case FailureThreshold => s.failureThreshold < 1
      case HalfOpenMaxCalls => s.halfOpenMaxCalls < 1
      case BackoffMax => s.backoffMax < s.backoffBase
      case CallBelowStatement => s.callTimeout <= s.statementTimeout
      case AttemptsOverBudget => Ceilings(s.backoffBase, s.backoffMax, s.attempts - 1) >= s.callTimeout
  {
  }

  function Sum(waits: seq<real>): real {
    if waits == [] then 0.0 else Sum(waits[..|waits| - 1]) + waits[|waits| - 1]
  }

  /** Waits as full jitter draws them: the k-th anywhere between zero and its ceiling. */
  predicate Drawn(waits: seq<real>, p: DependencyPolicy) {
    && |waits| <= Retries(p.attempts)
    && forall k :: 0 <= k < |waits| ==> 0.0 <= waits[k] <= Ceiling(p.backoffBase, p.backoffMax, k)
  }

  lemma {:induction false} DrawnWaitsStayBelow(waits: seq<real>, p: DependencyPolicy)
    requires Drawn(waits, p)
    ensures 0.0 <= Sum(waits) <= Ceilings(p.backoffBase, p.backoffMax, |waits|)
    decreases |waits|
  {
    if waits != [] {
      assert Drawn(waits[..|waits| - 1], p);
      DrawnWaitsStayBelow(waits[..|waits| - 1], p);
    }
  }

  /** Under every accepted configuration, and however the jitter falls, the waits of one call leave
      some of its timeout to the attempts. */
  lemma BackoffFitsTheTimeout(s: Settings, waits: seq<real>)
    requires BuildPolicies(s).Policies?
    ensures Drawn(waits, BuildPolicies(s).mysql) ==> Sum(waits) < s.callTimeout
    ensures Drawn(waits, BuildPolicies(s).redis) ==> waits == [] && Sum(waits) < s.redisTimeout
  {
    var p := BuildPolicies(s).mysql;
    if Drawn(waits, p) {
      DrawnWaitsStayBelow(waits, p);
      CeilingsGrow(p.backoffBase, p.backoffMax, |waits|, Retries(p.attempts));
    }
  }

  /** Fewer attempts never break an accepted budget. */
  lemma FewerAttemptsFit(s: Settings, attempts: int)
    requires BuildPolicies(s).Policies? && 1 <= attempts <= s.attempts
    ensures BuildPolicies(s.(attempts := attempts)).Policies?
  {
    CeilingsGrow(s.backoffBase, s.backoffMax, Retries(attempts), Retries(s.attempts));
  }

  /** The attempt check, in closed form: with every other bound in place, n attempts are accepted
      exactly when base * (2^m - 1) + (n - 1 - m) * cap is below the call timeout. */
  lemma AcceptedAttempts(s: Settings, attempts: int)
    requires BuildPolicies(s.(attempts := 1)).Policies? && attempts >= 1
    ensures var n := attempts - 1;
      BuildPolicies(s.(attempts := attempts)).Policies?
      <==> Closed(s.backoffBase, s.backoffMax, n, Crossover(s.backoffBase, s.backoffMax, n)) < s.callTimeout
  {
    ClosedForm(s.backoffBase, s.backoffMax, attempts - 1);
  }
}
