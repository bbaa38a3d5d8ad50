/** Who holds the breaker's permits (app/resilience/breaker.py, app/resilience/guard.py): each
    admitted call holds one until it reports, or until a cancellation makes it vanish unreported
    (the guard catches `Exception` only). */
module Permits {
  import opened Breaker

  /** `next` numbers permits; those from `since` on were granted in the current half-open epoch. */
  datatype System = System(core: Core, next: nat, since: nat, outstanding: set<nat>)

  datatype Move = Call(at: real) | Finish(permit: nat, ok: bool, at: real) | Vanish(permit: nat)

  const START := System(FRESH, 0, 0, {})

  predicate Possible(s: System, m: Move) {
    match m
    case Call(_) => true
    case Finish(p, _, _) => p in s.outstanding
    case Vanish(p) => p in s.outstanding
  }

  function Moved(c: Config, s: System, m: Move): System {
    match m
    case Call(at) =>
      var core' := Asked(c, s.core, at);
      var since' := if s.core.mode != HalfOpen && core'.mode == HalfOpen then s.next else s.since;
      if Admits(c, s.core, at) then System(core', s.next + 1, since', s.outstanding + {s.next})
      else s.(core := core', since := since')
    case Finish(p, ok, at) => s.(core := Next(c, s.core, Report(ok, at)), outstanding := s.outstanding - {p})
    case Vanish(p) => s.(outstanding := s.outstanding - {p})
  }

  predicate Legal(c: Config, s: System, ms: seq<Move>)
    decreases |ms|
  {
    ms == [] || (Possible(s, ms[0]) && Legal(c, Moved(c, s, ms[0]), ms[1..]))
  }

  function Play(c: Config, s: System, ms: seq<Move>): System
    decreases |ms|
  {
    if ms == [] then s else Play(c, Moved(c, s, ms[0]), ms[1..])
  }

  predicate NoneVanish(ms: seq<Move>) {
    forall i :: 0 <= i < |ms| ==> !ms[i].Vanish?
  }

  /** Half-open, every permit of the epoch is still unreported, and there is one per probe. */
  predicate EpochOk(c: Config, s: System) {
    && CoreOk(c, s.core)
    && (forall p :: p in s.outstanding ==> p < s.next)
    && (s.core.mode == HalfOpen ==>
          && s.next == s.since + s.core.probes
          && forall p :: s.since <= p < s.next ==> p in s.outstanding)
  }

  lemma MoveKeepsEpoch(c: Config, s: System, m: Move)
    requires c.Valid() && EpochOk(c, s) && Possible(s, m) && !m.Vanish?
    ensures EpochOk(c, Moved(c, s, m))
  {
  }

  lemma {:induction false} PlayKeepsEpoch(c: Config, s: System, ms: seq<Move>)
    requires c.Valid() && EpochOk(c, s) && Legal(c, s, ms) && NoneVanish(ms)
    ensures EpochOk(c, Play(c, s, ms))
    decreases |ms|
  {
    if ms != [] {
      assert !ms[0].Vanish?;
      assert forall i :: 0 <= i < |ms[1..]| ==> ms[1..][i] == ms[i + 1];
      MoveKeepsEpoch(c, s, ms[0]);
      PlayKeepsEpoch(c, Moved(c, s, ms[0]), ms[1..]);
    }
  }

  /** If no call vanishes, a half-open breaker always awaits a report, every one of which moves it
      on: once all permits have reported, it is open or closed. */
  lemma NeverStuck(c: Config, ms: seq<Move>)
    requires c.Valid() && Legal(c, START, ms) && NoneVanish(ms)
    ensures var s := Play(c, START, ms);
      && (s.outstanding == {} ==> s.core.mode != HalfOpen)
      && (s.core.mode == HalfOpen ==>
            && s.since in s.outstanding && 1 <= s.core.probes <= c.maxProbes
            && forall p, ok, at :: p in s.outstanding ==> Moved(c, s, Finish(p, ok, at)).core.mode != HalfOpen)
  {
    PlayKeepsEpoch(c, START, ms);
    var s := Play(c, START, ms);
    if s.core.mode == HalfOpen {
      assert s.since in s.outstanding;
    }
  }

  // --- a vanished probe -----------------------------------------------------------------------------

  /** Half-open, the quota spent, and nobody left to report. */
  predicate Jammed(c: Config, s: System) {
    s.core.mode == HalfOpen && s.core.probes == c.maxProbes && s.outstanding == {}
  }

  /** No later call at any later time is admitted. */
  lemma {:induction false} JammedForever(c: Config, s: System, ms: seq<Move>)
    requires Jammed(c, s) && Legal(c, s, ms)
    ensures Play(c, s, ms) == s && forall i :: 0 <= i < |ms| ==> ms[i].Call? && !Admits(c, s.core, ms[i].at)
    decreases |ms|
  {
    if ms != [] {
      assert Moved(c, s, ms[0]) == s;
      JammedForever(c, s, ms[1..]);
      assert forall i :: 1 <= i < |ms| ==> ms[i] == ms[1..][i - 1];
    }
  }

  ghost predicate LeavesHalfOpen(c: Config, s: System) {
    exists ms :: Legal(c, s, ms) && Play(c, s, ms).core.mode != HalfOpen
  }

  /** Being jammed is the only way to be stuck: a half-open breaker with a probe left, or a report to
      come, can still move on. */
  lemma StuckIffJammed(c: Config, s: System)
    requires c.Valid() && s.core.mode == HalfOpen && CoreOk(c, s.core)
    ensures LeavesHalfOpen(c, s) <==> !Jammed(c, s)
  {
    if Jammed(c, s) {
      forall ms | Legal(c, s, ms) ensures Play(c, s, ms).core.mode == HalfOpen {
        JammedForever(c, s, ms);
      }
    } else if s.outstanding != {} {
      var p :| p in s.outstanding;
      PlayMore(c, s, [], Finish(p, true, 0.0));
    } else {
      PlayMore(c, s, [], Call(0.0));
      PlayMore(c, s, [Call(0.0)], Finish(s.next, true, 0.0));
    }
  }

  // --- cancellations can jam any breaker ------------------------------------------------------------

  lemma {:induction false} PlayMore(c: Config, s: System, ms: seq<Move>, m: Move)
    requires Legal(c, s, ms) && Possible(Play(c, s, ms), m)
    ensures Legal(c, s, ms + [m]) && Play(c, s, ms + [m]) == Moved(c, Play(c, s, ms), m)
    decreases |ms|
  {
    if ms == [] {
      assert [] + [m] == [m] && [m][1..] == [];
    } else {
      PlayMore(c, Moved(c, s, ms[0]), ms[1..], m);
      assert (ms + [m])[1..] == ms[1..] + [m];
    }
  }

  ghost predicate Reaches(c: Config, s: System) {
    exists ms :: Legal(c, START, ms) && Play(c, START, ms) == s
  }

  lemma ReachesMore(c: Config, s: System, m: Move)
    requires Reaches(c, s) && Possible(s, m)
    ensures Reaches(c, Moved(c, s, m))
  {
    var ms :| Legal(c, START, ms) && Play(c, START, ms) == s;
    PlayMore(c, START, ms, m);
  }

  /** k calls have failed, one after the other. */
  lemma {:induction false} FailTimes(c: Config, k: nat) returns (s: System)
    requires c.Valid() && k <= c.threshold
    ensures Reaches(c, s) && s.outstanding == {}
    ensures s.core == if k < c.threshold then Core(Closed, k, 0.0, 0) else Opened(0.0)
    decreases k
  {
    if k == 0 {
      s := START;
      assert Legal(c, START, []) && Play(c, START, []) == START;
    } else {
      var s0 := FailTimes(c, k - 1);
      var s1 := Moved(c, s0, Call(0.0));
      ReachesMore(c, s0, Call(0.0));
      s := Moved(c, s1, Finish(s0.next, false, 0.0));
      ReachesMore(c, s1, Finish(s0.next, false, 0.0));
    }
  }

  /** Then k probes are cancelled. */
  lemma {:induction false} CancelTimes(c: Config, k: nat) returns (s: System)
    requires c.Valid() && 1 <= k <= c.maxProbes
    ensures Reaches(c, s) && s.outstanding == {} && s.core.mode == HalfOpen && s.core.probes == k
    decreases k
  {
    var s0;
    if k == 1 {
      s0 := FailTimes(c, c.threshold);
    } else {
      s0 := CancelTimes(c, k - 1);
    }
    var s1 := Moved(c, s0, Call(c.reset));
    ReachesMore(c, s0, Call(c.reset));
    s := Moved(c, s1, Vanish(s0.next));
    ReachesMore(c, s1, Vanish(s0.next));
  }

  /** Whatever the configuration, cancelled probes can jam the breaker. */
  lemma CancelledProbesJam(c: Config)
    requires c.Valid()
    ensures exists s :: Reaches(c, s) && Jammed(c, s)
  {
    var s := CancelTimes(c, c.maxProbes);
    assert Jammed(c, s);
  }
}
