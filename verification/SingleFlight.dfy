/** The single-flight lock (app/cache/article_cache.py `acquire_lock`, `release_lock`). */
module SingleFlight {
  import opened Articles
  import opened Protocol
  import opened Coherence

  /** p won the lock of k and has not released it. */
  predicate Holds(s: State, p: Pid, k: Key) {
    && p in s.reqs && s.reqs[p].Reader? && s.reqs[p].won
    && s.reqs[p].rpc in {Loading, Loaded, Releasing} && KeyOf(s.reqs[p]) == k
  }

  /** The hypothesis on one step: a claim that is not answered took the lock all the same, and no
      lock expires in use. */
  ghost predicate Orderly(s: State, a: Action) {
    match a
    case Lock(p, f) => ReaderAt(s, p, Locking) ==> f == Answered || Takes(s, p, a)
    case ExpireLock(k) => forall p :: !Holds(s, p, k)
    case _ => true
  }

  /** After the claim, Redis holds the lock under p's name. */
  predicate Takes(s: State, p: Pid, a: Action)
    requires p in s.reqs && CanRead(s.reqs[p], a)
  {
    var k, locks := KeyOf(s.reqs[p]), LocksAfter(s, s.reqs[p], a);
    k in locks && locks[k] == p
  }

  ghost predicate OrderlyRun(acts: seq<Action>) {
    acts != [] ==>
      OrderlyRun(acts[..|acts| - 1])
      && (Run(acts[..|acts| - 1]).Some? ==> Orderly(Run(acts[..|acts| - 1]).value, acts[|acts| - 1]))
  }

  ghost predicate LocksOk(s: State) {
    forall p, k :: Holds(s, p, k) ==> k in s.locks && s.locks[k] == p
  }

  /** Only a request that loads, stores or releases has won a lock, and only a winner releases. */
  predicate PhaseOk(r: Request) {
    r.Reader? ==>
      && (r.won ==> r.rpc in {Loading, Loaded, Releasing, Done})
      && (r.rpc == Releasing ==> r.won)
  }

  ghost predicate PhasesOk(s: State) {
    forall p :: p in s.reqs ==> PhaseOk(s.reqs[p])
  }

  lemma PhaseStep(s: State, r: Request, a: Action)
    requires CanRead(r, a) && PhaseOk(r)
    ensures PhaseOk(ReadStep(s, r, a))
  {
  }

  lemma PhasesStep(s: State, a: Action)
    requires PhasesOk(s) && Enabled(s, a)
    ensures PhasesOk(Step(s, a))
  {
    var s' := Step(s, a);
    forall p | p in s'.reqs ensures PhaseOk(s'.reqs[p]) {
      if !Acts(a, p) {
        OthersKeepStill(s, a, p);
      } else if ReadEnabled(s, a) {
        PhaseStep(s, s.reqs[p], a);
        assert s'.reqs[p] == ReadStep(s, s.reqs[p], a);
      } else if p in s.reqs {
        assert PhaseOk(s.reqs[p]);
      }
    }
  }

  lemma ReaderHoldsByClaim(s: State, r: Request, a: Action)
    requires CanRead(r, a) && PhaseOk(r)
    ensures var r' := ReadStep(s, r, a);
      r'.won && r'.rpc in {Loading, Loaded, Releasing} ==>
        && KeyOf(r') == KeyOf(r)
        && ((r.won && r.rpc in {Loading, Loaded, Releasing}) || (a.Lock? && r.rpc == Locking))
  {
  }

  /** A request comes to hold a key by its own claim only. */
  lemma HoldsByClaim(s: State, a: Action, p: Pid, k: Key)
    requires PhasesOk(s) && Enabled(s, a) && Holds(Step(s, a), p, k)
    ensures Holds(s, p, k) || (a.Lock? && a.pid == p && ReaderAt(s, p, Locking) && KeyOf(s.reqs[p]) == k)
  {
    if !Acts(a, p) {
      OthersKeepStill(s, a, p);
    } else if ReadEnabled(s, a) {
      assert PhaseOk(s.reqs[p]);
      ReaderHoldsByClaim(s, s.reqs[p], a);
      assert Step(s, a).reqs[p] == ReadStep(s, s.reqs[p], a);
    }
  }

  lemma ClaimStep(s: State, a: Action)
    requires Enabled(s, a) && a.Lock? && ReaderAt(s, a.pid, Locking)
    ensures var p, k := a.pid, KeyOf(s.reqs[a.pid]);
      && (Holds(Step(s, a), p, k) <==> a.fault != Answered || k !in s.locks)
      && Step(s, a).locks == LocksAfter(s, s.reqs[p], a)
  {
  }

  lemma LockStep(s: State, a: Action, p: Pid, k: Key)
    requires LocksOk(s) && PhasesOk(s) && Enabled(s, a) && Orderly(s, a) && Holds(Step(s, a), p, k)
    ensures k in Step(s, a).locks && Step(s, a).locks[k] == p
  {
    HoldsByClaim(s, a, p, k);
    if a.Lock? && a.pid == p {
      ClaimStep(s, a);
    } else if !Acts(a, p) {
      OthersLockStays(s, a, p, k);
    }
  }

  /** A release frees only the releaser's own lock, as long as every winner's lock is its own. */
  lemma OthersLockStays(s: State, a: Action, p: Pid, k: Key)
    requires LocksOk(s) && PhasesOk(s) && Enabled(s, a) && Orderly(s, a) && !Acts(a, p) && Holds(s, p, k)
    ensures k in Step(s, a).locks && Step(s, a).locks[k] == p
  {
    if ReadEnabled(s, a) && a.Release? {
      assert PhaseOk(s.reqs[a.pid]);
      assert Holds(s, a.pid, KeyOf(s.reqs[a.pid]));
    }
  }

  lemma DisorderlyClaim(s: State, a: Action)
    requires PhasesOk(s) && Enabled(s, a) && a.Lock? && !Orderly(s, a)
    ensures !LocksOk(Step(s, a))
  {
    var s' := Step(s, a);
    assert Holds(s', a.pid, KeyOf(s.reqs[a.pid]));
  }

  lemma DisorderlyExpiry(s: State, a: Action)
    requires Enabled(s, a) && a.ExpireLock? && !Orderly(s, a)
    ensures !LocksOk(Step(s, a))
  {
    var p :| Holds(s, p, a.key);
    assert Holds(Step(s, a), p, a.key);
  }

  /** Every other step keeps each winner's lock under its own name, and these steps do not. */
  lemma KeepsLocksIff(s: State, a: Action)
    requires LocksOk(s) && PhasesOk(s) && Enabled(s, a)
    ensures LocksOk(Step(s, a)) <==> Orderly(s, a)
  {
    if Orderly(s, a) {
      forall p, k | Holds(Step(s, a), p, k)
        ensures k in Step(s, a).locks && Step(s, a).locks[k] == p
      {
        LockStep(s, a, p, k);
      }
    } else if a.Lock? {
      DisorderlyClaim(s, a);
    } else {
      DisorderlyExpiry(s, a);
    }
  }

  lemma {:induction false} OrderlyRunKeepsLocks(acts: seq<Action>)
    requires OrderlyRun(acts) && Run(acts).Some?
    ensures LocksOk(Run(acts).value) && PhasesOk(Run(acts).value)
    decreases |acts|
  {
    if acts != [] {
      var front, a := acts[..|acts| - 1], acts[|acts| - 1];
      OrderlyRunKeepsLocks(front);
      var s := Run(front).value;
      PhasesStep(s, a);
      KeepsLocksIff(s, a);
    }
  }

  // --- exactly when a key has one holder ---------------------------------------------------------------

  ghost predicate OneHolder(s: State) {
    forall p, q, k :: Holds(s, p, k) && Holds(s, q, k) ==> p == q
  }

  ghost predicate Held(s: State, k: Key) {
    exists q :: Holds(s, q, k)
  }

  /** A claim on a key in use that Redis does not answer, or whose lock is no longer there. */
  ghost predicate Doubles(s: State, a: Action) {
    && a.Lock? && ReaderAt(s, a.pid, Locking)
    && Held(s, KeyOf(s.reqs[a.pid])) && (a.fault != Answered || KeyOf(s.reqs[a.pid]) !in s.locks)
  }

  lemma DoublingStep(s: State, a: Action)
    requires Enabled(s, a) && Doubles(s, a)
    ensures !OneHolder(Step(s, a))
  {
    var k := KeyOf(s.reqs[a.pid]);
    var q :| Holds(s, q, k);
    ClaimStep(s, a);
    OthersKeepStill(s, a, q);
    assert Holds(Step(s, a), q, k) && Holds(Step(s, a), a.pid, k);
  }

  /** From one holder per key, a step leads to two if and only if it is such a claim. */
  lemma OneHolderStep(s: State, a: Action)
    requires PhasesOk(s) && OneHolder(s) && Enabled(s, a)
    ensures OneHolder(Step(s, a)) <==> !Doubles(s, a)
  {
    if Doubles(s, a) {
      DoublingStep(s, a);
    } else {
      forall p, q, k | Holds(Step(s, a), p, k) && Holds(Step(s, a), q, k)
        ensures p == q
      {
        HoldsByClaim(s, a, p, k);
        HoldsByClaim(s, a, q, k);
        if a.Lock? && ReaderAt(s, a.pid, Locking) { ClaimStep(s, a); }
      }
    }
  }

  ghost predicate NeverDoubles(acts: seq<Action>) {
    acts != [] ==>
      NeverDoubles(acts[..|acts| - 1])
      && (Run(acts[..|acts| - 1]).Some? ==> !Doubles(Run(acts[..|acts| - 1]).value, acts[|acts| - 1]))
  }

  ghost predicate AlwaysOneHolder(acts: seq<Action>) {
    && (Run(acts).Some? ==> OneHolder(Run(acts).value))
    && (acts != [] ==> AlwaysOneHolder(acts[..|acts| - 1]))
  }

  lemma {:induction false} RunKeepsPhases(acts: seq<Action>)
    requires Run(acts).Some?
    ensures PhasesOk(Run(acts).value)
    decreases |acts|
  {
    if acts != [] {
      RunKeepsPhases(acts[..|acts| - 1]);
      PhasesStep(Run(acts[..|acts| - 1]).value, acts[|acts| - 1]);
    }
  }

  /** Over every run: no key ever has two holders if and only if no claim on a key in use goes
      unanswered or finds the lock gone. */
  lemma {:induction false} OneHolderIff(acts: seq<Action>)
    requires Run(acts).Some?
    ensures AlwaysOneHolder(acts) <==> NeverDoubles(acts)
    decreases |acts|
  {
    if acts != [] {
      var front, a := acts[..|acts| - 1], acts[|acts| - 1];
      OneHolderIff(front);
      if NeverDoubles(front) {
        RunKeepsPhases(front);
        OneHolderStep(Run(front).value, a);
      }
    }
  }

  lemma AtMostOneHolder(acts: seq<Action>, p: Pid, q: Pid, k: Key)
    requires NeverDoubles(acts) && Run(acts).Some?
    requires Holds(Run(acts).value, p, k) && Holds(Run(acts).value, q, k)
    ensures p == q
  {
    OneHolderIff(acts);
  }

  /** Answered claims and locks that outlive their use are enough, although a release names no owner. */
  lemma {:induction false} OrderlyNeverDoubles(acts: seq<Action>)
    requires OrderlyRun(acts) && Run(acts).Some?
    ensures NeverDoubles(acts)
    decreases |acts|
  {
    if acts != [] {
      var front, a := acts[..|acts| - 1], acts[|acts| - 1];
      OrderlyNeverDoubles(front);
      OrderlyRunKeepsLocks(front);
      OrderlyRunKeepsLocks(acts);
      var s := Run(front).value;
      assert OneHolder(Step(s, a));
      if Doubles(s, a) { DoublingStep(s, a); }
    }
  }
}
