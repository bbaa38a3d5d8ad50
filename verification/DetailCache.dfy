/** The detail path: its key carries no version, so it is coherent exactly while no slow reader
    stores a body that a DEL has already overtaken (app/services/article_service.py `get`). */
module DetailCache {
  import opened Articles
  import opened Protocol
  import opened Coherence
  import OptimisticWrites

  // --- committed versions only --------------------------------------------------------------------

  /** Every cached body is some committed, live version of its article. */
  lemma BodyWasCommitted(s: State, id: int)
    requires Reachable(s) && BodyKey(id) in s.cache
    ensures var e := s.cache[BodyKey(id)];
      && e.asOf <= |s.db.log| && id in Replay(s.db.log[..e.asOf])
      && Live(Replay(s.db.log[..e.asOf])[id]) && e.value == Body(Replay(s.db.log[..e.asOf])[id])
  {
    ReachableInv(s);
  }

  // --- when a body is the live row ------------------------------------------------------------------

  /** Commit i wrote something else than what was there. */
  ghost predicate Changes(log: seq<Commit>, i: nat)
    requires i < |log|
  {
    var t, c := Replay(log[..i]), log[i];
    c.row.id in t ==> t[c.row.id] != c.row
  }

  ghost predicate ChangedSince(log: seq<Commit>, id: int, asOf: nat) {
    exists i :: asOf <= i < |log| && log[i].row.id == id && Changes(log, i)
  }

  lemma {:induction false} UnchangedRow(log: seq<Commit>, n: nat, m: nat, id: int)
    requires n <= m <= |log| && id in Replay(log[..n])
    requires forall i :: n <= i < m && log[i].row.id == id ==> !Changes(log, i)
    ensures SameRow(Replay(log[..n]), Replay(log[..m]), id)
    decreases m
  {
    if n < m {
      UnchangedRow(log, n, m - 1, id);
      assert log[..m] == log[..m - 1] + [log[m - 1]];
      ReplayAppend(log[..m - 1], log[m - 1]);
    }
  }

  /** A change after n is never taken back: the row is another one from then on. */
  lemma ChangedRow(s: State, n: nat, i: nat, id: int)
    requires Inv(s) && n <= i < |s.db.log| && id in Replay(s.db.log[..n])
    requires s.db.log[i].row.id == id && Changes(s.db.log, i)
    ensures id in Replay(s.db.log) && Replay(s.db.log)[id] != Replay(s.db.log[..n])[id]
  {
    OptimisticWrites.VersionsAdvance(s, n, i, id);
    OptimisticWrites.OneCommit(s, i, id);
    OptimisticWrites.VersionsAdvance(s, i + 1, |s.db.log|, id);
    assert s.db.log[..|s.db.log|] == s.db.log;
  }

  /** What the database answered after n commits is what it answers now if and only if no commit
      since has changed the article: every write that changes it leaves another `updated_at`. */
  lemma LiveIffUnchanged(s: State, id: int, n: nat)
    requires Inv(s) && n <= |s.db.log| && LoadValue(Replay(s.db.log[..n]), BodyOf(id)).Some?
    ensures LoadValue(Replay(s.db.log), BodyOf(id)) == LoadValue(Replay(s.db.log[..n]), BodyOf(id))
        <==> !ChangedSince(s.db.log, id, n)
  {
    if ChangedSince(s.db.log, id, n) {
      var i :| n <= i < |s.db.log| && s.db.log[i].row.id == id && Changes(s.db.log, i);
      ChangedRow(s, n, i, id);
    } else {
      UnchangedRow(s.db.log, n, |s.db.log|, id);
      assert s.db.log[..|s.db.log|] == s.db.log;
    }
  }

  /** The detail cache answers as the database does, or has nothing. */
  ghost predicate Coherent(s: State, id: int) {
    BodyKey(id) in s.cache ==> LoadValue(Replay(s.db.log), BodyOf(id)) == Some(s.cache[BodyKey(id)].value)
  }

  /** A cached body is the live row exactly while no commit after its load has changed the article. */
  lemma CachedBodyIsLiveIff(s: State, id: int)
    requires Reachable(s) && BodyKey(id) in s.cache
    ensures Coherent(s, id) <==> !ChangedSince(s.db.log, id, s.cache[BodyKey(id)].asOf)
  {
    ReachableInv(s);
    var e := s.cache[BodyKey(id)];
    assert EntryOk(s.db.log, BodyKey(id), e);
    LiveIffUnchanged(s, id, e.asOf);
  }

  /** So a reader that stores its body leaves the live row in the cache exactly when no commit between
      its load and its SET has changed the article, cleared or not. */
  lemma StoredBodyIsLiveIff(s: State, p: Pid)
    requires Reachable(s) && ReaderAt(s, p, Loaded) && s.reqs[p].target.BodyOf? && s.reqs[p].got.Some?
    ensures var r := s.reqs[p];
      Coherent(Step(s, Put(p, Answered)), r.target.id) <==> !ChangedSince(s.db.log, r.target.id, r.got.value.asOf)
  {
    ReachableInv(s);
    var r := s.reqs[p];
    assert ReaderOk(s.db, r);
    LiveIffUnchanged(s, r.target.id, r.got.value.asOf);
    var s' := Step(s, Put(p, Answered));
    assert s'.cache[BodyKey(r.target.id)] == r.got.value;
  }

  // --- what clearing does -----------------------------------------------------------------------------

  /** A commit that changed `id`, and that a value read after `asOf` commits misses, has already been
      cleared. */
  ghost predicate Overtaken(s: State, id: int, asOf: nat) {
    exists i :: asOf <= i < |s.db.log| && s.db.log[i].row.id == id && Changes(s.db.log, i) && i in s.db.cleared
  }

  ghost predicate NoneOvertaken(s: State) {
    forall k :: k in s.cache && k.BodyKey? ==> !Overtaken(s, k.id, s.cache[k].asOf)
  }

  /** The hypothesis on one step: no overtaken body is stored. */
  ghost predicate Timely(s: State, a: Action) {
    a.Put? && Ran(a.fault) && ReaderAt(s, a.pid, Loaded) && s.reqs[a.pid].target.BodyOf? && s.reqs[a.pid].got.Some? ==>
      !Overtaken(s, s.reqs[a.pid].target.id, s.reqs[a.pid].got.value.asOf)
  }

  ghost predicate TimelyRun(acts: seq<Action>) {
    acts != [] ==>
      TimelyRun(acts[..|acts| - 1])
      && (Run(acts[..|acts| - 1]).Some? ==> Timely(Run(acts[..|acts| - 1]).value, acts[|acts| - 1]))
  }

  ghost predicate ClearedOk(s: State) {
    forall i :: i in s.db.cleared ==> i < |s.db.log|
  }

  lemma CommitNamesItsArticle(s: State, p: Pid)
    requires Inv(s) && p in s.reqs && s.reqs[p].Writer? && s.reqs[p].ix.Some? && !s.reqs[p].op.Create?
    ensures s.reqs[p].ix.value < |s.db.log| && s.db.log[s.reqs[p].ix.value].row.id == s.reqs[p].op.id
  {
    assert WriterOk(s.db, p, s.reqs[p]);
    assert CommitOk(s, s.reqs[p].ix.value);
  }

  lemma ClearedStep(s: State, a: Action)
    requires Inv(s) && ClearedOk(s) && Enabled(s, a)
    ensures ClearedOk(Step(s, a))
  {
    if a.Clear? {
      assert WriterOk(s.db, a.pid, s.reqs[a.pid]);
    }
  }

  lemma OvertakenFrame(s: State, s': State, id: int, asOf: nat)
    requires s.db.log <= s'.db.log && ClearedOk(s) && s'.db.cleared == s.db.cleared
    ensures Overtaken(s', id, asOf) <==> Overtaken(s, id, asOf)
  {
    forall i | 0 <= i < |s.db.log|
      ensures s'.db.log[i] == s.db.log[i] && (Changes(s'.db.log, i) <==> Changes(s.db.log, i))
    {
      assert s'.db.log[..i] == s.db.log[..i];
    }
  }

  /** Only a DEL that ran clears a commit. */
  lemma ClearsOnlyByClear(s: State, a: Action)
    requires Enabled(s, a) && !(a.Clear? && WriteEnabled(s, a) && Ran(a.fault))
    ensures Step(s, a).db.cleared == s.db.cleared
  {
  }

  lemma ClearOvertakesOnlyItsArticle(s: State, a: Action, id: int, asOf: nat)
    requires Inv(s) && WriteEnabled(s, a) && a.Clear? && id != s.reqs[a.pid].op.id && !Overtaken(s, id, asOf)
    ensures !Overtaken(Step(s, a), id, asOf)
  {
    if s.reqs[a.pid].ix.Some? { CommitNamesItsArticle(s, a.pid); }
  }

  /** A DEL overtakes nothing that stays cached: the one body it could overtake, it removes. */
  lemma ClearKeepsBodies(s: State, a: Action)
    requires Inv(s) && NoneOvertaken(s) && WriteEnabled(s, a) && a.Clear?
    ensures NoneOvertaken(Step(s, a))
  {
    var s' := Step(s, a);
    forall k | k in s'.cache && k.BodyKey? ensures !Overtaken(s', k.id, s'.cache[k].asOf) {
      assert k in s.cache && s'.cache[k] == s.cache[k];
      if k.id != s.reqs[a.pid].op.id {
        ClearOvertakesOnlyItsArticle(s, a, k.id, s.cache[k].asOf);
      } else {
        assert !Ran(a.fault);
      }
    }
  }

  lemma OtherStepKeepsBodies(s: State, a: Action)
    requires ClearedOk(s) && NoneOvertaken(s) && Enabled(s, a) && !a.Clear? && Timely(s, a)
    ensures NoneOvertaken(Step(s, a))
  {
    var s' := Step(s, a);
    StepGrows(s, a);
    forall k | k in s'.cache && k.BodyKey? ensures !Overtaken(s', k.id, s'.cache[k].asOf) {
      OvertakenFrame(s, s', k.id, s'.cache[k].asOf);
    }
  }

  lemma {:induction false} TimelyRunKeepsBodies(acts: seq<Action>)
    requires TimelyRun(acts) && Run(acts).Some?
    ensures ClearedOk(Run(acts).value) && NoneOvertaken(Run(acts).value)
    decreases |acts|
  {
    if acts != [] {
      var front, a := acts[..|acts| - 1], acts[|acts| - 1];
      TimelyRunKeepsBodies(front);
      RunKeepsInv(front);
      var s := Run(front).value;
      ClearedStep(s, a);
      if a.Clear? { ClearKeepsBodies(s, a); } else { OtherStepKeepsBodies(s, a); }
    }
  }

  // --- what a settled cache serves ----------------------------------------------------------------------

  /** Every committed update and delete of `id` has had its DEL. */
  ghost predicate Settled(s: State, id: int) {
    forall i :: 0 <= i < |s.db.log| && s.db.log[i].row.id == id && s.db.log[i].token.Some? ==> i in s.db.cleared
  }

  lemma TouchIsCleared(s: State, n: nat, i: nat, id: int)
    requires Inv(s) && Settled(s, id) && n <= i < |s.db.log| && id in Replay(s.db.log[..n])
    ensures s.db.log[i].row.id == id ==> i in s.db.cleared
  {
    IdentityIsStable(s, n, i, id);
    assert CommitOk(s, i);
  }

  lemma SettledMeansOvertaken(s: State, id: int, n: nat)
    requires Inv(s) && Settled(s, id) && n <= |s.db.log| && id in Replay(s.db.log[..n])
    ensures ChangedSince(s.db.log, id, n) <==> Overtaken(s, id, n)
  {
    forall i | n <= i < |s.db.log| ensures s.db.log[i].row.id == id ==> i in s.db.cleared {
      TouchIsCleared(s, n, i, id);
    }
  }

  ghost predicate Stores(s: State, a: Action, id: int, e: Entry) {
    && a.Put? && Ran(a.fault) && ReaderAt(s, a.pid, Loaded) && s.reqs[a.pid].target == BodyOf(id)
    && s.reqs[a.pid].got == Some(e)
  }

  /** Action k stored `e` as the body of `id`. */
  ghost predicate StoresAt(acts: seq<Action>, k: nat, id: int, e: Entry) {
    k < |acts| && Run(acts[..k]).Some? && Stores(Run(acts[..k]).value, acts[k], id, e)
  }

  ghost predicate CachedAfter(acts: seq<Action>, j: nat, id: int, e: Entry) {
    && j <= |acts| && Run(acts[..j]).Some?
    && BodyKey(id) in Run(acts[..j]).value.cache && Run(acts[..j]).value.cache[BodyKey(id)] == e
  }

  /** Action k stored `e`, and it has been in the cache ever since. */
  ghost predicate LastStore(acts: seq<Action>, k: nat, id: int, e: Entry) {
    StoresAt(acts, k, id, e) && forall j :: k < j <= |acts| ==> CachedAfter(acts, j, id, e)
  }

  lemma {:induction false} RunKeepsCleared(acts: seq<Action>)
    ensures Run(acts).Some? ==> ClearedOk(Run(acts).value)
    decreases |acts|
  {
    if acts != [] {
      var front := acts[..|acts| - 1];
      RunKeepsCleared(front);
      RunKeepsInv(front);
      if Run(acts).Some? { ClearedStep(Run(front).value, acts[|acts| - 1]); }
    }
  }

  lemma OvertakenStays(s: State, a: Action, id: int, asOf: nat)
    requires Inv(s) && WriteEnabled(s, a) && a.Clear? && Overtaken(s, id, asOf)
    ensures Overtaken(Step(s, a), id, asOf)
  {
    var i :| asOf <= i < |s.db.log| && s.db.log[i].row.id == id && Changes(s.db.log, i) && i in s.db.cleared;
    var s' := Step(s, a);
    assert s'.db.log == s.db.log && i in s'.db.cleared;
  }

  /** As long as a body stays cached, no DEL overtakes it: the one that could removes it. */
  lemma KeptIsNotOvertaken(s: State, a: Action, id: int, asOf: nat)
    requires Inv(s) && ClearedOk(s) && Enabled(s, a) && BodyKey(id) in s.cache && BodyKey(id) in Step(s, a).cache
    ensures Overtaken(Step(s, a), id, asOf) <==> Overtaken(s, id, asOf)
  {
    if a.Clear? && WriteEnabled(s, a) && Ran(a.fault) {
      assert id != s.reqs[a.pid].op.id;
      if Overtaken(s, id, asOf) {
        OvertakenStays(s, a, id, asOf);
      } else {
        ClearOvertakesOnlyItsArticle(s, a, id, asOf);
      }
    } else {
      StepGrows(s, a);
      ClearsOnlyByClear(s, a);
      OvertakenFrame(s, Step(s, a), id, asOf);
    }
  }

  /** Only a SET puts a body into the cache. */
  lemma StoredOrKept(s: State, a: Action, id: int)
    requires Enabled(s, a) && BodyKey(id) in Step(s, a).cache
    ensures var e := Step(s, a).cache[BodyKey(id)];
      Stores(s, a, id, e) || (BodyKey(id) in s.cache && s.cache[BodyKey(id)] == e)
  {
  }

  lemma StoredEarlier(acts: seq<Action>, a: Action, k: nat, id: int, e: Entry)
    requires LastStore(acts, k, id, e) && CachedAfter(acts + [a], |acts| + 1, id, e)
    ensures LastStore(acts + [a], k, id, e)
  {
    var more := acts + [a];
    assert more[..k] == acts[..k];
    forall j | k < j <= |more| ensures CachedAfter(more, j, id, e) {
      if j <= |acts| {
        assert more[..j] == acts[..j] && CachedAfter(acts, j, id, e);
      }
    }
  }

  lemma StoredNow(acts: seq<Action>, a: Action, id: int, e: Entry)
    requires Run(acts).Some? && Stores(Run(acts).value, a, id, e) && CachedAfter(acts + [a], |acts| + 1, id, e)
    ensures LastStore(acts + [a], |acts|, id, e)
  {
    assert (acts + [a])[..|acts|] == acts;
    assert StoresAt(acts + [a], |acts|, id, e);
    forall j | |acts| < j <= |acts + [a]| ensures CachedAfter(acts + [a], j, id, e) {
      assert j == |acts| + 1;
    }
  }

  /** Every cached body was stored by some SET and has stayed since. */
  lemma {:induction false} StoredOnce(acts: seq<Action>, id: int)
    requires Run(acts).Some? && BodyKey(id) in Run(acts).value.cache
    ensures exists k: nat :: LastStore(acts, k, id, Run(acts).value.cache[BodyKey(id)])
    decreases |acts|
  {
    assert acts != [];
    var front, a := acts[..|acts| - 1], acts[|acts| - 1];
    var s := Run(front).value;
    var e := Run(acts).value.cache[BodyKey(id)];
    assert acts == front + [a] && acts[..|acts|] == acts;
    StoredOrKept(s, a, id);
    if Stores(s, a, id, e) {
      StoredNow(front, a, id, e);
    } else {
      StoredOnce(front, id);
      var k: nat :| LastStore(front, k, id, e);
      StoredEarlier(front, a, k, id, e);
    }
  }

  lemma StoreOvertakesNothing(s: State, a: Action, id: int, e: Entry)
    requires Enabled(s, a) && ClearedOk(s) && Stores(s, a, id, e)
    ensures Overtaken(Step(s, a), id, e.asOf) <==> Overtaken(s, id, e.asOf)
  {
    StepGrows(s, a);
    OvertakenFrame(s, Step(s, a), id, e.asOf);
  }

  lemma LastStoreFront(acts: seq<Action>, k: nat, id: int, e: Entry)
    requires LastStore(acts, k, id, e) && k + 1 < |acts|
    ensures LastStore(acts[..|acts| - 1], k, id, e)
    ensures CachedAfter(acts, |acts| - 1, id, e) && CachedAfter(acts, |acts|, id, e)
  {
    var front := acts[..|acts| - 1];
    assert front[..k] == acts[..k];
    forall j | k < j <= |front| ensures CachedAfter(front, j, id, e) {
      assert front[..j] == acts[..j] && CachedAfter(acts, j, id, e);
    }
    assert CachedAfter(acts, |acts| - 1, id, e) && CachedAfter(acts, |acts|, id, e);
  }

  /** Whether a DEL has overtaken the body that a SET left in the cache is decided at that SET. */
  lemma {:induction false} DecidedAtStore(acts: seq<Action>, k: nat, id: int, e: Entry)
    requires Run(acts).Some? && LastStore(acts, k, id, e)
    ensures Overtaken(Run(acts).value, id, e.asOf) <==> Overtaken(Run(acts[..k]).value, id, e.asOf)
    decreases |acts|
  {
    var front, a := acts[..|acts| - 1], acts[|acts| - 1];
    RunKeepsInv(front);
    RunKeepsCleared(front);
    var s := Run(front).value;
    if k + 1 == |acts| {
      StoreOvertakesNothing(s, a, id, e);
    } else {
      LastStoreFront(acts, k, id, e);
      assert acts[..|acts|] == acts && front[..k] == acts[..k];
      DecidedAtStore(front, k, id, e);
      KeptIsNotOvertaken(s, a, id, e.asOf);
    }
  }

  /** Over every run: once all committed writes of an article have had their DEL, its cached body, which
      some SET left there, is the live row if and only if at that SET no DEL of a change that its load
      had missed had run. */
  lemma SettledBodyIsLiveIff(acts: seq<Action>, id: int)
    requires Run(acts).Some? && Settled(Run(acts).value, id) && BodyKey(id) in Run(acts).value.cache
    ensures var s := Run(acts).value;
      var e := s.cache[BodyKey(id)];
      && (exists k: nat :: LastStore(acts, k, id, e))
      && forall k: nat :: LastStore(acts, k, id, e) ==>
           (Coherent(s, id) <==> !Overtaken(Run(acts[..k]).value, id, e.asOf))
  {
    var s := Run(acts).value;
    var e := s.cache[BodyKey(id)];
    RunKeepsInv(acts);
    assert Reachable(s);
    assert EntryOk(s.db.log, BodyKey(id), e);
    CachedBodyIsLiveIff(s, id);
    SettledMeansOvertaken(s, id, e.asOf);
    StoredOnce(acts, id);
    forall k: nat | LastStore(acts, k, id, e)
      ensures Overtaken(s, id, e.asOf) <==> Overtaken(Run(acts[..k]).value, id, e.asOf)
    {
      DecidedAtStore(acts, k, id, e);
    }
  }

  /** So in a run without an overtaken SET every settled article is served as it is, or, when it is
      gone, not at all. */
  lemma SettledBodyIsLive(acts: seq<Action>, id: int)
    requires TimelyRun(acts) && Run(acts).Some? && Settled(Run(acts).value, id)
    ensures Coherent(Run(acts).value, id)
  {
    var s := Run(acts).value;
    if BodyKey(id) in s.cache {
      RunKeepsInv(acts);
      TimelyRunKeepsBodies(acts);
      assert EntryOk(s.db.log, BodyKey(id), s.cache[BodyKey(id)]);
      assert Reachable(s);
      CachedBodyIsLiveIff(s, id);
      SettledMeansOvertaken(s, id, s.cache[BodyKey(id)].asOf);
    }
  }
}
