/** The list path: generations make the slow-reader race harmless. */
module ListCache {
  import opened Articles
  import opened Protocol
  import opened Coherence
  import OptimisticWrites

  /** `v` is the page for `w` of a database that holds the first n commits. */
  ghost predicate IsPageAsOf(log: seq<Commit>, w: Window, v: Value, n: nat) {
    n <= |log| && v == ListPage(LoadPage(Replay(log[..n]), w))
  }

  // --- the generation invariant -----------------------------------------------------------------

  /** Over all interleavings, faults and expiries: a page stored under generation g is the page of
      a database that holds every commit whose INCR returned a value <= g. */
  lemma GenerationInvariant(s: State, gen: nat, w: Window)
    requires Reachable(s) && PageKey(gen, w) in s.cache
    ensures var e := s.cache[PageKey(gen, w)];
      IsPageAsOf(s.db.log, w, e.value, e.asOf) && Covers(Bumps(s.db, ScopeOf(w)), gen, e.asOf)
  {
    ReachableInv(s);
  }

  // --- read your writes -------------------------------------------------------------------------

  /** A generation that came from Redis is no older than `db`. */
  predicate NoOlder(db: Ledger, r: Request) {
    r.Reader? && r.target.PageOf? && r.genuine ==> |Bumps(db, ScopeOf(r.target.window))| <= r.gen
  }

  /** Reader q, if it takes its generation from Redis at all, does so after s0. */
  ghost predicate StartsAfter(s0: State, s: State, q: Pid) {
    Grows(s0.db, s.db) && (q in s.reqs ==> NoOlder(s0.db, s.reqs[q]))
  }

  lemma NoOlderStep(db: Ledger, s: State, r: Request, a: Action)
    requires CanRead(r, a) && NoOlder(db, r) && Grows(db, s.db) && (r.rpc == Arrived ==> !r.genuine)
    ensures NoOlder(db, ReadStep(s, r, a))
  {
    if r.target.PageOf? {
      assert Bumps(db, ScopeOf(r.target.window)) <= Bumps(s.db, ScopeOf(r.target.window));
    }
  }

  lemma StartsAfterStep(s0: State, s: State, a: Action, q: Pid)
    requires Inv(s) && StartsAfter(s0, s, q) && Enabled(s, a)
    ensures StartsAfter(s0, Step(s, a), q)
  {
    StepGrows(s, a);
    var s' := Step(s, a);
    GrowsOn(s0.db, s.db, s'.db);
    if !Acts(a, q) {
      OthersKeepStill(s, a, q);
    } else if ReadEnabled(s, a) {
      assert ReaderOk(s.db, s.reqs[q]);
      NoOlderStep(s0.db, s, s.reqs[q], a);
    }
  }

  lemma {:induction false} StartsAfterRun(acts: seq<Action>, j: nat, q: Pid)
    requires j <= |acts| && Run(acts[..j]).Some? && Run(acts).Some?
    requires StartsAfter(Run(acts[..j]).value, Run(acts[..j]).value, q)
    ensures StartsAfter(Run(acts[..j]).value, Run(acts).value, q)
    decreases |acts|
  {
    if j < |acts| {
      var front := acts[..|acts| - 1];
      assert front[..j] == acts[..j];
      StartsAfterRun(front, j, q);
      RunKeepsInv(front);
      StartsAfterStep(Run(acts[..j]).value, Run(front).value, acts[|acts| - 1], q);
    } else {
      assert acts[..j] == acts;
    }
  }

  /** What the history field `genuine` records: Redis answered the generation read. */
  lemma {:induction false} GenuineIffAnswered(acts: seq<Action>, q: Pid)
    requires Run(acts).Some?
    ensures var s := Run(acts).value;
      if q in s.reqs && s.reqs[q].Reader? then s.reqs[q].genuine <==> Generations(q, Answered) in acts
      else Generations(q, Answered) !in acts
    decreases |acts|
  {
    if acts != [] {
      var front, a := acts[..|acts| - 1], acts[|acts| - 1];
      GenuineIffAnswered(front, q);
      RunKeepsInv(front);
      var s := Run(front).value;
      assert acts == front + [a];
      if !Acts(a, q) {
        OthersKeepStill(s, a, q);
      } else if q in s.reqs && s.reqs[q].Reader? {
        assert ReaderOk(s.db, s.reqs[q]);
      }
    }
  }

  // --- where an answer came from -------------------------------------------------------------------

  /** Action k is reader q's load, and `e` is what it read. */
  ghost predicate LoadedAt(acts: seq<Action>, k: nat, q: Pid, e: Entry) {
    k < |acts| && acts[k] == Load(q) && Run(acts[..k]).Some? && e.asOf == |Run(acts[..k]).value.db.log|
  }

  /** Action k is a lookup of reader q that found `e` under `key`. */
  ghost predicate HitAt(acts: seq<Action>, k: nat, q: Pid, key: Key, e: Entry) {
    && k < |acts| && (acts[k] == Get(q, Answered) || acts[k] == Peek(q, Answered))
    && Run(acts[..k]).Some? && Lookup(Run(acts[..k]).value, key) == Some(e)
  }

  ghost predicate GotAt(acts: seq<Action>, k: nat, q: Pid, key: Key, e: Entry) {
    LoadedAt(acts, k, q, e) || HitAt(acts, k, q, key, e)
  }

  /** `e` became reader q's value by action a in state s: its load, or a hit under its key. */
  ghost predicate GetsBy(s: State, a: Action, q: Pid, key: Key, e: Entry) {
    || (a == Load(q) && e.asOf == |s.db.log|)
    || ((a == Get(q, Answered) || a == Peek(q, Answered)) && Lookup(s, key) == Some(e))
  }

  lemma ReaderGets(s: State, r: Request, a: Action)
    requires CanRead(r, a) && ReaderOk(s.db, r) && ReadStep(s, r, a).got.Some?
    ensures var r' := ReadStep(s, r, a);
      KeyOf(r') == KeyOf(r) && (r'.got == r.got || GetsBy(s, a, a.pid, KeyOf(r), r'.got.value))
  {
  }

  /** No other step changes a reader's value or, once it has one, its key. */
  lemma GotStep(s: State, a: Action, q: Pid)
    requires Inv(s) && Enabled(s, a)
    requires var s' := Step(s, a); q in s'.reqs && s'.reqs[q].Reader? && s'.reqs[q].got.Some?
    ensures q in s.reqs && s.reqs[q].Reader?
    ensures var r, r' := s.reqs[q], Step(s, a).reqs[q];
      KeyOf(r') == KeyOf(r) && (r'.got == r.got || GetsBy(s, a, q, KeyOf(r), r'.got.value))
  {
    if !Acts(a, q) {
      OthersKeepStill(s, a, q);
    } else if ReadEnabled(s, a) {
      assert ReaderOk(s.db, s.reqs[q]);
      ReaderGets(s, s.reqs[q], a);
    }
  }

  lemma GotEarlier(acts: seq<Action>, a: Action, k: nat, q: Pid, key: Key, e: Entry)
    requires GotAt(acts, k, q, key, e)
    ensures GotAt(acts + [a], k, q, key, e)
  {
    assert (acts + [a])[..k] == acts[..k];
  }

  lemma GotNow(acts: seq<Action>, a: Action, q: Pid, key: Key, e: Entry)
    requires Run(acts).Some? && GetsBy(Run(acts).value, a, q, key, e)
    ensures GotAt(acts + [a], |acts|, q, key, e)
  {
    assert (acts + [a])[..|acts|] == acts;
  }

  lemma NothingYet(acts: seq<Action>, q: Pid)
    requires Run(acts).Some? && ReaderAt(Run(acts).value, q, Arrived)
    ensures Run(acts).value.reqs[q].got.None?
  {
    RunKeepsInv(acts);
    assert ReaderOk(Run(acts).value.db, Run(acts).value.reqs[q]);
  }

  /** A reader that had nothing after j actions got what it answers with at a later one. */
  lemma {:induction false} GotFrom(acts: seq<Action>, j: nat, q: Pid)
    requires j <= |acts| && Run(acts[..j]).Some? && Run(acts).Some?
    requires q in Run(acts[..j]).value.reqs ==> ReaderAt(Run(acts[..j]).value, q, Arrived)
    requires var s := Run(acts).value; q in s.reqs && s.reqs[q].Reader? && s.reqs[q].got.Some?
    ensures var r := Run(acts).value.reqs[q]; exists k :: j <= k && GotAt(acts, k, q, KeyOf(r), r.got.value)
    decreases |acts|
  {
    var r := Run(acts).value.reqs[q];
    if j == |acts| {
      assert acts[..j] == acts;
      NothingYet(acts, q);
    } else {
      var front, a := acts[..|acts| - 1], acts[|acts| - 1];
      assert front[..j] == acts[..j] && acts == front + [a];
      RunKeepsInv(front);
      var s := Run(front).value;
      GotStep(s, a, q);
      if r.got == s.reqs[q].got {
        GotFrom(front, j, q);
        var k :| j <= k && GotAt(front, k, q, KeyOf(r), r.got.value);
        GotEarlier(front, a, k, q, KeyOf(r), r.got.value);
      } else {
        GotNow(front, a, q, KeyOf(r), r.got.value);
      }
    }
  }

  /** Writer p has moved the counter of reader q's scope before q does anything, and q answers. */
  ghost predicate ReadsAfter(acts: seq<Action>, j: nat, p: Pid, q: Pid) {
    && j <= |acts| && Run(acts[..j]).Some? && Run(acts).Some?
    && var s0, s := Run(acts[..j]).value, Run(acts).value;
       && p in s0.reqs && s0.reqs[p].Writer? && s0.reqs[p].ix.Some?
       && (q in s0.reqs ==> ReaderAt(s0, q, Arrived))
       && ReaderAt(s, q, Done) && s.reqs[q].target.PageOf? && s.reqs[q].got.Some?
       && ScopeOf(s.reqs[q].target.window) in s0.reqs[p].bumped
  }

  lemma CommitStays(acts: seq<Action>, j: nat, p: Pid, q: Pid)
    requires ReadsAfter(acts, j, p, q)
    ensures var s0, s := Run(acts[..j]).value, Run(acts).value;
      var i := s0.reqs[p].ix.value;
      && StartsAfter(s0, s, q) && Inv(s0) && Inv(s)
      && i < |s0.db.log| <= |s.db.log| && s.db.log[i] == s0.db.log[i] && s0.db.log[i].writer == p
  {
    var s0 := Run(acts[..j]).value;
    RunKeepsInv(acts[..j]);
    RunKeepsInv(acts);
    assert WriterOk(s0.db, p, s0.reqs[p]);
    assert q in s0.reqs ==> ReaderOk(s0.db, s0.reqs[q]);
    StartsAfterRun(acts, j, q);
  }

  /** A generation from Redis is enough, hit or miss ... */
  lemma AnsweredGenerationIsFresh(acts: seq<Action>, j: nat, p: Pid, q: Pid)
    requires ReadsAfter(acts, j, p, q) && Run(acts).value.reqs[q].genuine
    ensures Run(acts).value.reqs[q].got.value.asOf > Run(acts[..j]).value.reqs[p].ix.value
  {
    var s0, s := Run(acts[..j]).value, Run(acts).value;
    CommitStays(acts, j, p, q);
    var w, r := s0.reqs[p], s.reqs[q];
    assert WriterOk(s0.db, p, w) && ReaderOk(s.db, r);
    var c := ScopeOf(r.target.window);
    assert Bumps(s0.db, c) <= Bumps(s.db, c);
    var k :| 0 <= k < |Bumps(s0.db, c)| && Bumps(s0.db, c)[k] == w.ix;
    assert Bumps(s.db, c)[k] == w.ix && k < r.gen;
  }

  /** ... and so is loading the page oneself, whatever became of the generation. */
  lemma OwnLoadIsFresh(acts: seq<Action>, j: nat, p: Pid, q: Pid, k: nat)
    requires ReadsAfter(acts, j, p, q) && j <= k && LoadedAt(acts, k, q, Run(acts).value.reqs[q].got.value)
    ensures Run(acts).value.reqs[q].got.value.asOf > Run(acts[..j]).value.reqs[p].ix.value
  {
    CommitStays(acts, j, p, q);
    assert acts[..k][..j] == acts[..j];
    assert q in Run(acts[..j]).value.reqs ==> ReaderOk(Run(acts[..j]).value.db, Run(acts[..j]).value.reqs[q]);
    StartsAfterRun(acts[..k], j, q);
  }

  // --- which load is behind a cached page ------------------------------------------------------------

  /** Action m is reader x's load of `target`, and `e` is what it read. */
  ghost predicate LoadOf(acts: seq<Action>, m: nat, x: Pid, target: Target, e: Entry) {
    && LoadedAt(acts, m, x, e)
    && var s := Run(acts[..m]).value; x in s.reqs && s.reqs[x].Reader? && s.reqs[x].target == target
  }

  ghost predicate FromLoad(acts: seq<Action>, target: Target, e: Entry) {
    exists m: nat, x: Pid :: LoadOf(acts, m, x, target, e)
  }

  lemma FromLoadMore(acts: seq<Action>, a: Action, target: Target, e: Entry)
    requires FromLoad(acts, target, e)
    ensures FromLoad(acts + [a], target, e)
  {
    var m: nat, x: Pid :| LoadOf(acts, m, x, target, e);
    assert (acts + [a])[..m] == acts[..m];
    assert LoadOf(acts + [a], m, x, target, e);
  }

  lemma FromLoadNow(acts: seq<Action>, x: Pid, e: Entry)
    requires Run(acts).Some? && x in Run(acts).value.reqs && Run(acts).value.reqs[x].Reader?
    requires e.asOf == |Run(acts).value.db.log|
    ensures FromLoad(acts + [Load(x)], Run(acts).value.reqs[x].target, e)
  {
    assert (acts + [Load(x)])[..|acts|] == acts;
    assert LoadOf(acts + [Load(x)], |acts|, x, Run(acts).value.reqs[x].target, e);
  }

  ghost predicate ReaderFromLoad(acts: seq<Action>, s: State, q: Pid) {
    ReaderAt(s, q, Loaded) && s.reqs[q].got.Some? ==> FromLoad(acts, s.reqs[q].target, s.reqs[q].got.value)
  }

  ghost predicate EntryFromLoad(acts: seq<Action>, s: State, key: Key) {
    key in s.cache ==> FromLoad(acts, TargetOf(key), s.cache[key])
  }

  /** Every cached value, and every value about to be stored, was read by some load of its target. */
  ghost predicate AllFromLoads(acts: seq<Action>, s: State) {
    (forall q :: ReaderFromLoad(acts, s, q)) && (forall key :: EntryFromLoad(acts, s, key))
  }

  lemma ReaderFromLoadStep(acts: seq<Action>, a: Action, q: Pid)
    requires Run(acts).Some? && Enabled(Run(acts).value, a) && ReaderFromLoad(acts, Run(acts).value, q)
    ensures ReaderFromLoad(acts + [a], Step(Run(acts).value, a), q)
  {
    var s, s' := Run(acts).value, Step(Run(acts).value, a);
    if ReaderAt(s', q, Loaded) && s'.reqs[q].got.Some? {
      if !Acts(a, q) {
        OthersKeepStill(s, a, q);
        FromLoadMore(acts, a, s.reqs[q].target, s.reqs[q].got.value);
      } else {
        assert a == Load(q) && q in s.reqs && s.reqs[q].Reader?;
        FromLoadNow(acts, q, s'.reqs[q].got.value);
      }
    }
  }

  lemma EntryFromLoadStep(acts: seq<Action>, a: Action, key: Key)
    requires Run(acts).Some? && Enabled(Run(acts).value, a) && AllFromLoads(acts, Run(acts).value)
    ensures EntryFromLoad(acts + [a], Step(Run(acts).value, a), key)
  {
    var s, s' := Run(acts).value, Step(Run(acts).value, a);
    if key in s'.cache {
      if key in s.cache && s'.cache[key] == s.cache[key] {
        assert EntryFromLoad(acts, s, key);
      } else {
        assert a.Put? && ReaderFromLoad(acts, s, a.pid);
      }
      FromLoadMore(acts, a, TargetOf(key), s'.cache[key]);
    }
  }

  lemma {:induction false} RunFromLoads(acts: seq<Action>)
    requires Run(acts).Some?
    ensures AllFromLoads(acts, Run(acts).value)
    decreases |acts|
  {
    if acts != [] {
      var front, a := acts[..|acts| - 1], acts[|acts| - 1];
      assert acts == front + [a];
      RunFromLoads(front);
      forall q ensures ReaderFromLoad(acts, Run(acts).value, q) {
        assert ReaderFromLoad(front, Run(front).value, q);
        ReaderFromLoadStep(front, a, q);
      }
      forall key ensures EntryFromLoad(acts, Run(acts).value, key) {
        EntryFromLoadStep(front, a, key);
      }
    }
  }

  // --- before and after a commit -----------------------------------------------------------------------

  /** Action c is the COMMIT of writer p's row. */
  ghost predicate CommittedAt(acts: seq<Action>, c: nat, p: Pid) {
    && c < |acts| && acts[c].CommitTx? && acts[c].pid == p && Run(acts[..c]).Some?
    && var s := Run(acts[..c]).value; p in s.reqs && s.reqs[p].Writer? && s.reqs[p].pending.Some?
  }

  lemma IndexByCommit(db: Ledger, w: Request, a: Action)
    requires CanWrite(db, w, a)
    ensures var w' := WriteStep(db, w, a);
      w'.ix == w.ix || (a.CommitTx? && w.pending.Some? && w'.ix == Some(|db.log|))
  {
  }

  lemma CommitMakesIndex(s: State, a: Action, p: Pid)
    requires Enabled(s, a) && p in Step(s, a).reqs && Step(s, a).reqs[p].Writer? && Step(s, a).reqs[p].ix.Some?
    ensures p in s.reqs && s.reqs[p].Writer?
    ensures s.reqs[p].ix == Step(s, a).reqs[p].ix
        || (a.CommitTx? && a.pid == p && s.reqs[p].pending.Some? && Step(s, a).reqs[p].ix == Some(|s.db.log|))
  {
    if !Acts(a, p) {
      OthersKeepStill(s, a, p);
    } else if p in s.reqs && s.reqs[p].Writer? {
      OptimisticWrites.WriterMoves(s, a);
      if WriteEnabled(s, a) { IndexByCommit(s.db, s.reqs[p], a); }
    } else if p in s.reqs {
      OptimisticWrites.ReadersStay(s, a, p);
    }
  }

  lemma {:induction false} CommittedSomewhere(acts: seq<Action>, p: Pid)
    requires Run(acts).Some?
    requires var s := Run(acts).value; p in s.reqs && s.reqs[p].Writer? && s.reqs[p].ix.Some?
    ensures exists c: nat :: CommittedAt(acts, c, p)
    decreases |acts|
  {
    if acts != [] {
      var front, a := acts[..|acts| - 1], acts[|acts| - 1];
      CommitMakesIndex(Run(front).value, a, p);
      if Run(front).value.reqs[p].ix.Some? {
        CommittedSomewhere(front, p);
        var c: nat :| CommittedAt(front, c, p);
        assert front[..c] == acts[..c];
        assert CommittedAt(acts, c, p);
      } else {
        assert CommittedAt(acts, |front|, p);
      }
    }
  }

  /** The log is as long before p's COMMIT as p's index says, and longer after it. */
  lemma {:induction false} CommittedAtIndex(acts: seq<Action>, c: nat, p: Pid)
    requires Run(acts).Some? && CommittedAt(acts, c, p)
    ensures Run(acts[..c + 1]).Some? && |Run(acts[..c + 1]).value.db.log| == |Run(acts[..c]).value.db.log| + 1
    ensures var s := Run(acts).value;
      p in s.reqs && s.reqs[p].Writer? && s.reqs[p].ix == Some(|Run(acts[..c]).value.db.log|)
    decreases |acts|
  {
    var front, a := acts[..|acts| - 1], acts[|acts| - 1];
    assert front[..c] == acts[..c];
    RunKeepsInv(front);
    if c == |front| {
      assert acts[..c + 1] == acts;
    } else {
      assert front[..c + 1] == acts[..c + 1];
      CommittedAtIndex(front, c, p);
      CommittedWriterIsFixed(Run(front).value, a, p);
    }
  }

  /** `e` was loaded before p committed. */
  ghost predicate LoadedBefore(acts: seq<Action>, target: Target, e: Entry, p: Pid) {
    exists m: nat, x: Pid, c: nat :: m < c && LoadOf(acts, m, x, target, e) && CommittedAt(acts, c, p)
  }

  lemma CommittedEarlier(acts: seq<Action>, m: nat, x: Pid, c: nat, p: Pid, target: Target, e: Entry)
    requires Run(acts).Some? && LoadOf(acts, m, x, target, e) && CommittedAt(acts, c, p)
    requires !LoadedBefore(acts, target, e, p)
    ensures var s := Run(acts).value;
      p in s.reqs && s.reqs[p].Writer? && s.reqs[p].ix.Some? && e.asOf > s.reqs[p].ix.value
  {
    CommittedAtIndex(acts, c, p);
    assert m > c;
    PrefixGrows(acts, c + 1, m);
  }

  /** What the history field `asOf` of a cached entry records, in terms of actions. */
  lemma OlderIffLoadedBefore(acts: seq<Action>, k: nat, key: Key, p: Pid)
    requires k <= |acts| && Run(acts).Some? && Run(acts[..k]).Some? && key in Run(acts[..k]).value.cache
    requires var s := Run(acts).value; p in s.reqs && s.reqs[p].Writer? && s.reqs[p].ix.Some?
    ensures var e := Run(acts[..k]).value.cache[key];
      e.asOf <= Run(acts).value.reqs[p].ix.value <==> LoadedBefore(acts, TargetOf(key), e, p)
  {
    var e, i := Run(acts[..k]).value.cache[key], Run(acts).value.reqs[p].ix.value;
    if LoadedBefore(acts, TargetOf(key), e, p) {
      var m: nat, x: Pid, c: nat :| m < c && LoadOf(acts, m, x, TargetOf(key), e) && CommittedAt(acts, c, p);
      CommittedAtIndex(acts, c, p);
      PrefixGrows(acts, m, c);
    } else {
      RunFromLoads(acts[..k]);
      assert EntryFromLoad(acts[..k], Run(acts[..k]).value, key);
      var m: nat, x: Pid :| LoadOf(acts[..k], m, x, TargetOf(key), e);
      assert acts[..k][..m] == acts[..m] && acts[..k][m] == acts[m];
      CommittedSomewhere(acts, p);
      var c: nat :| CommittedAt(acts, c, p);
      CommittedEarlier(acts, m, x, c, p, TargetOf(key), e);
    }
  }

  // --- the lookup that decides ---------------------------------------------------------------------------

  ghost predicate LookupAt(acts: seq<Action>, k: nat, q: Pid) {
    k < |acts| && (acts[k] == Get(q, Answered) || acts[k] == Peek(q, Answered)) && Run(acts[..k]).Some?
  }

  /** Just before action k, the cache held under generation zero a page that was loaded before p
      committed. */
  ghost predicate HeldOldPage(acts: seq<Action>, k: nat, p: Pid, w: Window) {
    && k <= |acts| && Run(acts[..k]).Some? && PageKey(0, w) in Run(acts[..k]).value.cache
    && LoadedBefore(acts, PageOf(w), Run(acts[..k]).value.cache[PageKey(0, w)], p)
  }

  /** Redis did not answer reader q's generation read, and answered a lookup of q at a moment when
      generation zero held a page older than p's commit. */
  ghost predicate StaleHit(acts: seq<Action>, j: nat, p: Pid, q: Pid, w: Window) {
    && Generations(q, Answered) !in acts
    && exists k :: j <= k && LookupAt(acts, k, q) && HeldOldPage(acts, k, p, w)
  }

  lemma {:induction false} ReaderKeeps(acts: seq<Action>, k: nat, q: Pid)
    requires k <= |acts| && Run(acts).Some? && Run(acts[..k]).Some?
    requires var s := Run(acts[..k]).value; q in s.reqs && s.reqs[q].Reader?
    ensures var s, s' := Run(acts[..k]).value, Run(acts).value;
      && q in s'.reqs && s'.reqs[q].Reader? && s'.reqs[q].target == s.reqs[q].target
      && (s.reqs[q].rpc == Done ==> s'.reqs[q] == s.reqs[q])
    decreases |acts|
  {
    if k == |acts| {
      assert acts[..k] == acts;
    } else {
      var front, a := acts[..|acts| - 1], acts[|acts| - 1];
      assert front[..k] == acts[..k];
      ReaderKeeps(front, k, q);
      if !Acts(a, q) { OthersKeepStill(Run(front).value, a, q); }
    }
  }

  /** A lookup that finds something decides the answer: a reader without a generation answers with what
      generation zero held at that moment. */
  lemma LookupDecides(acts: seq<Action>, k: nat, q: Pid, w: Window)
    requires Run(acts).Some? && LookupAt(acts, k, q) && Generations(q, Answered) !in acts
    requires PageKey(0, w) in Run(acts[..k]).value.cache
    requires var s := Run(acts).value; q in s.reqs && s.reqs[q].Reader? && s.reqs[q].target == PageOf(w)
    ensures Run(acts).value.reqs[q].got == Some(Run(acts[..k]).value.cache[PageKey(0, w)])
  {
    var s := Run(acts[..k]).value;
    assert acts[..k + 1][..k] == acts[..k];
    PrefixGrows(acts, k + 1, |acts|);
    assert acts[..|acts|] == acts;
    ReaderKeeps(acts, k, q);
    RunKeepsInv(acts[..k]);
    GenuineIffAnswered(acts[..k], q);
    assert ReaderOk(s.db, s.reqs[q]);
    assert KeyOf(s.reqs[q]) == PageKey(0, w);
    ReaderKeeps(acts, k + 1, q);
  }

  /** Once a writer has moved the counter of a scope, every list request of that scope that begins
      afterwards answers from a database that holds the write, whatever happened in between and in
      whatever order the counters moved: if and only if it made no stale hit. */
  lemma ReadYourWrites(acts: seq<Action>, j: nat, p: Pid, q: Pid)
    requires ReadsAfter(acts, j, p, q)
    ensures var s0, s := Run(acts[..j]).value, Run(acts).value;
      var i, r := s0.reqs[p].ix.value, s.reqs[q];
      && i < |s0.db.log| <= |s.db.log| && s.db.log[i] == s0.db.log[i] && s0.db.log[i].writer == p
      && IsPageAsOf(s.db.log, r.target.window, r.got.value.value, r.got.value.asOf)
      && (r.got.value.asOf > i <==> !StaleHit(acts, j, p, q, r.target.window))
  {
    var s, w := Run(acts).value, Run(acts).value.reqs[q].target.window;
    CommitStays(acts, j, p, q);
    IndexStays(acts, j, p);
    assert ReaderOk(s.db, s.reqs[q]);
    if StaleHit(acts, j, p, q, w) {
      var k :| j <= k && LookupAt(acts, k, q) && HeldOldPage(acts, k, p, w);
      LookupDecides(acts, k, q, w);
      OlderIffLoadedBefore(acts, k, PageKey(0, w), p);
    } else {
      NoStaleHitIsFresh(acts, j, p, q);
    }
  }

  lemma {:induction false} IndexStays(acts: seq<Action>, j: nat, p: Pid)
    requires j <= |acts| && Run(acts).Some? && Run(acts[..j]).Some?
    requires var s := Run(acts[..j]).value; p in s.reqs && s.reqs[p].Writer? && s.reqs[p].ix.Some?
    ensures var s, s' := Run(acts[..j]).value, Run(acts).value;
      p in s'.reqs && s'.reqs[p].Writer? && s'.reqs[p].ix == s.reqs[p].ix
    decreases |acts|
  {
    if j == |acts| {
      assert acts[..j] == acts;
    } else {
      var front := acts[..|acts| - 1];
      assert front[..j] == acts[..j];
      IndexStays(front, j, p);
      RunKeepsInv(front);
      CommittedWriterIsFixed(Run(front).value, acts[|acts| - 1], p);
    }
  }

  lemma {:induction false} OpStays(acts: seq<Action>, j: nat, p: Pid)
    requires j <= |acts| && Run(acts).Some? && Run(acts[..j]).Some?
    requires var s := Run(acts[..j]).value; p in s.reqs && s.reqs[p].Writer? && s.reqs[p].ix.Some?
    ensures var s, s' := Run(acts[..j]).value, Run(acts).value;
      p in s'.reqs && s'.reqs[p].Writer? && s'.reqs[p].op == s.reqs[p].op
    decreases |acts|
  {
    if j == |acts| {
      assert acts[..j] == acts;
    } else {
      var front := acts[..|acts| - 1];
      assert front[..j] == acts[..j];
      IndexStays(front, j, p);
      OpStays(front, j, p);
      RunKeepsInv(front);
      CommittedWriterIsFixed(Run(front).value, acts[|acts| - 1], p);
    }
  }

  lemma NoStaleHitIsFresh(acts: seq<Action>, j: nat, p: Pid, q: Pid)
    requires ReadsAfter(acts, j, p, q) && !StaleHit(acts, j, p, q, Run(acts).value.reqs[q].target.window)
    ensures Run(acts).value.reqs[q].got.value.asOf > Run(acts[..j]).value.reqs[p].ix.value
  {
    var s := Run(acts).value;
    var r := s.reqs[q];
    CommitStays(acts, j, p, q);
    IndexStays(acts, j, p);
    GenuineIffAnswered(acts, q);
    if r.genuine {
      AnsweredGenerationIsFresh(acts, j, p, q);
    } else {
      assert ReaderOk(s.db, r);
      GotFrom(acts, j, q);
      var k :| j <= k && GotAt(acts, k, q, KeyOf(r), r.got.value);
      if LoadedAt(acts, k, q, r.got.value) {
        OwnLoadIsFresh(acts, j, p, q, k);
      } else {
        assert LookupAt(acts, k, q);
        OlderIffLoadedBefore(acts, k, PageKey(0, r.target.window), p);
      }
    }
  }

  // --- quiescence -------------------------------------------------------------------------------

  /** Every committed write has moved both its counters. */
  ghost predicate Quiescent(s: State) {
    forall p :: p in s.reqs && s.reqs[p].Writer? && s.reqs[p].ix.Some? ==>
      Global in s.reqs[p].bumped && OfAuthor(s.reqs[p].author) in s.reqs[p].bumped
  }

  lemma ForeignCommit(t: Table, c: Commit, w: Window)
    requires w.author.Some? && c.row.author != w.author.value
    requires c.row.id in t ==> t[c.row.id].author == c.row.author
    ensures Matching(Apply(t, c), w) == Matching(t, w)
  {
    var t' := Apply(t, c);
    forall x ensures x in Matching(t', w) <==> x in Matching(t, w) {
      if x in Matching(t', w) { assert x.id in t' && x == Summarize(t'[x.id]) && t'[x.id] == t[x.id]; }
      if x in Matching(t, w) { assert x.id in t && x == Summarize(t[x.id]) && t'[x.id] == t[x.id]; }
    }
  }

  /** A step of a writer of another author's article moves neither the generation of an author's window
      nor any page of it out of the cache: the pages stay current. */
  lemma ForeignWritesKeepPages(s: State, a: Action, w: Window)
    requires Enabled(s, a) && !a.Expire? && !a.ExpireLock? && a.pid in s.reqs && s.reqs[a.pid].Writer?
    requires w.author.Some? && s.reqs[a.pid].author != w.author.value
    ensures |Bumps(Step(s, a).db, ScopeOf(w))| == |Bumps(s.db, ScopeOf(w))|
    ensures forall gen :: PageKey(gen, w) in s.cache ==>
      PageKey(gen, w) in Step(s, a).cache && Step(s, a).cache[PageKey(gen, w)] == s.cache[PageKey(gen, w)]
  {
  }

  lemma CommitKeepsAuthor(s: State, i: nat)
    requires LogOk(s) && i < |s.db.log|
    ensures var t, c := Replay(s.db.log[..i]), s.db.log[i];
      c.row.id in t ==> t[c.row.id].author == c.row.author
  {
    assert CommitOk(s, i);
  }

  /** The frame: other authors' commits leave an author's window as it was. */
  lemma {:induction false} ForeignCommits(s: State, n: nat, m: nat, w: Window)
    requires LogOk(s) && n <= m <= |s.db.log| && w.author.Some?
    requires forall i :: n <= i < m ==> s.db.log[i].row.author != w.author.value
    ensures Matching(Replay(s.db.log[..m]), w) == Matching(Replay(s.db.log[..n]), w)
    decreases m
  {
    if n < m {
      ForeignCommits(s, n, m - 1, w);
      assert s.db.log[..m] == s.db.log[..m - 1] + [s.db.log[m - 1]];
      ReplayAppend(s.db.log[..m - 1], s.db.log[m - 1]);
      CommitKeepsAuthor(s, m - 1);
      ForeignCommit(Replay(s.db.log[..m - 1]), s.db.log[m - 1], w);
    }
  }

  lemma CoveredCommit(s: State, c: Scope, i: nat, asOf: nat)
    requires Inv(s) && Quiescent(s) && i < |s.db.log|
    requires c == Global || c == OfAuthor(s.db.log[i].row.author)
    requires Covers(Bumps(s.db, c), |Bumps(s.db, c)|, asOf)
    ensures i < asOf
  {
    assert CommitOk(s, i);
    var w := s.reqs[s.db.log[i].writer];
    assert WriterOk(s.db, s.db.log[i].writer, w);
    assert c in w.bumped;
    var k :| 0 <= k < |Bumps(s.db, c)| && Bumps(s.db, c)[k] == w.ix;
  }

  /** Only foreign commits can be missing from a page stored under the current generation. */
  lemma MissedCommitsAreForeign(s: State, w: Window, asOf: nat)
    requires Inv(s) && Quiescent(s) && Covers(Bumps(s.db, ScopeOf(w)), |Bumps(s.db, ScopeOf(w))|, asOf)
    ensures forall i :: asOf <= i < |s.db.log| ==> w.author.Some? && s.db.log[i].row.author != w.author.value
    ensures w.author.None? ==> |s.db.log| <= asOf
  {
    if w.author.None? && |s.db.log| > 0 {
      CoveredCommit(s, Global, |s.db.log| - 1, asOf);
    }
    forall i | 0 <= i < |s.db.log|
      ensures i < asOf || (w.author.Some? && s.db.log[i].row.author != w.author.value)
    {
      if w.author.None? || s.db.log[i].row.author == w.author.value {
        CoveredCommit(s, ScopeOf(w), i, asOf);
      }
    }
  }

  /** So the page's window is as it was when the page was read. */
  lemma QuiescentWindow(s: State, w: Window, asOf: nat)
    requires Inv(s) && Quiescent(s) && Covers(Bumps(s.db, ScopeOf(w)), |Bumps(s.db, ScopeOf(w))|, asOf)
    requires asOf <= |s.db.log|
    ensures Matching(Replay(s.db.log[..asOf]), w) == Matching(Replay(s.db.log), w)
  {
    assert s.db.log[..|s.db.log|] == s.db.log;
    MissedCommitsAreForeign(s, w, asOf);
    if w.author.Some? {
      ForeignCommits(s, asOf, |s.db.log|, w);
    }
  }

  /** When every commit has moved its counters, whatever is cached under the current generation of
      a window is what the database answers now, pages of authors nobody touched included. */
  lemma QuiescentRefinement(s: State, w: Window)
    requires Reachable(s) && Quiescent(s)
    requires PageKey(|Bumps(s.db, ScopeOf(w))|, w) in s.cache
    ensures s.cache[PageKey(|Bumps(s.db, ScopeOf(w))|, w)].value == ListPage(LoadPage(Replay(s.db.log), w))
  {
    ReachableInv(s);
    var k := PageKey(|Bumps(s.db, ScopeOf(w))|, w);
    var e := s.cache[k];
    assert KeyOk(s.db, k, e.asOf) && EntryOk(s.db.log, k, e);
    QuiescentWindow(s, w, e.asOf);
  }
}
