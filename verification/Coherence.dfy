/** What every step of the protocol keeps. */
module Coherence {
  import opened Articles
  import opened Protocol

  // --- the invariant --------------------------------------------------------------------------

  /** `e` is what the database answered for key `k` after its first `e.asOf` commits. */
  ghost predicate EntryOk(log: seq<Commit>, k: Key, e: Entry) {
    e.asOf <= |log| && LoadValue(Replay(log[..e.asOf]), TargetOf(k)) == Some(e.value)
  }

  /** A value read after `asOf` commits saw every commit behind the first `gen` increments. */
  ghost predicate Covers(bumps: seq<Option<nat>>, gen: nat, asOf: nat) {
    gen <= |bumps| && forall i :: 0 <= i < gen && bumps[i].Some? ==> bumps[i].value < asOf
  }

  /** The generation invariant for one key. */
  ghost predicate KeyOk(db: Ledger, k: Key, asOf: nat) {
    k.PageKey? ==> Covers(Bumps(db, ScopeOf(k.window)), k.gen, asOf)
  }

  ghost predicate BumpsOk(db: Ledger) {
    forall c, i :: 0 <= i < |Bumps(db, c)| && Bumps(db, c)[i].Some? ==> Bumps(db, c)[i].value < |db.log|
  }

  ghost predicate CacheOk(s: State) {
    forall k :: k in s.cache ==> EntryOk(s.db.log, k, s.cache[k]) && KeyOk(s.db, k, s.cache[k].asOf)
  }

  ghost predicate ReaderOk(db: Ledger, r: Request)
    requires r.Reader?
  {
    && KeyOk(db, KeyOf(r), |db.log|)
    && (r.rpc !in {Loaded, Releasing, Done} ==> r.got.None?)
    && (r.rpc == Arrived ==> !r.genuine)
    && (!r.genuine ==> r.gen == 0)
    && (r.got.Some? ==> EntryOk(db.log, KeyOf(r), r.got.value) && KeyOk(db, KeyOf(r), r.got.value.asOf))
  }

  ghost predicate ReadersOk(s: State) {
    forall p :: p in s.reqs && s.reqs[p].Reader? ==> ReaderOk(s.db, s.reqs[p])
  }

  /** Commit `c` is what operation `op` does to table `t`. */
  ghost predicate Writes(op: Op, t: Table, c: Commit) {
    match op
    case Create(actor, title, body) =>
      && c.token.None? && c.row.id !in t
      && c.row == Article(c.row.id, actor.id, title, body, c.row.created, c.row.created, None)
    case _ =>
      && c.token == Some(op.token) && CasMatches(t, op.id, op.token)
      && Allowed(op.actor, t[op.id].author)
      && (exists at, stamp :: stamp > t[op.id].updated && c.row == NewRow(t, op, at, stamp))
  }

  /** The article a writer authorized is still there, under the same author. */
  ghost predicate StillThere(db: Ledger, w: Request)
    requires w.Writer?
  {
    var t := Replay(db.log);
    !w.op.Create? && w.op.id in t && t[w.op.id].author == w.author && Allowed(w.op.actor, w.author)
  }

  predicate HoldsRow(db: Ledger, p: Pid, id: int) {
    id in db.rows && db.rows[id] == p
  }

  /** The counters a writer moved list its commit. */
  ghost predicate MovedOk(db: Ledger, w: Request)
    requires w.Writer?
  {
    forall c :: c in w.bumped ==> w.ix in Bumps(db, c)
  }

  ghost predicate WriterOk(db: Ledger, p: Pid, w: Request)
    requires w.Writer?
  {
    && (w.op.Create? ==> w.author == w.op.actor.id)
    && (w.wpc == Found ==> StillThere(db, w))
    && (w.pending.Some? ==>
          && w.ix.None? && w.wpc in {Cased, Ready} && w.pending.value.writer == p
          && w.pending.value.row.author == w.author
          && HoldsRow(db, p, w.pending.value.row.id)
          && Writes(w.op, Replay(db.log), w.pending.value))
    && (w.ix.Some? ==> w.ix.value < |db.log| && db.log[w.ix.value].writer == p)
    && (w.ix.Some? ==> w.wpc in {Clearing, BumpingGlobal, BumpingAuthor, Acknowledged, Aborted})
    && (w.wpc == Ready && w.pending.None? ==> w.retried)
    && (w.wpc in {Clearing, BumpingGlobal, BumpingAuthor, Acknowledged} ==> w.ix.Some? || w.retried)
    && (w.retried ==> w.op.Update? && w.ix.None? && w.pending.None?)
    && (w.wpc in {Begun, Found, Cased, Ready} ==> w.bumped == {})
    && (w.wpc in {Begun, Found, Cased} ==> !w.retried)
    && (w.wpc == Cased ==> w.op.Update? && w.pending.Some?)
    && MovedOk(db, w)
  }

  ghost predicate WritersOk(s: State) {
    forall p :: p in s.reqs && s.reqs[p].Writer? ==> WriterOk(s.db, p, s.reqs[p])
  }

  /** Commit i belongs to a writer, which wrote on top of the i commits before it. */
  ghost predicate CommitOk(s: State, i: nat)
    requires i < |s.db.log|
  {
    var p := s.db.log[i].writer;
    && p in s.reqs && s.reqs[p].Writer? && s.reqs[p].ix == Some(i)
    && s.db.log[i].row.author == s.reqs[p].author
    && Writes(s.reqs[p].op, Replay(s.db.log[..i]), s.db.log[i])
  }

  ghost predicate LogOk(s: State) {
    forall i :: 0 <= i < |s.db.log| ==> CommitOk(s, i)
  }

  ghost predicate Inv(s: State) {
    BumpsOk(s.db) && CacheOk(s) && ReadersOk(s) && WritersOk(s) && LogOk(s)
  }

  // --- how steps move the shared state ----------------------------------------------------------

  /** The log and the counters only grow. */
  ghost predicate Grows(db: Ledger, db': Ledger) {
    && db.log <= db'.log
    && forall c :: Bumps(db, c) <= Bumps(db', c)
  }

  lemma GrowsOn(a: Ledger, b: Ledger, c: Ledger)
    requires Grows(a, b) && Grows(b, c)
    ensures Grows(a, c)
  {
    forall k ensures Bumps(a, k) <= Bumps(c, k) {
      assert Bumps(a, k) <= Bumps(b, k) <= Bumps(c, k);
    }
  }

  lemma LedgerGrows(db: Ledger, w: Request, a: Action)
    requires CanWrite(db, w, a)
    ensures Grows(db, LedgerAfter(db, w, a))
  {
  }

  lemma StepGrows(s: State, a: Action)
    requires Enabled(s, a)
    ensures Grows(s.db, Step(s, a).db)
  {
    if WriteEnabled(s, a) {
      LedgerGrows(s.db, s.reqs[a.pid], a);
    }
  }

  lemma EntryFrame(log: seq<Commit>, log': seq<Commit>, k: Key, e: Entry)
    requires log <= log' && EntryOk(log, k, e)
    ensures EntryOk(log', k, e)
  {
    assert log'[..e.asOf] == log[..e.asOf];
  }

  lemma KeyFrame(db: Ledger, db': Ledger, k: Key, asOf: nat, asOf': nat)
    requires Grows(db, db') && KeyOk(db, k, asOf) && asOf <= asOf'
    ensures KeyOk(db', k, asOf')
  {
  }

  lemma ReaderFrame(db: Ledger, db': Ledger, r: Request)
    requires r.Reader? && Grows(db, db') && ReaderOk(db, r)
    ensures ReaderOk(db', r)
  {
    KeyFrame(db, db', KeyOf(r), |db.log|, |db'.log|);
    if r.got.Some? {
      EntryFrame(db.log, db'.log, KeyOf(r), r.got.value);
      KeyFrame(db, db', KeyOf(r), r.got.value.asOf, r.got.value.asOf);
    }
  }

  predicate Acts(a: Action, p: Pid) {
    match a
    case Expire(_) => false
    case ExpireLock(_) => false
    case _ => a.pid == p
  }

  /** A step changes no request but the one that takes it. */
  lemma OthersKeepStill(s: State, a: Action, p: Pid)
    requires Enabled(s, a) && !Acts(a, p)
    ensures p in Step(s, a).reqs <==> p in s.reqs
    ensures p in s.reqs ==> Step(s, a).reqs[p] == s.reqs[p]
  {
  }

  // --- counters, cache and readers --------------------------------------------------------------

  lemma LedgerBumps(db: Ledger, p: Pid, w: Request, a: Action)
    requires CanWrite(db, w, a) && BumpsOk(db) && WriterOk(db, p, w)
    ensures BumpsOk(LedgerAfter(db, w, a))
  {
    var db' := LedgerAfter(db, w, a);
    forall c, i | 0 <= i < |Bumps(db', c)| && Bumps(db', c)[i].Some?
      ensures Bumps(db', c)[i].value < |db'.log|
    {
      LedgerGrows(db, w, a);
      if i < |Bumps(db, c)| {
        assert Bumps(db', c)[i] == Bumps(db, c)[i];
      }
    }
  }

  lemma BumpsStep(s: State, a: Action)
    requires Enabled(s, a) && BumpsOk(s.db) && WritersOk(s)
    ensures BumpsOk(Step(s, a).db)
  {
    if WriteEnabled(s, a) {
      LedgerBumps(s.db, a.pid, s.reqs[a.pid], a);
    } else {
      assert forall c :: Bumps(Step(s, a).db, c) == Bumps(s.db, c);
    }
  }

  /** Every page stored under generation g holds all commits behind the first g increments: the
      generation is read before the load, and the load reads a database that has them. */
  lemma CacheStep(s: State, a: Action)
    requires Enabled(s, a) && CacheOk(s) && ReadersOk(s)
    ensures CacheOk(Step(s, a))
  {
    var s' := Step(s, a);
    StepGrows(s, a);
    forall k | k in s'.cache
      ensures EntryOk(s'.db.log, k, s'.cache[k]) && KeyOk(s'.db, k, s'.cache[k].asOf)
    {
      if a.Put? && k == KeyOf(s.reqs[a.pid]) && Ran(a.fault) {
        ReaderFrame(s.db, s'.db, s.reqs[a.pid]);
      } else {
        assert k in s.cache && s'.cache[k] == s.cache[k];
        EntryFrame(s.db.log, s'.db.log, k, s.cache[k]);
        KeyFrame(s.db, s'.db, k, s.cache[k].asOf, s.cache[k].asOf);
      }
    }
  }

  lemma ReaderStep(s: State, r: Request, a: Action)
    requires CanRead(r, a) && BumpsOk(s.db) && CacheOk(s) && ReaderOk(s.db, r)
    ensures ReadStep(s, r, a).Reader? && ReaderOk(s.db, ReadStep(s, r, a))
  {
    if a.Load? {
      assert s.db.log[..|s.db.log|] == s.db.log;
    }
  }

  lemma ReadersStep(s: State, a: Action)
    requires Enabled(s, a) && BumpsOk(s.db) && CacheOk(s) && ReadersOk(s)
    ensures ReadersOk(Step(s, a))
  {
    var s' := Step(s, a);
    StepGrows(s, a);
    forall p | p in s'.reqs && s'.reqs[p].Reader?
      ensures ReaderOk(s'.db, s'.reqs[p])
    {
      if !Acts(a, p) {
        OthersKeepStill(s, a, p);
        ReaderFrame(s.db, s'.db, s.reqs[p]);
      } else if ReadEnabled(s, a) {
        ReaderStep(s, s.reqs[p], a);
      } else if p in s.reqs {
        ReaderFrame(s.db, s'.db, s.reqs[p]);
      }
    }
  }

  // --- writers ----------------------------------------------------------------------------------

  predicate SameRow(t: Table, t': Table, id: int) {
    (id in t <==> id in t') && (id in t ==> t[id] == t'[id])
  }

  /** A write names one row, keeps its identity, and depends on nothing else in the table. */
  lemma WritesFrame(op: Op, t: Table, t': Table, c: Commit)
    requires Writes(op, t, c) && SameRow(t, t', c.row.id)
    ensures Writes(op, t', c)
  {
    if !op.Create? {
      var at, stamp :| stamp > t[op.id].updated && c.row == NewRow(t, op, at, stamp);
      assert c.row == NewRow(t', op, at, stamp);
    }
  }

  lemma WriteKeepsIdentity(op: Op, t: Table, c: Commit, id: int)
    requires Writes(op, t, c) && id in t
    ensures id in Apply(t, c)
    ensures Apply(t, c)[id].author == t[id].author && Apply(t, c)[id].created == t[id].created
  {
  }

  lemma {:induction false} IdentityIsStable(s: State, n: nat, m: nat, id: int)
    requires LogOk(s) && n <= m <= |s.db.log| && id in Replay(s.db.log[..n])
    ensures id in Replay(s.db.log[..m])
    ensures Replay(s.db.log[..m])[id].author == Replay(s.db.log[..n])[id].author
    ensures Replay(s.db.log[..m])[id].created == Replay(s.db.log[..n])[id].created
    decreases m
  {
    if n < m {
      var log := s.db.log;
      IdentityIsStable(s, n, m - 1, id);
      assert CommitOk(s, m - 1);
      assert log[..m] == log[..m - 1] + [log[m - 1]];
      ReplayAppend(log[..m - 1], log[m - 1]);
      WriteKeepsIdentity(s.reqs[log[m - 1].writer].op, Replay(log[..m - 1]), log[m - 1], id);
    }
  }

  lemma MovedFrame(db: Ledger, db': Ledger, w: Request)
    requires w.Writer? && MovedOk(db, w) && Grows(db, db')
    ensures MovedOk(db', w)
  {
    forall c | c in w.bumped ensures w.ix in Bumps(db', c) {
      var i :| 0 <= i < |Bumps(db, c)| && Bumps(db, c)[i] == w.ix;
      assert Bumps(db', c)[i] == w.ix;
    }
  }

  lemma WriterFrame(db: Ledger, db': Ledger, p: Pid, w: Request)
    requires w.Writer? && WriterOk(db, p, w) && Grows(db, db') && db'.log == db.log
    requires w.pending.Some? ==> HoldsRow(db', p, w.pending.value.row.id)
    ensures WriterOk(db', p, w)
  {
    MovedFrame(db, db', w);
  }

  lemma RowsFrame(db: Ledger, q: Pid, v: Request, a: Action, p: Pid, id: int)
    requires CanWrite(db, v, a) && WriterOk(db, q, v) && q != p && a.pid == q && HoldsRow(db, p, id)
    ensures HoldsRow(LedgerAfter(db, v, a), p, id)
  {
  }

  /** Nobody else commits to a row a writer holds or changes who owns the one it authorized. */
  lemma OtherWriterAtCommit(db: Ledger, q: Pid, v: Request, a: Action, p: Pid, w: Request)
    requires CanWrite(db, v, a) && a.CommitTx? && v.pending.Some? && a.pid == q && q != p
    requires WriterOk(db, q, v) && w.Writer? && WriterOk(db, p, w)
    ensures WriterOk(LedgerAfter(db, v, a), p, w)
  {
    var db' := LedgerAfter(db, v, a);
    var c := v.pending.value;
    LedgerGrows(db, v, a);
    MovedFrame(db, db', w);
    ReplayAppend(db.log, c);
    if w.wpc == Found {
      WriteKeepsIdentity(v.op, Replay(db.log), c, w.op.id);
    }
    if w.pending.Some? {
      RowsFrame(db, q, v, a, p, w.pending.value.row.id);
      WritesFrame(w.op, Replay(db.log), Replay(db'.log), w.pending.value);
    }
  }

  lemma OtherWriter(db: Ledger, q: Pid, v: Request, a: Action, p: Pid, w: Request)
    requires CanWrite(db, v, a) && a.pid == q && q != p
    requires WriterOk(db, q, v) && w.Writer? && WriterOk(db, p, w)
    ensures WriterOk(LedgerAfter(db, v, a), p, w)
  {
    if a.CommitTx? && v.pending.Some? {
      OtherWriterAtCommit(db, q, v, a, p, w);
    } else {
      LedgerGrows(db, v, a);
      if w.pending.Some? {
        RowsFrame(db, q, v, a, p, w.pending.value.row.id);
      }
      WriterFrame(db, LedgerAfter(db, v, a), p, w);
    }
  }

  lemma OtherWriterAtDeath(db: Ledger, q: Pid, v: Request, p: Pid, w: Request)
    requires q != p && v.Writer? && WriterOk(db, q, v) && w.Writer? && WriterOk(db, p, w)
    ensures WriterOk(Unlock(db, v), p, w)
  {
    var db' := Unlock(db, v);
    assert forall c :: Bumps(db', c) == Bumps(db, c);
    WriterFrame(db, db', p, w);
  }

  lemma ActingFind(s: State, p: Pid, w: Request, a: Action)
    requires LogOk(s) && CanWrite(s.db, w, a) && WriterOk(s.db, p, w) && a.Find?
    ensures WriterOk(s.db, p, WriteStep(s.db, w, a))
  {
    var t := Replay(s.db.log[..a.asOf]);
    if Found?(t, w.op) {
      IdentityIsStable(s, a.asOf, |s.db.log|, w.op.id);
      assert s.db.log[..|s.db.log|] == s.db.log;
    }
  }

  lemma ActingStatement(db: Ledger, p: Pid, w: Request, a: Action)
    requires CanWrite(db, w, a) && WriterOk(db, p, w) && (a.Insert? || a.Cas? || a.Reread?) && a.pid == p
    ensures WriterOk(LedgerAfter(db, w, a), p, WriteStep(db, w, a))
  {
    if a.Cas? && CasMatches(Replay(db.log), w.op.id, w.op.token) {
      var row := NewRow(Replay(db.log), w.op, a.at, a.stamp);
      assert row == WriteStep(db, w, a).pending.value.row;
    }
  }

  lemma ActingAfterwards(db: Ledger, p: Pid, w: Request, a: Action)
    requires CanWrite(db, w, a) && WriterOk(db, p, w) && (a.CommitTx? || a.Clear? || a.BumpGlobal? || a.BumpAuthor?)
    ensures WriterOk(LedgerAfter(db, w, a), p, WriteStep(db, w, a))
  {
    LedgerGrows(db, w, a);
    MovedFrame(db, LedgerAfter(db, w, a), w);
  }

  lemma ActingWriter(s: State, a: Action)
    requires WriteEnabled(s, a) && WritersOk(s) && LogOk(s)
    ensures WriterOk(LedgerAfter(s.db, s.reqs[a.pid], a), a.pid, WriteStep(s.db, s.reqs[a.pid], a))
  {
    var p, w := a.pid, s.reqs[a.pid];
    match a
    case Find(_, _) => ActingFind(s, p, w, a);
    case Insert(_, _, _) => ActingStatement(s.db, p, w, a);
    case Cas(_, _, _) => ActingStatement(s.db, p, w, a);
    case Reread(_, _) => ActingStatement(s.db, p, w, a);
    case _ => ActingAfterwards(s.db, p, w, a);
  }

  lemma WritersStep(s: State, a: Action)
    requires Enabled(s, a) && WritersOk(s) && LogOk(s)
    ensures WritersOk(Step(s, a))
  {
    var s' := Step(s, a);
    forall p | p in s'.reqs && s'.reqs[p].Writer?
      ensures WriterOk(s'.db, p, s'.reqs[p])
    {
      if !Acts(a, p) {
        OthersKeepStill(s, a, p);
        if WriteEnabled(s, a) {
          OtherWriter(s.db, a.pid, s.reqs[a.pid], a, p, s.reqs[p]);
        } else if a.Die? && s.reqs[a.pid].Writer? {
          OtherWriterAtDeath(s.db, a.pid, s.reqs[a.pid], p, s.reqs[p]);
        }
      } else if WriteEnabled(s, a) {
        ActingWriter(s, a);
      } else if a.Die? {
        assert WriterOk(s.db, p, s.reqs[p]);
      }
    }
  }

  // --- the log ------------------------------------------------------------------------------------

  /** A committed write's author, operation and place in the log never change. */
  lemma CommittedWriterIsFixed(s: State, a: Action, p: Pid)
    requires Enabled(s, a) && WritersOk(s) && p in s.reqs && s.reqs[p].Writer? && s.reqs[p].ix.Some?
    ensures p in Step(s, a).reqs
    ensures var w, w' := s.reqs[p], Step(s, a).reqs[p];
      w'.Writer? && w'.ix == w.ix && w'.op == w.op && w'.author == w.author
  {
    assert WriterOk(s.db, p, s.reqs[p]);
    if !Acts(a, p) { OthersKeepStill(s, a, p); }
  }

  lemma LogStep(s: State, a: Action)
    requires Enabled(s, a) && WritersOk(s) && LogOk(s)
    ensures LogOk(Step(s, a))
  {
    var s' := Step(s, a);
    StepGrows(s, a);
    forall i | 0 <= i < |s'.db.log| ensures CommitOk(s', i) {
      if i < |s.db.log| {
        assert CommitOk(s, i);
        assert s'.db.log[..i] == s.db.log[..i];
        CommittedWriterIsFixed(s, a, s.db.log[i].writer);
      } else {
        assert WriterOk(s.db, a.pid, s.reqs[a.pid]);
        assert s'.db.log[..i] == s.db.log;
      }
    }
  }

  // --- every run ----------------------------------------------------------------------------------

  lemma InvStep(s: State, a: Action)
    requires Inv(s) && Enabled(s, a)
    ensures Inv(Step(s, a))
  {
    BumpsStep(s, a);
    CacheStep(s, a);
    ReadersStep(s, a);
    WritersStep(s, a);
    LogStep(s, a);
  }

  lemma {:induction false} RunKeepsInv(acts: seq<Action>)
    ensures Run(acts).Some? ==> Inv(Run(acts).value)
    decreases |acts|
  {
    if acts != [] {
      RunKeepsInv(acts[..|acts| - 1]);
      if Run(acts).Some? {
        InvStep(Run(acts[..|acts| - 1]).value, acts[|acts| - 1]);
      }
    }
  }

  /** Every prefix of a run is a run, and what writers share only grows along it. */
  lemma {:induction false} PrefixGrows(acts: seq<Action>, k: nat, l: nat)
    requires k <= l <= |acts| && Run(acts).Some?
    ensures Run(acts[..k]).Some? && Run(acts[..l]).Some?
    ensures Grows(Run(acts[..k]).value.db, Run(acts[..l]).value.db)
    decreases |acts|, l
  {
    if l < |acts| {
      var front := acts[..|acts| - 1];
      assert front[..k] == acts[..k] && front[..l] == acts[..l];
      PrefixGrows(front, k, l);
    } else if k < l {
      var front := acts[..|acts| - 1];
      assert acts[..l] == acts && front[..k] == acts[..k] && front[..l - 1] == front;
      PrefixGrows(acts, k, l - 1);
      StepGrows(Run(front).value, acts[|acts| - 1]);
      GrowsOn(Run(acts[..k]).value.db, Run(front).value.db, Run(acts).value.db);
    }
  }

  lemma ReachableInv(s: State)
    requires Reachable(s)
    ensures Inv(s)
  {
    var acts :| Run(acts) == Some(s);
    RunKeepsInv(acts);
  }
}
