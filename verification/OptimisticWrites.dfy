/** Compare-and-set writes under interleaving (app/repositories/article_repo.py `update_cas`,
    `soft_delete_cas`; app/services/article_service.py `create`, `update`, `delete`). */
module OptimisticWrites {
  import opened Articles
  import opened Protocol
  import opened Coherence

  // --- versions form a chain ------------------------------------------------------------------------

  /** Every committed update or delete was made by an author or an admin, on the version whose
      `updated_at` its token names. */
  lemma EachWriteFollowsItsToken(s: State, i: nat)
    requires Reachable(s) && i < |s.db.log| && s.db.log[i].token.Some?
    ensures var t, c := Replay(s.db.log[..i]), s.db.log[i];
      && CasMatches(t, c.row.id, c.token.value)
      && c.writer in s.reqs && s.reqs[c.writer].Writer?
      && Allowed(s.reqs[c.writer].op.actor, t[c.row.id].author)
      && c.row.author == t[c.row.id].author && c.row.created == t[c.row.id].created
      && (c.row == t[c.row.id] || c.row.updated > t[c.row.id].updated)
  {
    ReachableInv(s);
    assert CommitOk(s, i);
  }

  /** What a commit holds, in columns. An insert: the writer's title, body and id, live. An update: the
      writer's title and body on the version its token names, all else as it was. A delete: that version
      with `deleted_at` set. Updates and deletes are by the row's author or an admin. */
  lemma CommitInColumns(s: State, i: nat)
    requires Reachable(s) && i < |s.db.log|
    ensures var c, t := s.db.log[i], Replay(s.db.log[..i]);
      && c.writer in s.reqs && s.reqs[c.writer].Writer?
      && var op := s.reqs[c.writer].op;
         if op.Create? then
           && c.token == None && c.row.id !in t
           && c.row.title == op.title && c.row.body == op.body && c.row.author == op.actor.id
           && c.row.deleted == None && c.row.updated == c.row.created
         else
           && c.token == Some(op.token) && c.row.id == op.id && op.id in t
           && t[op.id].updated == op.token && t[op.id].deleted == None
           && (t[op.id].author == op.actor.id || op.actor.admin)
           && c.row.author == t[op.id].author && c.row.created == t[op.id].created
           && (op.Update? ==> c.row.title == op.title && c.row.body == op.body && c.row.deleted == None)
           && (op.Delete? ==>
                 c.row.title == t[op.id].title && c.row.body == t[op.id].body && c.row.deleted != None)
  {
    ReachableInv(s);
    assert CommitOk(s, i);
  }

  lemma OneCommit(s: State, i: nat, id: int)
    requires Inv(s) && i < |s.db.log| && id in Replay(s.db.log[..i])
    ensures var t, t' := Replay(s.db.log[..i]), Replay(s.db.log[..i + 1]);
      && id in t' && t'[id].updated >= t[id].updated
      && (t[id].deleted.Some? ==> t'[id] == t[id])
      && (s.db.log[i].row.id == id ==> t'[id] == s.db.log[i].row && (t'[id].updated > t[id].updated || t'[id] == t[id]))
  {
    assert CommitOk(s, i);
    assert s.db.log[..i + 1] == s.db.log[..i] + [s.db.log[i]];
    ReplayAppend(s.db.log[..i], s.db.log[i]);
  }

  lemma {:induction false} VersionsAdvance(s: State, n: nat, m: nat, id: int)
    requires Inv(s) && n <= m <= |s.db.log| && id in Replay(s.db.log[..n])
    ensures id in Replay(s.db.log[..m])
    ensures Replay(s.db.log[..m])[id].updated >= Replay(s.db.log[..n])[id].updated
    ensures Replay(s.db.log[..n])[id].deleted.Some? ==> Replay(s.db.log[..m])[id] == Replay(s.db.log[..n])[id]
    decreases m
  {
    if n < m {
      VersionsAdvance(s, n, m - 1, id);
      OneCommit(s, m - 1, id);
    }
  }

  /** No lost update: if two commits on one article carried the same token, the first of them
      rewrote the row as it was. */
  lemma NoLostUpdate(s: State, i: nat, j: nat)
    requires Reachable(s) && i < j < |s.db.log|
    requires s.db.log[i].token.Some? && s.db.log[i].token == s.db.log[j].token
    requires s.db.log[i].row.id == s.db.log[j].row.id
    ensures s.db.log[i].row.id in Replay(s.db.log[..i])
    ensures s.db.log[i].row == Replay(s.db.log[..i])[s.db.log[i].row.id]
  {
    ReachableInv(s);
    var id := s.db.log[i].row.id;
    EachWriteFollowsItsToken(s, i);
    EachWriteFollowsItsToken(s, j);
    OneCommit(s, i, id);
    VersionsAdvance(s, i + 1, j, id);
  }

  /** A committed soft delete is final: no later commit touches the article, and it stays deleted. */
  lemma DeletedForever(s: State, i: nat, m: nat)
    requires Reachable(s) && i < m <= |s.db.log| && s.db.log[i].row.deleted.Some?
    ensures var id := s.db.log[i].row.id;
      && id in Replay(s.db.log[..m]) && Replay(s.db.log[..m])[id] == s.db.log[i].row
      && (m < |s.db.log| ==> s.db.log[m].row.id != id)
  {
    ReachableInv(s);
    var id := s.db.log[i].row.id;
    assert s.db.log[..i + 1] == s.db.log[..i] + [s.db.log[i]];
    ReplayAppend(s.db.log[..i], s.db.log[i]);
    VersionsAdvance(s, i + 1, m, id);
    assert m < |s.db.log| ==> CommitOk(s, m);
  }

  // --- what an answer means ---------------------------------------------------------------------------

  /** An acknowledged write is durable, in full and exactly once, if and only if its re-read after
      the compare-and-set was not rolled back and retried; a create or a delete always is. */
  lemma AcknowledgedIsDurable(s: State, p: Pid)
    requires Reachable(s) && WriterAt(s, p, Acknowledged)
    ensures !s.reqs[p].retried <==> exists i :: 0 <= i < |s.db.log| && s.db.log[i].writer == p
    ensures !s.reqs[p].op.Update? ==> !s.reqs[p].retried
    ensures forall i :: 0 <= i < |s.db.log| && s.db.log[i].writer == p ==>
      s.reqs[p].ix == Some(i) && Writes(s.reqs[p].op, Replay(s.db.log[..i]), s.db.log[i])
  {
    ReachableInv(s);
    var w := s.reqs[p];
    assert WriterOk(s.db, p, w);
    forall i | 0 <= i < |s.db.log| && s.db.log[i].writer == p ensures CommitOk(s, i) {
    }
    if w.ix.Some? {
      assert s.db.log[w.ix.value].writer == p;
    }
  }

  /** Action k is p's COMMIT, and no retried re-read of p came before it. */
  predicate CommitsAt(acts: seq<Action>, k: nat, p: Pid) {
    k < |acts| && acts[k].CommitTx? && acts[k].pid == p && Reread(p, true) !in acts[..k]
  }

  predicate Commits(acts: seq<Action>, p: Pid) {
    exists k :: 0 <= k < |acts| && CommitsAt(acts, k, p)
  }

  lemma CommitsMore(acts: seq<Action>, a: Action, p: Pid)
    ensures Commits(acts + [a], p) <==> Commits(acts, p) || (a.CommitTx? && a.pid == p && Reread(p, true) !in acts)
  {
    var more := acts + [a];
    assert more[..|acts|] == acts;
    forall k: nat | k < |acts| ensures CommitsAt(more, k, p) <==> CommitsAt(acts, k, p) {
      assert more[k] == acts[k] && more[..k] == acts[..k];
    }
    assert CommitsAt(more, |acts|, p) <==> a.CommitTx? && a.pid == p && Reread(p, true) !in acts;
  }

  /** What the history fields of a writer record, and that nobody else commits. */
  ghost predicate Recorded(acts: seq<Action>, s: State, p: Pid) {
    if p in s.reqs && s.reqs[p].Writer? then
      && (s.reqs[p].ix.Some? <==> Commits(acts, p))
      && (s.reqs[p].retried <==> Reread(p, true) in acts)
    else !Commits(acts, p) && Reread(p, true) !in acts
  }

  /** A writer gets its commit by an unretried COMMIT, and only loses its transaction by a retry. */
  lemma WriteShows(db: Ledger, p: Pid, w: Request, a: Action)
    requires CanWrite(db, w, a) && WriterOk(db, p, w) && a.pid == p
    ensures var w' := WriteStep(db, w, a);
      && w'.Writer? && (w'.ix.Some? <==> w.ix.Some? || (a.CommitTx? && !w.retried))
      && (w'.retried <==> w.retried || a == Reread(p, true))
      && (w'.ix.Some? ==> if a.CommitTx? then (w'.wpc == Aborted <==> a == CommitTx(p, false))
                          else w.ix.Some? && w'.wpc != Aborted && w.wpc != Aborted)
  {
  }

  lemma WriterMoves(s: State, a: Action)
    requires Enabled(s, a) && !a.Expire? && !a.ExpireLock? && a.pid in s.reqs && s.reqs[a.pid].Writer?
    ensures a.pid in Step(s, a).reqs && (WriteEnabled(s, a) || a.Die?)
    ensures var w := s.reqs[a.pid];
      Step(s, a).reqs[a.pid] == if WriteEnabled(s, a) then WriteStep(s.db, w, a) else Dead(w)
  {
  }

  lemma RecordedStep(acts: seq<Action>, s: State, a: Action, p: Pid)
    requires Inv(s) && Enabled(s, a) && Recorded(acts, s, p)
    ensures Recorded(acts + [a], Step(s, a), p)
  {
    CommitsMore(acts, a, p);
    assert Reread(p, true) in acts + [a] <==> Reread(p, true) in acts || a == Reread(p, true);
    if !Acts(a, p) {
      OthersKeepStill(s, a, p);
    } else if p in s.reqs && s.reqs[p].Writer? {
      WriterMoves(s, a);
      if WriteEnabled(s, a) { WriteShows(s.db, p, s.reqs[p], a); }
    }
  }

  lemma {:induction false} RunIsRecorded(acts: seq<Action>, p: Pid)
    requires Run(acts).Some?
    ensures Recorded(acts, Run(acts).value, p)
    decreases |acts|
  {
    if acts != [] {
      var front, a := acts[..|acts| - 1], acts[|acts| - 1];
      assert acts == front + [a];
      RunIsRecorded(front, p);
      RunKeepsInv(front);
      RecordedStep(front, Run(front).value, a, p);
    }
  }

  /** In every run, whatever fails: the log holds a commit of request p if and only if p sent a COMMIT
      that no retry of its re-read preceded. */
  lemma CommittedIff(acts: seq<Action>, p: Pid)
    requires Run(acts).Some?
    ensures var log := Run(acts).value.db.log;
      (exists i :: 0 <= i < |log| && log[i].writer == p) <==> Commits(acts, p)
  {
    var s := Run(acts).value;
    RunKeepsInv(acts);
    RunIsRecorded(acts, p);
    if p in s.reqs && s.reqs[p].Writer? && s.reqs[p].ix.Some? {
      assert WriterOk(s.db, p, s.reqs[p]);
      assert s.db.log[s.reqs[p].ix.value].writer == p;
    }
    forall i | 0 <= i < |s.db.log| && s.db.log[i].writer == p
      ensures p in s.reqs && s.reqs[p].Writer? && s.reqs[p].ix.Some?
    {
      assert CommitOk(s, i);
    }
  }

  // --- what a failure means ----------------------------------------------------------------------------

  /** p's COMMIT was applied and its answer lost, or p died after its COMMIT was answered. */
  predicate LostItsAnswer(acts: seq<Action>, p: Pid) {
    CommitTx(p, false) in acts || DiesCommitted(acts, p)
  }

  predicate DiesCommitted(acts: seq<Action>, p: Pid) {
    exists m :: 0 <= m < |acts| && acts[m] == Die(p) && CommitTx(p, true) in acts[..m]
  }

  lemma LostEarlier(acts: seq<Action>, a: Action, p: Pid)
    requires LostItsAnswer(acts, p)
    ensures LostItsAnswer(acts + [a], p)
  {
    if DiesCommitted(acts, p) {
      var m :| 0 <= m < |acts| && acts[m] == Die(p) && CommitTx(p, true) in acts[..m];
      assert (acts + [a])[..m] == acts[..m] && (acts + [a])[m] == Die(p);
    }
  }

  lemma LostNow(acts: seq<Action>, p: Pid)
    requires CommitTx(p, true) in acts
    ensures LostItsAnswer(acts + [Die(p)], p)
  {
    assert (acts + [Die(p)])[..|acts|] == acts;
    assert (acts + [Die(p)])[|acts|] == Die(p);
  }

  /** A writer with a commit is past its COMMIT, and if it has failed, it lost its answer. */
  ghost predicate Accounted(acts: seq<Action>, s: State, p: Pid) {
    p in s.reqs && s.reqs[p].Writer? && s.reqs[p].ix.Some? ==>
      && (s.reqs[p].wpc == Aborted ==> LostItsAnswer(acts, p))
      && (s.reqs[p].wpc != Aborted ==> CommitTx(p, true) in acts)
  }

  lemma AccountedStep(acts: seq<Action>, s: State, a: Action, p: Pid)
    requires Inv(s) && Enabled(s, a) && Accounted(acts, s, p)
    ensures Accounted(acts + [a], Step(s, a), p)
  {
    if !Acts(a, p) {
      OthersKeepStill(s, a, p);
    } else if p in s.reqs && s.reqs[p].Writer? {
      WriterMoves(s, a);
      if WriteEnabled(s, a) {
        WriteShows(s.db, p, s.reqs[p], a);
      } else if CommitTx(p, true) in acts {
        LostNow(acts, p);
      }
    }
    if LostItsAnswer(acts, p) { LostEarlier(acts, a, p); }
  }

  lemma {:induction false} RunIsAccounted(acts: seq<Action>, p: Pid)
    requires Run(acts).Some?
    ensures Accounted(acts, Run(acts).value, p)
    decreases |acts|
  {
    if acts != [] {
      var front, a := acts[..|acts| - 1], acts[|acts| - 1];
      assert acts == front + [a];
      RunIsAccounted(front, p);
      RunKeepsInv(front);
      AccountedStep(front, Run(front).value, a, p);
    }
  }

  /** A request that fails holds no row, and leaves no trace in the table unless it sent its COMMIT
      unretried; and then either the answer to the COMMIT was lost, or the request died after it,
      among its invalidations. */
  lemma FailedWriteLeavesNothing(acts: seq<Action>, p: Pid)
    requires Run(acts).Some? && WriterAt(Run(acts).value, p, Aborted)
    ensures var s := Run(acts).value;
      && (forall id :: id in s.db.rows ==> s.db.rows[id] != p)
      && ((exists i :: 0 <= i < |s.db.log| && s.db.log[i].writer == p) <==> Commits(acts, p))
      && (Commits(acts, p) ==> LostItsAnswer(acts, p))
  {
    var s := Run(acts).value;
    CommittedIff(acts, p);
    RunIsRecorded(acts, p);
    RunIsAccounted(acts, p);
    RunKeepsInv(acts);
    RowsRun(acts);
    forall id | id in s.db.rows ensures s.db.rows[id] != p {
      assert RowOk(s, id);
      assert WriterOk(s.db, p, s.reqs[p]);
    }
  }

  predicate HasPending(r: Request, id: int) {
    r.Writer? && r.pending.Some? && r.pending.value.row.id == id
  }

  ghost predicate RowOk(s: State, id: int) {
    id in s.db.rows ==> s.db.rows[id] in s.reqs && HasPending(s.reqs[s.db.rows[id]], id)
  }

  /** Every row lock belongs to a writer with a pending write to that row. */
  ghost predicate RowsOk(s: State) {
    forall id :: RowOk(s, id)
  }

  /** A writer's step locks only the row it has a pending write to, and unlocks it with the write. */
  lemma ActingRow(db: Ledger, p: Pid, w: Request, a: Action, id: int)
    requires CanWrite(db, w, a) && WriterOk(db, p, w) && a.pid == p
    requires HoldsRow(db, p, id) ==> HasPending(w, id)
    requires HoldsRow(LedgerAfter(db, w, a), p, id)
    ensures HasPending(WriteStep(db, w, a), id)
  {
  }

  /** Nobody takes a row lock for somebody else. */
  lemma OthersRow(s: State, a: Action, p: Pid, id: int)
    requires Enabled(s, a) && !Acts(a, p) && HoldsRow(Step(s, a).db, p, id)
    ensures HoldsRow(s.db, p, id)
  {
  }

  /** The dead hold no row. */
  lemma DeadRow(s: State, p: Pid, id: int)
    requires RowOk(s, id) && Enabled(s, Die(p))
    ensures !HoldsRow(Step(s, Die(p)).db, p, id)
  {
  }

  lemma RowStep(s: State, a: Action, id: int)
    requires Inv(s) && RowOk(s, id) && Enabled(s, a)
    ensures RowOk(Step(s, a), id)
  {
    var s' := Step(s, a);
    if id in s'.db.rows {
      var p := s'.db.rows[id];
      if !Acts(a, p) {
        OthersKeepStill(s, a, p);
        OthersRow(s, a, p, id);
      } else if WriteEnabled(s, a) {
        ActingRow(s.db, p, s.reqs[p], a, id);
      } else if a.Die? {
        DeadRow(s, p, id);
      }
    }
  }

  lemma RowsStep(s: State, a: Action)
    requires Inv(s) && RowsOk(s) && Enabled(s, a)
    ensures RowsOk(Step(s, a))
  {
    forall id ensures RowOk(Step(s, a), id) {
      RowStep(s, a, id);
    }
  }

  lemma {:induction false} RowsRun(acts: seq<Action>)
    ensures Run(acts).Some? ==> RowsOk(Run(acts).value)
    decreases |acts|
  {
    if acts != [] {
      var front := acts[..|acts| - 1];
      RowsRun(front);
      RunKeepsInv(front);
      if Run(acts).Some? { RowsStep(Run(front).value, acts[|acts| - 1]); }
    }
  }

  lemma RowsAreHeld(s: State)
    requires Reachable(s)
    ensures RowsOk(s)
  {
    var acts :| Run(acts) == Some(s);
    RunKeepsInv(acts);
    RowsRun(acts);
  }

  // --- reads never influence writes --------------------------------------------------------------------

  function WritersOf(s: State): map<Pid, Request> {
    map p | p in s.reqs && s.reqs[p].Writer? :: s.reqs[p]
  }

  /** Two states a writer cannot tell apart, whatever their caches, locks and readers hold. */
  ghost predicate SameForWriters(s: State, t: State) {
    s.db == t.db && WritersOf(s) == WritersOf(t)
  }

  /** The steps of writers. */
  predicate IsWrite(s: State, a: Action) {
    match a
    case Arrive(_, r) => r.Writer?
    case Die(p) => p in s.reqs && s.reqs[p].Writer?
    case _ => WriteEnabled(s, a)
  }

  ghost predicate OnlyWriters(s: State) {
    forall p :: p in s.reqs ==> s.reqs[p].Writer?
  }

  /** What is left of a run when every read, expiry and reader is erased. */
  ghost function Erase(acts: seq<Action>): seq<Action>
    requires Run(acts).Some?
  {
    if acts == [] then []
    else
      var front, a := acts[..|acts| - 1], acts[|acts| - 1];
      if IsWrite(Run(front).value, a) then Erase(front) + [a] else Erase(front)
  }

  lemma ReadKeepsWriter(s: State, a: Action, p: Pid)
    requires Enabled(s, a) && !IsWrite(s, a)
    ensures p in WritersOf(Step(s, a)) <==> p in WritersOf(s)
    ensures p in WritersOf(s) ==> Step(s, a).reqs[p] == s.reqs[p]
  {
    if !Acts(a, p) {
      OthersKeepStill(s, a, p);
    } else if p in s.reqs && s.reqs[p].Reader? {
      ReadersStay(s, a, p);
    }
  }

  lemma ReadIsInvisible(s: State, a: Action)
    requires Enabled(s, a) && !IsWrite(s, a)
    ensures SameForWriters(s, Step(s, a))
  {
    forall p
      ensures p in WritersOf(Step(s, a)) <==> p in WritersOf(s)
      ensures p in WritersOf(s) ==> Step(s, a).reqs[p] == s.reqs[p]
    {
      ReadKeepsWriter(s, a, p);
    }
    assert Step(s, a).db == s.db;
  }

  lemma BlindlyEnabled(s: State, t: State, a: Action)
    requires Enabled(s, a) && IsWrite(s, a) && SameForWriters(s, t) && OnlyWriters(t)
    ensures Enabled(t, a) && IsWrite(t, a) && !ReadEnabled(t, a)
    ensures !a.Arrive? ==> a.pid in WritersOf(s) && a.pid in t.reqs && t.reqs[a.pid] == s.reqs[a.pid]
  {
    if a.Arrive? {
      assert a.pid !in WritersOf(s);
      assert a.pid !in WritersOf(t);
    } else {
      assert a.pid in WritersOf(s);
      assert a.pid in WritersOf(t) && WritersOf(t)[a.pid] == WritersOf(s)[a.pid];
    }
  }

  lemma BlindStep(s: State, t: State, a: Action)
    requires Enabled(s, a) && IsWrite(s, a) && Enabled(t, a) && IsWrite(t, a) && s.db == t.db
    requires !a.Arrive? ==>
      a.pid in s.reqs && s.reqs[a.pid].Writer? && a.pid in t.reqs && t.reqs[a.pid] == s.reqs[a.pid]
    ensures var s', t' := Step(s, a), Step(t, a);
      && s'.db == t'.db
      && a.pid in s'.reqs && a.pid in t'.reqs && s'.reqs[a.pid] == t'.reqs[a.pid] && s'.reqs[a.pid].Writer?
  {
  }

  lemma SameWritersAfter(s: State, t: State, s': State, t': State, q: Pid)
    requires WritersOf(s) == WritersOf(t)
    requires q in s'.reqs && q in t'.reqs && s'.reqs[q] == t'.reqs[q]
    requires forall p :: p != q ==> (p in s'.reqs <==> p in s.reqs) && (p in t'.reqs <==> p in t.reqs)
    requires forall p :: p != q && p in s.reqs ==> s'.reqs[p] == s.reqs[p]
    requires forall p :: p != q && p in t.reqs ==> t'.reqs[p] == t.reqs[p]
    ensures WritersOf(s') == WritersOf(t')
  {
    forall p ensures p in WritersOf(s') <==> p in WritersOf(t') {
      assert p in WritersOf(s) <==> p in WritersOf(t);
    }
    forall p | p in WritersOf(s') ensures s'.reqs[p] == t'.reqs[p] {
      if p != q {
        assert p in WritersOf(s) && p in WritersOf(t) && WritersOf(s)[p] == WritersOf(t)[p];
      }
    }
  }

  lemma WriteIsBlind(s: State, t: State, a: Action)
    requires Enabled(s, a) && IsWrite(s, a) && SameForWriters(s, t) && OnlyWriters(t)
    ensures Enabled(t, a) && SameForWriters(Step(s, a), Step(t, a)) && OnlyWriters(Step(t, a))
  {
    BlindlyEnabled(s, t, a);
    BlindStep(s, t, a);
    var s', t' := Step(s, a), Step(t, a);
    forall p | p != a.pid
      ensures p in s'.reqs <==> p in s.reqs
      ensures p in t'.reqs <==> p in t.reqs
      ensures p in s.reqs ==> s'.reqs[p] == s.reqs[p]
      ensures p in t.reqs ==> t'.reqs[p] == t.reqs[p]
    {
      OthersKeepStill(s, a, p);
      OthersKeepStill(t, a, p);
    }
    SameWritersAfter(s, t, s', t', a.pid);
  }

  /** Erasing every reader and every cache entry from a run changes nothing a writer does: the same
      commits, the same answers, the same invalidations. */
  lemma {:induction false} WritesIgnoreTheCache(acts: seq<Action>)
    requires Run(acts).Some?
    ensures Run(Erase(acts)).Some?
    ensures SameForWriters(Run(acts).value, Run(Erase(acts)).value) && OnlyWriters(Run(Erase(acts)).value)
    decreases |acts|
  {
    if acts != [] {
      var front, a := acts[..|acts| - 1], acts[|acts| - 1];
      WritesIgnoreTheCache(front);
      var s, t := Run(front).value, Run(Erase(front)).value;
      if IsWrite(s, a) {
        WriteIsBlind(s, t, a);
        assert (Erase(front) + [a])[..|Erase(front)|] == Erase(front);
      } else {
        ReadIsInvisible(s, a);
      }
    }
  }

  // --- neither does what becomes of the invalidations ----------------------------------------------------

  predicate Invalidates(a: Action) {
    a.Clear? || a.BumpGlobal? || a.BumpAuthor?
  }

  function Trim(acts: seq<Action>): seq<Action> {
    if acts == [] then []
    else
      var front, a := acts[..|acts| - 1], acts[|acts| - 1];
      if Invalidates(a) then Trim(front) else Trim(front) + [a]
  }

  predicate Cleared?(pc: WritePc) {
    pc in {Clearing, BumpingGlobal, BumpingAuthor, Acknowledged}
  }

  /** Two writers with the same operation, the same commit and the same verdict: past the COMMIT they
      only differ in how far their invalidations got. */
  predicate SameVerdict(w: Request, v: Request) {
    && w.Writer? && v.Writer? && v.wpc != Acknowledged && v.wpc != BumpingAuthor
    && (w.wpc == v.wpc || (Cleared?(w.wpc) && Cleared?(v.wpc)))
    && w.(wpc := Begun, bumped := {}) == v.(wpc := Begun, bumped := {})
  }

  predicate SameAt(s: State, t: State, p: Pid) {
    (p in s.reqs <==> p in t.reqs) && (p in s.reqs ==> SameVerdict(s.reqs[p], t.reqs[p]))
  }

  ghost predicate SameVerdicts(s: State, t: State) {
    s.db.log == t.db.log && s.db.rows == t.db.rows && forall p :: SameAt(s, t, p)
  }

  lemma InvalidationIsUnheard(s: State, t: State, a: Action)
    requires SameVerdicts(s, t) && Inv(s) && Enabled(s, a) && Invalidates(a)
    ensures SameVerdicts(Step(s, a), t)
  {
    assert SameAt(s, t, a.pid);
    forall p ensures SameAt(Step(s, a), t, p) {
      assert SameAt(s, t, p);
      if p != a.pid { OthersKeepStill(s, a, p); }
    }
  }

  lemma SameWrite(db: Ledger, db': Ledger, w: Request, v: Request, a: Action)
    requires db.log == db'.log && db.rows == db'.rows && SameVerdict(w, v) && CanWrite(db, w, a) && !Invalidates(a)
    ensures CanWrite(db', v, a) && SameVerdict(WriteStep(db, w, a), WriteStep(db', v, a))
    ensures LedgerAfter(db, w, a).log == LedgerAfter(db', v, a).log
    ensures LedgerAfter(db, w, a).rows == LedgerAfter(db', v, a).rows
  {
  }

  lemma SameEnabled(s: State, t: State, a: Action)
    requires SameVerdicts(s, t) && Enabled(s, a) && !Invalidates(a) && (a.Arrive? ==> a.request.Writer?)
    ensures Enabled(t, a)
    ensures Step(s, a).db.log == Step(t, a).db.log && Step(s, a).db.rows == Step(t, a).db.rows
    ensures !a.Expire? && !a.ExpireLock? ==> SameAt(Step(s, a), Step(t, a), a.pid)
  {
    if !a.Expire? && !a.ExpireLock? {
      assert SameAt(s, t, a.pid);
      if WriteEnabled(s, a) {
        SameWrite(s.db, t.db, s.reqs[a.pid], t.reqs[a.pid], a);
      }
    }
  }

  lemma SameStep(s: State, t: State, a: Action)
    requires SameVerdicts(s, t) && Enabled(s, a) && !Invalidates(a) && (a.Arrive? ==> a.request.Writer?)
    ensures Enabled(t, a) && SameVerdicts(Step(s, a), Step(t, a))
  {
    SameEnabled(s, t, a);
    forall p ensures SameAt(Step(s, a), Step(t, a), p) {
      assert SameAt(s, t, p);
      if !Acts(a, p) {
        OthersKeepStill(s, a, p);
        OthersKeepStill(t, a, p);
      }
    }
  }

  lemma ReadersStay(s: State, a: Action, p: Pid)
    requires Enabled(s, a) && p in s.reqs && s.reqs[p].Reader?
    ensures p in Step(s, a).reqs && Step(s, a).reqs[p].Reader?
  {
    if !Acts(a, p) { OthersKeepStill(s, a, p); }
  }

  lemma OnlyWritersBefore(s: State, a: Action)
    requires Enabled(s, a) && OnlyWriters(Step(s, a))
    ensures OnlyWriters(s) && (a.Arrive? ==> a.request.Writer?)
  {
    forall p | p in s.reqs && s.reqs[p].Reader? ensures p in Step(s, a).reqs && Step(s, a).reqs[p].Reader? {
      ReadersStay(s, a, p);
    }
    assert a.Arrive? ==> Step(s, a).reqs[a.pid] == a.request;
  }

  lemma {:induction false} TrimKeepsVerdicts(acts: seq<Action>)
    requires Run(acts).Some? && OnlyWriters(Run(acts).value)
    ensures Run(Trim(acts)).Some? && SameVerdicts(Run(acts).value, Run(Trim(acts)).value)
    decreases |acts|
  {
    if acts != [] {
      var front, a := acts[..|acts| - 1], acts[|acts| - 1];
      OnlyWritersBefore(Run(front).value, a);
      TrimKeepsVerdicts(front);
      RunKeepsInv(front);
      var s, t := Run(front).value, Run(Trim(front)).value;
      if Invalidates(a) {
        InvalidationIsUnheard(s, t, a);
      } else {
        SameStep(s, t, a);
        assert (Trim(front) + [a])[..|Trim(front)|] == Trim(front);
      }
    }
  }

  /** Two runs whose writers take the same steps up to and including their COMMITs and deaths, whatever
      their readers, their caches and their invalidations do, leave the same log; and every writer has
      the same commit and is, in both, undecided, past its COMMIT, or failed. */
  lemma FaultsOfRedisChangeNoWrite(acts: seq<Action>, acts': seq<Action>)
    requires Run(acts).Some? && Run(acts').Some? && Trim(Erase(acts)) == Trim(Erase(acts'))
    ensures var s, t := Run(acts).value, Run(acts').value;
      && s.db.log == t.db.log && s.db.rows == t.db.rows && WritersOf(s).Keys == WritersOf(t).Keys
      && forall p :: p in WritersOf(s) ==>
           && s.reqs[p].op == t.reqs[p].op && s.reqs[p].ix == t.reqs[p].ix
           && (s.reqs[p].wpc == t.reqs[p].wpc || (Cleared?(s.reqs[p].wpc) && Cleared?(t.reqs[p].wpc)))
  {
    WritesIgnoreTheCache(acts);
    WritesIgnoreTheCache(acts');
    TrimKeepsVerdicts(Erase(acts));
    TrimKeepsVerdicts(Erase(acts'));
    var s, t := Run(acts).value, Run(acts').value;
    var s1, t1, u := Run(Erase(acts)).value, Run(Erase(acts')).value, Run(Trim(Erase(acts))).value;
    forall p ensures p in WritersOf(s) <==> p in WritersOf(t) {
      assert SameAt(s1, u, p) && SameAt(t1, u, p);
      assert p in WritersOf(s) <==> p in WritersOf(s1);
      assert p in WritersOf(t) <==> p in WritersOf(t1);
    }
    forall p | p in WritersOf(s)
      ensures p in WritersOf(t) && SameAt(s1, u, p) && SameAt(t1, u, p)
      ensures s1.reqs[p] == s.reqs[p] && t1.reqs[p] == t.reqs[p]
    {
      assert WritersOf(s)[p] == WritersOf(s1)[p];
      assert p in WritersOf(t) && WritersOf(t)[p] == WritersOf(t1)[p];
      assert SameAt(s1, u, p) && SameAt(t1, u, p);
    }
  }
}
