/** The write path of WritePath.dfy is the writer of Protocol.dfy, and what a 409 or 404 means. */
module WriteRefinement {
  import opened Articles
  import opened Protocol
  import Coherence
  import OptimisticWrites
  import Cache
  import Counterexamples
  import opened Session
  import opened WritePath

  // --- the handler ------------------------------------------------------------------------------------

  /** What the statements saw is what the machine's ledgers say: an old or current prefix of the log
      for the SELECT, the current table and a free row for the UPDATE. */
  ghost predicate Saw(db: Mysql, op: Op, st: Story, atFind: Ledger, n: nat, atCas: Ledger)
    requires !op.Create?
  {
    && n <= |atFind.log| && db.views(st.found) == Replay(atFind.log[..n])
    && db.currents(st.cas) == Replay(atCas.log)
    && op.id !in atCas.rows && Advances(Replay(atCas.log), op, db.stamps(st.cas))
  }

  /** The machine's writer once the handler has answered: load, compare-and-set, and for an update
      the second read. */
  function Handled(db: Mysql, op: Op, st: Story, p: Pid, w: Request, atFind: Ledger, n: nat, atCas: Ledger,
                   atReread: Ledger): Request
  {
    var find, cas := Find(p, n), Cas(p, db.utc(st.cas), db.stamps(st.cas));
    if !CanWrite(atFind, w, find) then w
    else
      var found := WriteStep(atFind, w, find);
      if !CanWrite(atCas, found, cas) then found
      else
        var cased := WriteStep(atCas, found, cas);
        var reread := Reread(p, st.retried);
        if CanWrite(atReread, cased, reread) then WriteStep(atReread, cased, reread) else cased
  }

  /** A write the program acknowledges takes the machine's writer to its COMMIT with the row that the
      program commits, and the COMMIT appends to the log what the program committed. */
  lemma HandlerKeepsUp(db: Mysql, op: Op, st: Story, shown: Option<Article>, done: seq<Commit>, p: Pid, w: Request,
                       atFind: Ledger, n: nat, atCas: Ledger, atReread: Ledger, atCommit: Ledger)
    requires !op.Create? && Honoured(db, op, st, shown, done) && db.writer == p
    requires w.Writer? && Fresh(w) && w.op == op && Saw(db, op, st, atFind, n, atCas)
    ensures var ready := Handled(db, op, st, p, w, atFind, n, atCas, atReread);
      && CanWrite(atCommit, ready, CommitTx(p, true))
      && ready.author == TaskOf(db, op, st).author && TaskOf(db, op, st).id == Some(op.id)
      && LedgerAfter(atCommit, ready, CommitTx(p, true)).log == atCommit.log + done
      && var clearing := WriteStep(atCommit, ready, CommitTx(p, true));
         && clearing.wpc == Clearing && clearing.author == ready.author
         && clearing.ix == (if st.retried then None else Some(|atCommit.log|))
  {
    var found := WriteStep(atFind, w, Find(p, n));
    assert found.wpc == Found;
    var cased := WriteStep(atCas, found, Cas(p, db.utc(st.cas), db.stamps(st.cas)));
    assert cased.pending == Some(Written(db, op, st.cas));
  }

  lemma CreateKeepsUp(db: Mysql, op: Op, st: Story, shown: Option<Article>, done: seq<Commit>, p: Pid, w: Request,
                      atInsert: Ledger, atCommit: Ledger)
    requires op.Create? && Honoured(db, op, st, shown, done) && db.writer == p
    requires w.Writer? && Fresh(w) && w.op == op
    requires shown.value.id !in Replay(atInsert.log) && shown.value.id !in atInsert.rows
    requires shown.value.created == shown.value.updated
    ensures var insert := Insert(p, shown.value.id, shown.value.updated);
      && CanWrite(atInsert, w, insert)
      && var ready := WriteStep(atInsert, w, insert);
         && ready.pending == Some(done[0])
         && ready.author == TaskOf(db, op, st).author && TaskOf(db, op, st).id == None
         && CanWrite(atCommit, ready, CommitTx(p, true))
         && LedgerAfter(atCommit, ready, CommitTx(p, true)).log == atCommit.log + done
         && WriteStep(atCommit, ready, CommitTx(p, true)).wpc == BumpingGlobal
  {
  }

  // --- failures ---------------------------------------------------------------------------------------

  /** The machine's writer after the first `steps` of Find, Cas and Reread. */
  function Stage(db: Mysql, op: Op, st: Story, p: Pid, w: Request, atFind: Ledger, n: nat, atCas: Ledger,
                 atReread: Ledger, steps: nat): Request
  {
    if steps == 0 then w
    else
      var before := Stage(db, op, st, p, w, atFind, n, atCas, atReread, steps - 1);
      var (at, a) := if steps == 1 then (atFind, Find(p, n))
                     else if steps == 2 then (atCas, Cas(p, db.utc(st.cas), db.stamps(st.cas)))
                     else (atReread, Reread(p, st.retried));
      if CanWrite(at, before, a) then WriteStep(at, before, a) else before
  }

  /** Failed, with no commit, no pending write and no counter moved. */
  predicate FailedCleanly(w: Request) {
    w.Writer? && w.wpc == Aborted && w.ix.None? && w.pending.None? && w.bumped == {}
  }

  lemma {:induction false} StageIsUncommitted(db: Mysql, op: Op, st: Story, p: Pid, w: Request, atFind: Ledger, n: nat,
                                              atCas: Ledger, atReread: Ledger, steps: nat)
    requires w.Writer? && Fresh(w)
    ensures var x := Stage(db, op, st, p, w, atFind, n, atCas, atReread, steps);
      x.Writer? && x.ix.None? && x.bumped == {} && FailedCleanly(Dead(x))
    decreases steps
  {
    if steps > 0 {
      StageIsUncommitted(db, op, st, p, w, atFind, n, atCas, atReread, steps - 1);
    }
  }

  /** How many of the three steps the answer to a handler that failed takes. */
  function FailStep(db: Mysql, op: Op, st: Story): nat
    requires !op.Create?
  {
    if !Found?(db.views(st.found), op) then 1
    else if !CasMatches(db.currents(st.cas), op.id, op.token) then 2 else 3
  }

  /** A handler that fails is a failed writer of the machine: an article not found, not allowed or stale
      fails by the machine's own step, one that has gone by the second look of a successful
      compare-and-set is a writer that dies there, and an error or a cancellation is a writer that dies
      at whatever step it had reached. */
  lemma FailureKeepsUp(db: Mysql, op: Op, st: Story, r: Response, p: Pid, w: Request, atFind: Ledger, n: nat,
                       atCas: Ledger, atReread: Ledger, steps: nat)
    requires !op.Create? && FailedAs(db, op, st, r) && !r.Okay?
    requires w.Writer? && Fresh(w) && w.op == op
    requires !r.Upset? ==> n <= |atFind.log| && db.views(st.found) == Replay(atFind.log[..n])
    requires !r.Upset? && FailStep(db, op, st) > 1 ==> Saw(db, op, st, atFind, n, atCas)
    ensures !r.Upset? ==>
      var k := FailStep(db, op, st);
      var x := Stage(db, op, st, p, w, atFind, n, atCas, atReread, k);
      && (r.Forbidden? ==> k == 1) && (r.Conflict? ==> k == 2) && (k == 3 ==> r.NotFound?)
      && FailedCleanly(if k == 3 then Dead(x) else x)
    ensures r.Upset? ==> FailedCleanly(Dead(Stage(db, op, st, p, w, atFind, n, atCas, atReread, steps)))
  {
    StageIsUncommitted(db, op, st, p, w, atFind, n, atCas, atReread, steps);
    StageIsUncommitted(db, op, st, p, w, atFind, n, atCas, atReread, 3);
    if !r.Upset? {
      var w1 := Stage(db, op, st, p, w, atFind, n, atCas, atReread, 1);
      assert Stage(db, op, st, p, w, atFind, n, atCas, atReread, 0) == w && CanWrite(atFind, w, Find(p, n));
      assert w1 == WriteStep(atFind, w, Find(p, n));
      if FailStep(db, op, st) == 2 {
        var cas := Cas(p, db.utc(st.cas), db.stamps(st.cas));
        assert Stage(db, op, st, p, w, atFind, n, atCas, atReread, 2) == WriteStep(atCas, w1, cas);
      }
    }
  }

  /** A handler that succeeds and whose COMMIT fails is a failed writer, too: one whose commit is in the
      log, if the server applied it, and one that died at its COMMIT, if not. */
  lemma CommitFailureKeepsUp(db: Mysql, op: Op, st: Story, applied: bool, done: seq<Commit>, p: Pid, w: Request,
                             atFind: Ledger, n: nat, atCas: Ledger, atReread: Ledger, atCommit: Ledger)
    requires !op.Create? && HonouredBut(db, op, st, applied, done) && db.writer == p
    requires w.Writer? && Fresh(w) && w.op == op && Saw(db, op, st, atFind, n, atCas)
    ensures var ready, lost := Handled(db, op, st, p, w, atFind, n, atCas, atReread), CommitTx(p, false);
      if applied then
        && CanWrite(atCommit, ready, lost) && WriteStep(atCommit, ready, lost).wpc == Aborted
        && LedgerAfter(atCommit, ready, lost).log == atCommit.log + done
      else ready.Writer? && ready.wpc == Ready && FailedCleanly(Dead(ready)) && done == []
  {
    var shown, rows :| Honoured(db, op, st, shown, rows) && done == if applied then rows else [];
    HandlerKeepsUp(db, op, st, shown, rows, p, w, atFind, n, atCas, atReread, atCommit);
  }

  // --- the invalidations ------------------------------------------------------------------------------

  /** The machine's fault for event i; of a command without an answer `reached` says whether the server
      ran it. */
  function FaultAt(redis: nat -> Cache.Reply, reached: nat -> bool, log: seq<Cache.Event>, i: nat): Fault
    requires i < |log|
  {
    if log[i].Sent? && redis(i).Answer? then Fault.Answered
    else if log[i].Sent? && reached(i) then AnswerLost
    else NotRun
  }

  /** The machine's writer after the invalidation whose first event is `from`. A callback that raised on
      its DEL moves no counter. */
  function Invalidated(redis: nat -> Cache.Reply, reached: nat -> bool, log: seq<Cache.Event>, from: nat, task: Task,
                       p: Pid, w: Request, dbs: nat -> Ledger): Request
    requires from < |log|
  {
    var clear := Clear(p, FaultAt(redis, reached, log, from));
    if task.id.None? then Bumping(redis, reached, log, from, p, w, dbs)
    else if !CanWrite(dbs(from), w, clear) then w
    else Bumping(redis, reached, log, from + 1, p, WriteStep(dbs(from), w, clear), dbs)
  }

  function Bumping(redis: nat -> Cache.Reply, reached: nat -> bool, log: seq<Cache.Event>, from: nat, p: Pid,
                   w: Request, dbs: nat -> Ledger): Request
    requires from <= |log|
  {
    var all := BumpGlobal(p, if from < |log| then FaultAt(redis, reached, log, from) else NotRun);
    if !CanWrite(dbs(from), w, all) then w
    else
      var w' := WriteStep(dbs(from), w, all);
      if |log| <= from + 1 then w'
      else
        var one := BumpAuthor(p, FaultAt(redis, reached, log, from + 1));
        if CanWrite(dbs(from + 1), w', one) then WriteStep(dbs(from + 1), w', one) else w'
  }

  /** Some event from `at` on sent `c`, and the server ran it. */
  predicate RanSince(redis: nat -> Cache.Reply, reached: nat -> bool, log: seq<Cache.Event>, at: nat,
                     c: Cache.Command) {
    exists i :: at <= i < |log| && log[i] == Cache.Event.Sent(c) && (redis(i).Answer? || reached(i))
  }

  /** The counters' part of a callback, whose first event is `from`. */
  lemma BumpKeepsUp(redis: nat -> Cache.Reply, reached: nat -> bool, log: seq<Cache.Event>, from: nat, author: int,
                    p: Pid, w: Request, dbs: nat -> Ledger)
    requires from == |log| || BumpRan(redis, log, from, |log|, author)
    requires w.Writer? && w.author == author && w.bumped == {} && w.wpc == BumpingGlobal
    ensures var w' := Bumping(redis, reached, log, from, p, w, dbs);
      && w'.Writer? && w'.wpc == Protocol.Acknowledged
      && (Global in w'.bumped <==> RanSince(redis, reached, log, from, Cache.BumpAll))
      && (OfAuthor(author) in w'.bumped <==> RanSince(redis, reached, log, from, Cache.BumpOne(author)))
  {
    if from < |log| && log[from] == Cache.Event.Sent(Cache.BumpAll) && FaultAt(redis, reached, log, from) != NotRun {
      assert RanSince(redis, reached, log, from, Cache.BumpAll);
    }
  }

  /** The drained queue is the machine's writer clearing the body, moving the counters and answering:
      it counts a counter as moved exactly when the server ran the command. */
  lemma DrainKeepsUp(redis: nat -> Cache.Reply, reached: nat -> bool, log: seq<Cache.Event>, at: nat, marks: seq<nat>,
                     task: Task, p: Pid, w: Request, dbs: nat -> Ledger)
    requires Drained(redis, log, at, marks, [task])
    requires w.Writer? && w.author == task.author && w.bumped == {}
    requires if task.id.None? then w.wpc == BumpingGlobal
             else w.wpc == Clearing && !w.op.Create? && w.op.id == task.id.value
    ensures at < |log|
    ensures var w' := Invalidated(redis, reached, log, at, task, p, w, dbs);
      && w'.Writer? && w'.wpc == Protocol.Acknowledged
      && (Global in w'.bumped <==> RanSince(redis, reached, log, at, Cache.BumpAll))
      && (OfAuthor(task.author) in w'.bumped <==> RanSince(redis, reached, log, at, Cache.BumpOne(task.author)))
  {
    assert TaskRan(redis, log, marks[0], marks[1], [task][0]);
    if task.id.None? {
      BumpKeepsUp(redis, reached, log, at, task.author, p, w, dbs);
    } else {
      var w1 := WriteStep(dbs(at), w, Clear(p, FaultAt(redis, reached, log, at)));
      BumpKeepsUp(redis, reached, log, at + 1, task.author, p, w1, dbs);
      RanLater(redis, reached, log, at, Cache.BumpAll);
      RanLater(redis, reached, log, at, Cache.BumpOne(task.author));
    }
  }

  lemma RanLater(redis: nat -> Cache.Reply, reached: nat -> bool, log: seq<Cache.Event>, at: nat, c: Cache.Command)
    requires at < |log| && log[at] != Cache.Event.Sent(c)
    ensures RanSince(redis, reached, log, at, c) <==> RanSince(redis, reached, log, at + 1, c)
  {
  }

  // --- 409 and 404 ------------------------------------------------------------------------------------

  /** The compare-and-set missed, after the article was found and the actor allowed. */
  ghost predicate Missed(db: Mysql, op: Op, st: Story, r: Response)
    requires !op.Create?
  {
    && st.found < st.cas < st.last && Found?(db.views(st.found), op)
    && !CasMatches(db.currents(st.cas), op.id, op.token)
    && Told(db, op, st, r, None, []) && (r.Conflict? || r.NotFound?)
  }

  /** One of the commits from `from` to `to` deletes the article. */
  predicate DeletedIn(log: seq<Commit>, id: int, from: nat, to: nat) {
    exists i :: from <= i < to && i < |log| && log[i].row.id == id && log[i].row.deleted.Some?
  }

  lemma DeletionStays(s: State, id: int, i: nat, m: nat)
    requires Coherence.Inv(s) && i < m <= |s.db.log| && s.db.log[i].row.id == id && s.db.log[i].row.deleted.Some?
    ensures id in Replay(s.db.log[..m]) && !Live(Replay(s.db.log[..m])[id])
  {
    assert s.db.log[..i + 1] == s.db.log[..i] + [s.db.log[i]];
    ReplayAppend(s.db.log[..i], s.db.log[i]);
    OptimisticWrites.VersionsAdvance(s, i + 1, m, id);
  }

  lemma {:induction false} DeadIffDeleted(s: State, id: int, n: nat, m: nat)
    requires Coherence.Inv(s) && n <= m <= |s.db.log| && id in Replay(s.db.log[..n]) && Live(Replay(s.db.log[..n])[id])
    ensures id in Replay(s.db.log[..m]) && (!Live(Replay(s.db.log[..m])[id]) <==> DeletedIn(s.db.log, id, 0, m))
    decreases m
  {
    var log := s.db.log;
    if DeletedIn(log, id, 0, m) {
      var i :| 0 <= i < m && log[i].row.id == id && log[i].row.deleted.Some?;
      DeletionStays(s, id, i, m);
    } else if n < m {
      DeadIffDeleted(s, id, n, m - 1);
      assert log[..m] == log[..m - 1] + [log[m - 1]];
      ReplayAppend(log[..m - 1], log[m - 1]);
    }
  }

  /** Exactly what the two answers mean, whatever the isolation level lets the last SELECT see (n, c and
      m commits are what the first SELECT, the UPDATE and the last SELECT see): 404 if and only if a
      deletion is among the commits it sees. So 409 is given for an article that was already gone when
      the compare-and-set ran if and only if its deletion is one that the UPDATE saw and the SELECT did
      not: never under READ COMMITTED (m >= c), always under a repeated first snapshot (m == n). */
  lemma ConflictOrGone(s: State, db: Mysql, op: Op, st: Story, r: Response, n: nat, c: nat, m: nat)
    requires Reachable(s) && !op.Create? && Missed(db, op, st, r)
    requires n <= c <= |s.db.log| && n <= m <= |s.db.log|
    requires db.views(st.found) == Replay(s.db.log[..n])
    requires db.currents(st.cas) == Replay(s.db.log[..c])
    requires db.views(st.last) == Replay(s.db.log[..m])
    ensures r.NotFound? <==> DeletedIn(s.db.log, op.id, 0, m)
    ensures op.id in db.currents(st.cas)
    ensures r.Conflict? && !Live(db.currents(st.cas)[op.id]) <==> DeletedIn(s.db.log, op.id, m, c)
    ensures Live(db.currents(st.cas)[op.id]) ==> db.currents(st.cas)[op.id].updated != op.token
    ensures r.NotFound? ==> var t := Replay(s.db.log); op.id in t && !Live(t[op.id])
    ensures m == n ==> r.Conflict?
  {
    Coherence.ReachableInv(s);
    DeadIffDeleted(s, op.id, n, c);
    DeadIffDeleted(s, op.id, n, m);
    OptimisticWrites.VersionsAdvance(s, m, |s.db.log|, op.id);
    assert s.db.log[..|s.db.log|] == s.db.log;
    if DeletedIn(s.db.log, op.id, m, c) {
      var i :| m <= i < c && s.db.log[i].row.id == op.id && s.db.log[i].row.deleted.Some?;
      assert DeletedIn(s.db.log, op.id, 0, c);
      if DeletedIn(s.db.log, op.id, 0, m) {
        var k :| 0 <= k < m && s.db.log[k].row.id == op.id && s.db.log[k].row.deleted.Some?;
        OnlyOneDeletion(s, k, i);
      }
    }
  }

  lemma OnlyOneDeletion(s: State, k: nat, i: nat)
    requires Reachable(s) && k < i < |s.db.log| && s.db.log[k].row.deleted.Some?
    ensures s.db.log[i].row.id != s.db.log[k].row.id
  {
    OptimisticWrites.DeletedForever(s, k, i);
  }

  // --- a 409 for an article that is gone -----------------------------------------------------------------

  /** The article was deleted before the compare-and-set ran, the second look sees the first snapshot
      again, and the answer is 409. */
  ghost predicate WrongConflict(s: State, db: Mysql, op: Op, st: Story) {
    && Reachable(s) && op.Update? && Missed(db, op, st, Conflict)
    && db.currents(st.cas) == Replay(s.db.log) && DeletedIn(s.db.log, op.id, 0, |s.db.log|)
    && db.views(st.last) == db.views(st.found)
    && exists n :: 0 <= n <= |s.db.log| && db.views(st.found) == Replay(s.db.log[..n])
  }

  lemma RepeatedSnapshotAnswersConflict()
    ensures exists s, db, op, st :: WrongConflict(s, db, op, st)
  {
    var s := Counterexamples.DeletedMeanwhile();
    Counterexamples.SmoothIsReachable(s);
    Counterexamples.ReplayOne();
    var row := Counterexamples.ROW;
    var was: Table := map[1 := row];
    var now := Replay(s.db.log);
    assert s.db.log == [Counterexamples.FIRST] + [Counterexamples.GONE];
    ReplayAppend([Counterexamples.FIRST], Counterexamples.GONE);
    var db := Mysql(i => was, i => now, i => 0, i => 0, i => 0, 3, 1);
    var op := Update(Counterexamples.AUTHOR, 1, 10, "t2", "b2");
    var st := Story(0, 1, 2, false);
    assert DeletedIn(s.db.log, 1, 0, |s.db.log|) by {
      assert s.db.log[1] == Counterexamples.GONE;
    }
    assert s.db.log[..1] == [Counterexamples.FIRST];
    assert db.views(0) == Replay(s.db.log[..1]);
    assert WrongConflict(s, db, op, st);
  }
}
