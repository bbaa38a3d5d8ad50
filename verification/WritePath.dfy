/** Create, update and delete of one request, from the first statement to the response
    (app/services/article_service.py, app/repositories/article_repo.py, app/db/session.py).

    What the statements see is a parameter: a SELECT that is call i sees `views(i)`, an UPDATE sees
    the committed rows `currents(i)`. No isolation level is assumed. */
module WritePath {
  import opened Articles
  import opened Protocol
  import Cache
  import Guard
  import opened Session

  datatype Response =
    | Okay(shown: Option<Article>)
    | NotFound
    | Conflict
    | Forbidden
    | Upset(cause: Guard.Outcome<()>)
    | CommitFailed

  /** A live row, with the version the transaction itself made on top of what it sees of the others'. */
  function Seen(version: Option<Article>, view: Table, id: int): Option<Article> {
    var t: Table := if version.Some? then view[version.value.id := version.value] else view;
    if id in t && Live(t[id]) then Some(t[id]) else None
  }

  /** The same outcome, with `v` in place of what was returned. */
  function Carrying<T, U>(o: Guard.Outcome<T>, v: U): (out: Guard.Outcome<U>)
    ensures (out.Returned? <==> o.Returned?) && (out.Raised? <==> o.Raised?) && (out.Killed? <==> o.Killed?)
    ensures (out.UpstreamTimeout? <==> o.UpstreamTimeout?) && (out.Unavailable? <==> o.Unavailable?)
    ensures (out.Refused? <==> o.Refused?) && (out.Refused? ==> out.retryAfter == o.retryAfter)
    ensures out.Raised? ==> out.code == o.code
  {
    match o
    case Returned(_) => Guard.Returned(v)
    case Raised(code) => Guard.Raised(code)
    case UpstreamTimeout => Guard.UpstreamTimeout
    case Unavailable => Guard.Unavailable
    case Expired => Guard.Expired
    case Killed => Guard.Killed
    case Refused(wait) => Guard.Refused(wait)
  }

  /** Between two attempts of the guarded read that began at call `at`, the session was rolled back. */
  predicate RolledBack(calls: seq<Guard.Call>, at: nat) {
    Guard.Count(calls, at, Guard.Rollback) > 0
  }

  /** What MySQL answers, call by call: rows, generated timestamps and keys. `utc` is the service's own
      clock, `writer` the request, `attempts` the policy's. */
  datatype Mysql = Mysql(views: nat -> Table, currents: nat -> Table, stamps: nat -> int, utc: nat -> int,
                         ids: nat -> int, writer: nat, attempts: int)

  class Repository {
    const tx: Transaction
    const guard: Guard.World<()>
    const clock: nat -> (real, real, real)
    const db: Mysql

    constructor (tx: Transaction, guard: Guard.World<()>, clock: nat -> (real, real, real), db: Mysql)
      ensures this.tx == tx && this.guard == guard && this.clock == clock && this.db == db
    {
      this.tx, this.guard, this.clock, this.db := tx, guard, clock, db;
    }

    /** A guarded read: its retries roll the session back, and with it whatever it had written. */
    method Get(id: int) returns (r: Guard.Outcome<Option<Article>>)
      modifies tx`pending, tx`version, guard, guard.breaker
      ensures old(guard.calls) <= guard.calls
      ensures tx.pending == if RolledBack(guard.calls, |old(guard.calls)|) then None else old(tx.pending)
      ensures tx.version == if RolledBack(guard.calls, |old(guard.calls)|) then None else old(tx.version)
      ensures r.Returned? ==>
        && guard.calls != old(guard.calls)
        && r.value == Seen(tx.version, db.views(|guard.calls| - 1), id)
      ensures RolledBack(guard.calls, |old(guard.calls)|) ==> db.attempts > 1
      ensures Guard.Count(guard.calls, |old(guard.calls)|, Guard.Operation) > 1
        ==> tx.pending == None && tx.version == None
    {
      var at := |guard.calls|;
      var out, _ := Guard.GuardedCall(guard, db.attempts, true, true, clock(at));
      if guard.calls != old(guard.calls) {
        Guard.RollbackCounts(guard.replies, at, guard.calls);
      }
      if RolledBack(guard.calls, at) {
        Guard.PathCounts(guard.replies, at, true, guard.calls);
        tx.Rollback();
      }
      if !out.Returned? {
        return Carrying(out, None);
      }
      r := Guard.Returned(Seen(tx.version, db.views(|guard.calls| - 1), id));
    }

    method Insert(op: Op) returns (r: Guard.Outcome<Article>)
      requires op.Create?
      modifies tx`pending, tx`version, guard, guard.breaker
      ensures old(guard.calls) <= guard.calls
      ensures r.Returned? ==>
        && guard.calls != old(guard.calls)
        && var i := |guard.calls| - 1;
           && r.value == Article(db.ids(i), op.actor.id, op.title, op.body, db.stamps(i), db.stamps(i), None)
           && tx.pending == Some(Commit(db.writer, None, r.value)) && tx.version == Some(r.value)
      ensures !r.Returned? ==> tx.pending == old(tx.pending) && tx.version == old(tx.version)
    {
      var out, _ := Guard.GuardedCall(guard, db.attempts, false, false, clock(|guard.calls|));
      var i := |guard.calls| - if out.Returned? then 1 else 0;
      var row := Article(db.ids(i), op.actor.id, op.title, op.body, db.stamps(i), db.stamps(i), None);
      if !out.Returned? {
        return Carrying(out, row);
      }
      tx.Write(Commit(db.writer, None, row), Some(row));
      r := Guard.Returned(row);
    }

    /** `update_cas` and `soft_delete_cas`: one statement, never retried; the rows it matched. */
    method Cas(op: Op) returns (r: Guard.Outcome<nat>)
      requires !op.Create?
      modifies tx`pending, tx`version, guard, guard.breaker
      ensures old(guard.calls) <= guard.calls
      ensures r.Returned? ==>
        && guard.calls != old(guard.calls)
        && var i := |guard.calls| - 1;
           && r.value == (if CasMatches(db.currents(i), op.id, op.token) then 1 else 0)
           && (r.value == 1 ==> tx.pending == Some(Written(db, op, i)) && tx.version == OwnVersion(db, op, i))
      ensures !(r.Returned? && r.value == 1) ==> tx.pending == old(tx.pending) && tx.version == old(tx.version)
    {
      var out, _ := Guard.GuardedCall(guard, db.attempts, false, false, clock(|guard.calls|));
      if !out.Returned? {
        return Carrying(out, 0);
      }
      var i := |guard.calls| - 1;
      if CasMatches(db.currents(i), op.id, op.token) {
        tx.Write(Written(db, op, i), OwnVersion(db, op, i));
        r := Guard.Returned(1);
      } else {
        r := Guard.Returned(0);
      }
    }
  }

  /** The row the compare-and-set that is call i writes. */
  function Written(db: Mysql, op: Op, i: nat): Commit
    requires !op.Create? && CasMatches(db.currents(i), op.id, op.token)
  {
    Commit(db.writer, Some(op.token), NewRow(db.currents(i), op, db.utc(i), db.stamps(i)))
  }

  /** The version it leaves: none when no column changes, and then the transaction goes on seeing the
      row as its snapshot shows it. */
  function OwnVersion(db: Mysql, op: Op, i: nat): Option<Article>
    requires !op.Create? && CasMatches(db.currents(i), op.id, op.token)
  {
    var row := Written(db, op, i).row;
    if row == db.currents(i)[op.id] then None else Some(row)
  }

  /** What the answer to a matched update shows: its second look. */
  function Shown(db: Mysql, op: Op, st: Story): Option<Article>
    requires !op.Create? && CasMatches(db.currents(st.cas), op.id, op.token)
  {
    Seen(if st.retried then None else OwnVersion(db, op, st.cas), db.views(st.last), op.id)
  }

  // --- the service ---------------------------------------------------------------------------------------

  /** Where the handler's statements were: the calls that found the article, ran the compare-and-set
      and read it again; and whether that last read rolled the session back first. */
  datatype Story = Story(found: nat, cas: nat, last: nat, retried: bool)

  /** What an update or delete that answers `r` did: `tasks` are the invalidations it queued. */
  ghost predicate Told(db: Mysql, op: Op, st: Story, r: Response, pending: Option<Commit>, tasks: seq<Task>)
    requires !op.Create?
  {
    var found, current, last := db.views(st.found), db.currents(st.cas), db.views(st.last);
    match r
    case Okay(shown) =>
      && st.found < st.cas && Found?(found, op) && CasMatches(current, op.id, op.token)
      && tasks == [Task(Some(op.id), found[op.id].author)]
      && pending == (if st.retried then None else Some(Written(db, op, st.cas)))
      && shown == (if op.Delete? then None else Shown(db, op, st)) && (op.Update? ==> shown.Some?)
      && (op.Delete? ==> !st.retried) && (st.retried ==> db.attempts > 1)
    case Conflict =>
      && st.found < st.cas < st.last && Found?(found, op) && !CasMatches(current, op.id, op.token)
      && Seen(None, last, op.id).Some? && tasks == [] && pending == None
    case NotFound =>
      if tasks != [] then
        && st.found < st.cas && op.Update? && Found?(found, op) && CasMatches(current, op.id, op.token)
        && Shown(db, op, st) == None
      else
        && pending == None
        && (Seen(None, found, op.id).None?
            || (st.found < st.cas < st.last && Found?(found, op) && !CasMatches(current, op.id, op.token)
                && Seen(None, last, op.id).None?))
    case Forbidden =>
      Seen(None, found, op.id).Some? && !Allowed(op.actor, found[op.id].author) && tasks == [] && pending == None
    case Upset(cause) => !cause.Returned?
    case CommitFailed => false
  }

  class ArticleService {
    const repo: Repository
    const tx: Transaction

    constructor (repo: Repository)
      ensures this.repo == repo && this.tx == repo.tx
    {
      this.repo, this.tx := repo, repo.tx;
    }

    method Create(op: Op) returns (r: Response)
      requires op.Create? && tx == repo.tx && tx.pending == None
      modifies tx`pending, tx`version, tx.after, repo.guard, repo.guard.breaker
      ensures r.Okay? || r.Upset?
      ensures r.Okay? ==>
        && r.shown.Some? && tx.pending == Some(Commit(repo.db.writer, None, r.shown.value))
        && r.shown.value.author == op.actor.id && r.shown.value.title == op.title && r.shown.value.body == op.body
        && Live(r.shown.value)
        && tx.after.queue == old(tx.after.queue) + [Task(None, op.actor.id)]
      ensures r.Upset? ==> tx.pending == None && tx.after.queue == old(tx.after.queue)
    {
      var made := repo.Insert(op);
      if !made.Returned? {
        return Upset(Carrying(made, ()));
      }
      tx.after.Register(Task(None, op.actor.id));
      r := Okay(Some(made.value));
    }

    /** `_raise_conflict_or_not_found` */
    method ConflictOrNotFound(id: int) returns (r: Response)
      requires tx == repo.tx && tx.pending == None && tx.version == None
      modifies tx`pending, tx`version, repo.guard, repo.guard.breaker
      ensures old(repo.guard.calls) <= repo.guard.calls && tx.pending == None
      ensures r.Conflict? || r.NotFound? || (r.Upset? && !r.cause.Returned?)
      ensures !r.Upset? ==>
        && repo.guard.calls != old(repo.guard.calls)
        && (r.Conflict? <==> Seen(None, repo.db.views(|repo.guard.calls| - 1), id).Some?)
    {
      var row := repo.Get(id);
      if !row.Returned? {
        return Upset(Carrying(row, ()));
      }
      r := if row.value.None? then NotFound else Conflict;
    }

    /** The answer to a write that matched: an update reads its row again. */
    method Show(op: Op) returns (r: Response, ghost retried: bool)
      requires !op.Create? && tx == repo.tx && tx.pending.Some?
      modifies tx`pending, tx`version, repo.guard, repo.guard.breaker
      ensures old(repo.guard.calls) <= repo.guard.calls
      ensures r.Okay? || r.NotFound? || (r.Upset? && !r.cause.Returned?)
      ensures tx.pending == if retried then None else old(tx.pending)
      ensures tx.version == if retried then None else old(tx.version)
      ensures retried ==> op.Update? && repo.db.attempts > 1
      ensures op.Delete? ==> r == Okay(None)
      ensures op.Update? && !r.Upset? ==>
        && repo.guard.calls != old(repo.guard.calls)
        && var row := Seen(tx.version, repo.db.views(|repo.guard.calls| - 1), op.id);
           r == if row.Some? then Okay(row) else NotFound
    {
      if op.Delete? {
        return Okay(None), false;
      }
      ghost var at := |repo.guard.calls|;
      var again := repo.Get(op.id);
      retried := RolledBack(repo.guard.calls, at);
      if !again.Returned? {
        return Upset(Carrying(again, ())), retried;
      }
      r := if again.value.None? then NotFound else Okay(again.value);
    }

    /** `update` and `delete`: load, authorize, compare-and-set, queue the invalidation, and for an
        update read the row again. */
    method Modify(op: Op) returns (r: Response, ghost st: Story)
      requires !op.Create? && tx == repo.tx && tx.pending == None && tx.version == None && tx.after.queue == []
      modifies tx`pending, tx`version, tx.after, repo.guard, repo.guard.breaker
      ensures Told(repo.db, op, st, r, tx.pending, tx.after.queue)
    {
      st := Story(0, 0, 0, false);
      var article := repo.Get(op.id);
      if !article.Returned? {
        return Upset(Carrying(article, ())), st;
      }
      st := st.(found := |repo.guard.calls| - 1);
      if article.value.None? {
        return NotFound, st;
      }
      if !Allowed(op.actor, article.value.value.author) {
        return Forbidden, st;
      }
      var author := article.value.value.author;
      var matched := repo.Cas(op);
      if !matched.Returned? {
        return Upset(Carrying(matched, ())), st;
      }
      st := st.(cas := |repo.guard.calls| - 1);
      if matched.value == 0 {
        r := ConflictOrNotFound(op.id);
        st := st.(last := if r.Upset? then 0 else |repo.guard.calls| - 1);
        return;
      }
      tx.after.Register(Task(Some(op.id), author));
      ghost var retried;
      r, retried := Show(op);
      st := st.(last := |repo.guard.calls| - 1, retried := retried);
    }

    /** One write request, all of it: the handler, then the teardown that commits it, then the
        invalidations, then the response. */
    method Handle(op: Op) returns (r: Response, cut: bool, ghost st: Story, ghost marks: seq<nat>)
      requires tx == repo.tx && tx.Valid() && tx.pending == None && tx.version == None && tx.done == []
      requires tx.after.queue == []
      modifies tx, tx.after, tx.after.cache, tx.after.cache.world, tx.after.cache.world.breaker
      modifies repo.guard, repo.guard.breaker
      ensures tx.pending == None && tx.after.queue == []
      ensures r.Okay? ==> tx.ending.Done? && Honoured(repo.db, op, st, r.shown, tx.done)
      ensures r.Okay? && !op.Create? ==> MayChange(repo.db, op, st) && (AuthoredBy(repo.db, op, st) || op.actor.admin)
      ensures r.Forbidden?
        ==> !op.Create? && MayChange(repo.db, op, st) && !AuthoredBy(repo.db, op, st) && !op.actor.admin
      ensures r.Okay? && !op.Create? && !st.retried ==> |tx.done| == 1 && CommittedColumns(repo.db, op, st, tx.done[0])
      ensures r.Okay? && op.Update? && !st.retried && ChangesColumns(repo.db, op, st)
        ==> r.shown == Some(tx.done[0].row)
      ensures r.Okay? && !cut ==> Drained(tx.after.cache.world.redis, tx.after.cache.world.log,
                                          |old(tx.after.cache.world.log)|, marks, [TaskOf(repo.db, op, st)])
      ensures r.Okay? && !cut && !op.Create? ==>
        Cache.Tries(tx.after.cache.world.log, |old(tx.after.cache.world.log)|, Cache.DropBody(op.id))
      ensures !r.Okay? ==> tx.after.cache.world.log == old(tx.after.cache.world.log)
      ensures !r.Okay? && tx.done != [] ==> r.CommitFailed? && tx.ending == Lost(true)
      ensures !r.Okay? && !r.CommitFailed? && !op.Create? ==> tx.done == [] && FailedAs(repo.db, op, st, r)
      ensures !r.Okay? && !r.CommitFailed? && op.Create? ==> tx.done == [] && r.Upset?
      ensures r.CommitFailed? ==> tx.ending.Lost? && HonouredBut(repo.db, op, st, tx.ending.applied, tx.done)
    {
      st := Story(0, 0, 0, false);
      if op.Create? {
        r := Create(op);
      } else {
        r, st := Modify(op);
      }
      ghost var rows := if tx.pending.Some? then [tx.pending.value] else [];
      assert r.Okay? ==> Honoured(repo.db, op, st, r.shown, rows);
      var ok;
      ok, cut, marks := tx.Close(!r.Okay?);
      if r.Okay? && ok && !cut {
        EveryTaskIsTried(tx.after.cache.world.redis, tx.after.cache.world.log, |old(tx.after.cache.world.log)|, marks,
                         [TaskOf(repo.db, op, st)], 0);
      }
      if r.Okay? && !ok {
        r := CommitFailed;
      }
    }
  }

  /** The invalidation a successful write queues: under the author of the article, not of the request. */
  function TaskOf(db: Mysql, op: Op, st: Story): Task {
    if op.Create? || op.id !in db.views(st.found) then Task(None, op.actor.id)
    else Task(Some(op.id), db.views(st.found)[op.id].author)
  }

  /** What stands behind a success: the write was allowed and on the version its token names, and it
      is committed, in full and once, exactly when no retry of the re-read undid it. */
  ghost predicate Honoured(db: Mysql, op: Op, st: Story, shown: Option<Article>, done: seq<Commit>) {
    if op.Create? then
      && shown.Some? && done == [Commit(db.writer, None, shown.value)]
      && shown.value.author == op.actor.id && shown.value.title == op.title && shown.value.body == op.body
      && Live(shown.value)
    else
      && st.found < st.cas && Found?(db.views(st.found), op)
      && CasMatches(db.currents(st.cas), op.id, op.token)
      && done == (if st.retried then [] else [Written(db, op, st.cas)])
      && (st.retried ==> op.Update? && db.attempts > 1)
      && (op.Update? ==> shown.Some? && shown == Shown(db, op, st))
      && (op.Update? && !st.retried && OwnVersion(db, op, st.cas).Some? ==> shown == Some(done[0].row))
      && (op.Delete? ==> shown == None && done[0].row.deleted.Some?)
  }

  /** The handler failed as `r` says, with nothing committed. */
  ghost predicate FailedAs(db: Mysql, op: Op, st: Story, r: Response)
    requires !op.Create?
  {
    exists pending, tasks :: Told(db, op, st, r, pending, tasks)
  }

  /** The handler succeeded, and then the COMMIT failed: applied by the server, or not. */
  ghost predicate HonouredBut(db: Mysql, op: Op, st: Story, applied: bool, done: seq<Commit>) {
    exists shown, rows :: Honoured(db, op, st, shown, rows) && done == if applied then rows else []
  }

  /** The first SELECT found the article, and it was not deleted. */
  predicate MayChange(db: Mysql, op: Op, st: Story)
    requires !op.Create?
  {
    op.id in db.views(st.found) && db.views(st.found)[op.id].deleted == None
  }

  predicate AuthoredBy(db: Mysql, op: Op, st: Story)
    requires !op.Create? && MayChange(db, op, st)
  {
    db.views(st.found)[op.id].author == op.actor.id
  }

  /** The update's title or body differs from what the compare-and-set found. */
  predicate ChangesColumns(db: Mysql, op: Op, st: Story)
    requires op.Update?
  {
    var t := db.currents(st.cas);
    op.id in t && (t[op.id].title != op.title || t[op.id].body != op.body)
  }

  /** The commit of an update or delete, column by column. */
  predicate CommittedColumns(db: Mysql, op: Op, st: Story, c: Commit)
    requires !op.Create?
  {
    var t, row := db.currents(st.cas), c.row;
    && c.writer == db.writer && c.token == Some(op.token) && row.id == op.id && op.id in t
    && t[op.id].updated == op.token && t[op.id].deleted == None
    && row.author == t[op.id].author && row.created == t[op.id].created
    && (op.Update? ==> row.title == op.title && row.body == op.body && row.deleted == None)
    && (op.Delete? ==> row.title == t[op.id].title && row.body == t[op.id].body && row.deleted == Some(db.utc(st.cas)))
  }
}
