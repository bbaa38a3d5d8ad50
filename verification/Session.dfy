/** One transaction per request, and the work that waits for its commit (app/db/session.py
    `get_session`, app/db/after_commit.py). */
module Session {
  import opened Articles
  import opened Cache

  /** A queued invalidation: the body of one article, and the counters of its author. */
  datatype Task = Task(id: Option<int>, author: int)

  /** What becomes of COMMIT: answered, or an error, after the server ran it or not. */
  datatype Ending = Done | Lost(applied: bool)

  // --- what a callback does to the cache ---------------------------------------------------------------

  predicate BumpRan(redis: nat -> Reply, log: seq<Event>, from: nat, to: nat, author: int) {
    || (to == from + 2 <= |log| && log[from] == Sent(BumpAll) && redis(from).Answer?
        && log[from + 1] == Sent(BumpOne(author)))
    || (to == from + 1 <= |log| && Tries(log, from, BumpAll) && !Heard(redis, log, from).Answer?)
  }

  /** Events `from` to `to` are one callback: first the DEL of the article, then the counters, unless
      the DEL raised. */
  predicate TaskRan(redis: nat -> Reply, log: seq<Event>, from: nat, to: nat, task: Task) {
    if task.id.None? then BumpRan(redis, log, from, to, task.author)
    else
      && Tries(log, from, DropBody(task.id.value))
      && if Heard(redis, log, from).Cut? then to == from + 1 else BumpRan(redis, log, from + 1, to, task.author)
  }

  /** The callbacks ran one after the other, in order, and nothing else did. */
  predicate Drained(redis: nat -> Reply, log: seq<Event>, at: nat, marks: seq<nat>, tasks: seq<Task>) {
    && |marks| == |tasks| + 1 && marks[0] == at && marks[|tasks|] == |log|
    && forall i :: 0 <= i < |tasks| ==> TaskRan(redis, log, marks[i], marks[i + 1], tasks[i])
  }

  predicate NoneCancelled(redis: nat -> Reply, log: seq<Event>, at: nat) {
    forall i :: at <= i < |log| ==> Heard(redis, log, i) != Cut(true)
  }

  lemma NoneCancelledJoin(redis: nat -> Reply, log: seq<Event>, more: seq<Event>, at: nat)
    requires log <= more && NoneCancelled(redis, log, at) && NoneCancelled(redis, more, |log|)
    ensures NoneCancelled(redis, more, at)
  {
    forall i | at <= i < |more| ensures Heard(redis, more, i) != Cut(true) {
      if i < |log| { assert more[i] == log[i] && Heard(redis, log, i) != Cut(true); }
    }
  }

  lemma StillRan(redis: nat -> Reply, log: seq<Event>, more: seq<Event>, from: nat, to: nat, task: Task)
    requires TaskRan(redis, log, from, to, task) && log <= more
    ensures TaskRan(redis, more, from, to, task)
  {
    assert forall i :: 0 <= i < |log| ==> more[i] == log[i];
  }

  lemma {:induction false} MarksAscend(redis: nat -> Reply, log: seq<Event>, at: nat, marks: seq<nat>, tasks: seq<Task>,
                                     i: nat, j: nat)
    requires Drained(redis, log, at, marks, tasks) && i <= j <= |tasks|
    ensures marks[i] + (j - i) <= marks[j]
    decreases j
  {
    if i < j {
      MarksAscend(redis, log, at, marks, tasks, i, j - 1);
      assert TaskRan(redis, log, marks[j - 1], marks[j], tasks[j - 1]);
    }
  }

  /** Whatever Redis answers and whatever raises, every queued write has its body's DEL tried and then,
      unless the DEL itself raised, the global INCR, and its author's when that was answered: in this
      order, and before the next write's turn. */
  lemma EveryTaskIsTried(redis: nat -> Reply, log: seq<Event>, at: nat, marks: seq<nat>, tasks: seq<Task>, i: nat)
    requires Drained(redis, log, at, marks, tasks) && i < |tasks|
    ensures var d := marks[i] + if tasks[i].id.Some? then 1 else 0;
      && at <= marks[i] < marks[i + 1] <= |log|
      && (tasks[i].id.Some? ==> Tries(log, marks[i], DropBody(tasks[i].id.value)))
      && if tasks[i].id.Some? && Heard(redis, log, marks[i]).Cut? then marks[i + 1] == d
         else
           && Tries(log, d, BumpAll)
           && (Heard(redis, log, d).Answer? <==> d + 1 < marks[i + 1] && log[d + 1] == Sent(BumpOne(tasks[i].author)))
  {
    MarksAscend(redis, log, at, marks, tasks, 0, i);
    MarksAscend(redis, log, at, marks, tasks, i + 1, |tasks|);
    assert TaskRan(redis, log, marks[i], marks[i + 1], tasks[i]);
  }

  class AfterCommit {
    const cache: ArticleCache
    var queue: seq<Task>

    constructor (cache: ArticleCache)
      ensures this.cache == cache && queue == []
    {
      this.cache, queue := cache, [];
    }

    method Register(task: Task)
      modifies this
      ensures queue == old(queue) + [task]
    {
      queue := queue + [task];
    }

    method Discard()
      modifies this
      ensures queue == []
    {
      queue := [];
    }

    method RunTask(task: Task) returns (fate: Fate)
      requires cache.Valid()
      modifies cache, cache.world, cache.world.breaker
      ensures cache.Valid()
      ensures old(cache.world.log) < cache.world.log
      ensures fate == FateOf(Heard(cache.world.redis, cache.world.log, |cache.world.log| - 1))
      ensures fate != Cancelled ==> NoneCancelled(cache.world.redis, cache.world.log, |old(cache.world.log)|)
      ensures fate != Cancelled
        ==> TaskRan(cache.world.redis, cache.world.log, |old(cache.world.log)|, |cache.world.log|, task)
    {
      ghost var at := |cache.world.log|;
      if task.id.Some? {
        fate := cache.InvalidateArticle(task.id.value);
        if fate != Through {
          return;
        }
      }
      ghost var mid := cache.world.log;
      fate := cache.BumpGenerations(task.author);
      assert forall i :: 0 <= i < |mid| ==> cache.world.log[i] == mid[i];
    }

    /** A callback that raises is skipped over, and those behind it run; only a cancellation stops the
        queue. */
    method Drain() returns (cut: bool, ghost marks: seq<nat>)
      requires cache.Valid()
      modifies this, cache, cache.world, cache.world.breaker
      ensures cache.Valid() && queue == [] && old(cache.world.log) <= cache.world.log
      ensures !cut ==> Drained(cache.world.redis, cache.world.log, |old(cache.world.log)|, marks, old(queue))
      ensures !cut ==> NoneCancelled(cache.world.redis, cache.world.log, |old(cache.world.log)|)
      ensures cut ==> old(cache.world.log) != cache.world.log
      ensures cut ==> Heard(cache.world.redis, cache.world.log, |cache.world.log| - 1) == Cut(true)
    {
      var tasks := queue;
      queue := [];
      marks := [|cache.world.log|];
      for i := 0 to |tasks|
        invariant cache.Valid() && queue == [] && old(cache.world.log) <= cache.world.log
        invariant Drained(cache.world.redis, cache.world.log, |old(cache.world.log)|, marks, tasks[..i])
        invariant NoneCancelled(cache.world.redis, cache.world.log, |old(cache.world.log)|)
      {
        ghost var before := cache.world.log;
        var fate := RunTask(tasks[i]);
        if fate == Cancelled {
          cut := true;
          return;
        }
        forall j | 0 <= j < i
          ensures TaskRan(cache.world.redis, cache.world.log, marks[j], marks[j + 1], tasks[j])
        {
          assert TaskRan(cache.world.redis, before, marks[j], marks[j + 1], tasks[..i][j]);
          StillRan(cache.world.redis, before, cache.world.log, marks[j], marks[j + 1], tasks[j]);
        }
        NoneCancelledJoin(cache.world.redis, before, cache.world.log, |old(cache.world.log)|);
        marks := marks + [|cache.world.log|];
      }
      assert tasks[..|tasks|] == tasks;
      cut := false;
    }
  }

  // --- the transaction -------------------------------------------------------------------------------

  /** `pending` is the row the open transaction has written, `version` the row version this left for its
      own SELECTs (a rewrite that changes no column leaves none), `done` what this session committed. */
  class Transaction {
    const after: AfterCommit
    const ending: Ending
    var pending: Option<Commit>
    var version: Option<Article>
    var done: seq<Commit>

    ghost predicate Valid()
      reads this, after, after.cache, after.cache.world
    {
      after.cache.Valid()
    }

    constructor (after: AfterCommit, ending: Ending)
      requires after.cache.Valid()
      ensures Valid() && this.after == after && this.ending == ending
      ensures pending == None && version == None && done == []
    {
      this.after, this.ending, pending, version, done := after, ending, None, None, [];
    }

    method Commit() returns (ok: bool)
      modifies this
      ensures ok == ending.Done? && pending == None && version == None
      ensures done == old(done) + if ending == Lost(false) || old(pending).None? then [] else [old(pending).value]
    {
      ok := ending.Done?;
      if ending != Lost(false) && pending.Some? {
        done := done + [pending.value];
      }
      pending, version := None, None;
    }

    method Rollback()
      modifies this`pending, this`version
      ensures pending == None && version == None
    {
      pending, version := None, None;
    }

    /** A statement of this transaction has written `c`, and `v` is the version it left. */
    method Write(c: Commit, v: Option<Article>)
      modifies this`pending, this`version
      ensures pending == Some(c) && version == v
    {
      pending, version := Some(c), v;
    }

    /** The teardown: commit, then the queue, before the response; or rollback, and the queue is
        dropped. `raised` is what the handler did. */
    method Close(raised: bool) returns (ok: bool, cut: bool, ghost marks: seq<nat>)
      requires Valid()
      modifies this, after, after.cache, after.cache.world, after.cache.world.breaker
      ensures Valid() && pending == None && version == None && after.queue == []
      ensures ok == (!raised && ending.Done?)
      ensures done == old(done)
        + if raised || ending == Lost(false) || old(pending).None? then [] else [old(pending).value]
      ensures !ok ==> after.cache.world.log == old(after.cache.world.log) && !cut
      ensures ok && !cut
        ==> Drained(after.cache.world.redis, after.cache.world.log, |old(after.cache.world.log)|, marks,
                    old(after.queue))
    {
      ok, cut, marks := false, false, [];
      if !raised {
        ok := Commit();
      }
      if !ok {
        Rollback();
        after.Discard();
        return;
      }
      cut, marks := after.Drain();
    }
  }
}
