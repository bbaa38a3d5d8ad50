/** Concrete runs that show which hypotheses the guarantees need. */
module Counterexamples {
  import opened Articles
  import opened Protocol
  import opened Coherence
  import opened DetailCache
  import opened SingleFlight
  import Keyset
  import opened ListCache

  /** Nothing goes wrong: every command answered, nothing expires, nobody dies, no retry. */
  predicate Smooth(a: Action) {
    match a
    case Generations(_, f) => f == Answered
    case Get(_, f) => f == Answered
    case Lock(_, f) => f == Answered
    case Peek(_, f) => f == Answered
    case Put(_, f) => f == Answered
    case Release(_, f) => f == Answered
    case Clear(_, f) => f == Answered
    case BumpGlobal(_, f) => f == Answered
    case BumpAuthor(_, f) => f == Answered
    case CommitTx(_, answered) => answered
    case Reread(_, again) => !again
    case LoadFails(_) => false
    case Die(_) => false
    case Expire(_) => false
    case ExpireLock(_) => false
    case _ => true
  }

  ghost predicate SmoothlyReachable(s: State) {
    exists acts :: (forall a :: a in acts ==> Smooth(a)) && Run(acts) == Some(s)
  }

  lemma SmoothStep(s: State, a: Action)
    requires SmoothlyReachable(s) && Enabled(s, a) && Smooth(a)
    ensures SmoothlyReachable(Step(s, a))
  {
    var acts :| (forall b :: b in acts ==> Smooth(b)) && Run(acts) == Some(s);
    assert (acts + [a])[..|acts|] == acts;
    assert Run(acts + [a]) == Some(Step(s, a));
  }

  lemma ReachStep(s: State, a: Action)
    requires Reachable(s) && Enabled(s, a)
    ensures Reachable(Step(s, a))
  {
    var acts :| Run(acts) == Some(s);
    assert (acts + [a])[..|acts|] == acts;
    assert Run(acts + [a]) == Some(Step(s, a));
  }

  const AUTHOR := Actor(7, false)
  const ROW := Article(1, 7, "t", "b", 10, 10, None)
  const FIRST := Commit(0, None, ROW)

  function NewWriter(op: Op): Request {
    Writer(op, Begun, op.actor.id, None, None, {}, false)
  }

  function NewReader(target: Target): Request {
    Reader(target, Arrived, 0, false, None, false)
  }

  // --- a slow reader stores a body that a DEL has overtaken ---------------------------------------

  lemma ReplayOne()
    ensures Replay([FIRST]) == map[1 := ROW]
  {
    assert [FIRST] == [] + [FIRST];
    ReplayAppend([], FIRST);
  }

  /** Request 0 writes article 1 ... */
  lemma Inserted() returns (s: State)
    ensures SmoothlyReachable(s) && s.db == Ledger([], map[1 := 0], map[], {}) && s.cache == map[] && s.locks == map[]
    ensures s.reqs == map[0 := Writer(Create(AUTHOR, "t", "b"), Ready, 7, Some(FIRST), None, {}, false)]
  {
    assert SmoothlyReachable(INIT) by { assert Run([]) == Some(INIT); }
    var a1 := Arrive(0, NewWriter(Create(AUTHOR, "t", "b")));
    var s1 := Step(INIT, a1);
    SmoothStep(INIT, a1);
    s := Step(s1, Insert(0, 1, 10));
    SmoothStep(s1, Insert(0, 1, 10));
  }

  /** ... and commits it. */
  lemma Created() returns (s: State)
    ensures SmoothlyReachable(s) && s.db.log == [FIRST] && s.cache == map[] && s.locks == map[] && s.db.rows == map[]
    ensures s.db.cleared == {} && s.reqs.Keys == {0}
  {
    var s1 := Inserted();
    s := Step(s1, CommitTx(0, true));
    SmoothStep(s1, CommitTx(0, true));
  }

  /** Request 1 misses on article 1 ... */
  lemma MissedBody() returns (s: State)
    ensures SmoothlyReachable(s) && s.db.log == [FIRST] && s.cache == map[] && s.db.rows == map[] && s.db.cleared == {}
    ensures s.locks == map[] && s.reqs.Keys == {0, 1}
    ensures s.reqs[1] == Reader(BodyOf(1), Locking, 0, false, None, false)
  {
    var s0 := Created();
    var a1 := Arrive(1, NewReader(BodyOf(1)));
    var s1 := Step(s0, a1);
    SmoothStep(s0, a1);
    s := Step(s1, Get(1, Answered));
    SmoothStep(s1, Get(1, Answered));
  }

  /** ... and loads its body. */
  lemma LoadedBody() returns (s: State)
    ensures SmoothlyReachable(s) && s.db.log == [FIRST] && s.cache == map[] && s.db.rows == map[] && s.db.cleared == {}
    ensures s.locks == map[BodyKey(1) := 1] && s.reqs.Keys == {0, 1}
    ensures ReaderOneHoldsRow(s)
  {
    var s2 := MissedBody();
    ReplayOne();
    var s3 := Step(s2, Lock(1, Answered));
    SmoothStep(s2, Lock(1, Answered));
    s := Step(s3, Load(1));
    SmoothStep(s3, Load(1));
  }

  const GONE := Commit(2, Some(10), DeletedRow(ROW, 20, 20))

  predicate ReaderOneHoldsRow(s: State) {
    1 in s.reqs && s.reqs[1] == Reader(BodyOf(1), Loaded, 0, false, Some(Entry(Body(ROW), 1)), true)
  }

  /** Request 2 deletes article 1 ... */
  lemma Deleting() returns (s: State)
    ensures SmoothlyReachable(s) && s.db.log == [FIRST] && s.cache == map[] && s.db.cleared == {}
    ensures ReaderOneHoldsRow(s)
    ensures 2 in s.reqs && s.reqs[2] == Writer(Delete(AUTHOR, 1, 10), Ready, 7, Some(GONE), None, {}, false)
  {
    var s0 := LoadedBody();
    ReplayOne();
    assert [FIRST][..1] == [FIRST];
    var a1 := Arrive(2, NewWriter(Delete(AUTHOR, 1, 10)));
    var s1 := Step(s0, a1);
    SmoothStep(s0, a1);
    var s2 := Step(s1, Find(2, 1));
    SmoothStep(s1, Find(2, 1));
    s := Step(s2, Cas(2, 20, 20));
    SmoothStep(s2, Cas(2, 20, 20));
  }

  predicate Deleter(s: State, pc: WritePc, bumped: set<Scope>) {
    2 in s.reqs && s.reqs[2] == Writer(Delete(AUTHOR, 1, 10), pc, 7, None, Some(1), bumped, false)
  }

  /** ... commits, clears its body ... */
  lemma DeletedAndCleared() returns (s: State)
    ensures SmoothlyReachable(s) && s.db.log == [FIRST, GONE] && s.cache == map[] && s.db.cleared == {1}
    ensures ReaderOneHoldsRow(s)
    ensures Deleter(s, BumpingGlobal, {})
  {
    var s3 := Deleting();
    var s4 := Step(s3, CommitTx(2, true));
    SmoothStep(s3, CommitTx(2, true));
    assert s4.db.log == [FIRST, GONE] && Deleter(s4, Clearing, {});
    s := Step(s4, Clear(2, Answered));
    SmoothStep(s4, Clear(2, Answered));
  }

  /** ... moves both counters and is acknowledged. */
  lemma DeletedMeanwhile() returns (s: State)
    ensures SmoothlyReachable(s) && s.db.log == [FIRST, GONE] && s.cache == map[] && s.db.cleared == {1}
    ensures ReaderOneHoldsRow(s)
    ensures Deleter(s, Acknowledged, {Global, OfAuthor(7)})
  {
    var s5 := DeletedAndCleared();
    var s6 := Step(s5, BumpGlobal(2, Answered));
    SmoothStep(s5, BumpGlobal(2, Answered));
    assert Deleter(s6, BumpingAuthor, {Global});
    s := Step(s6, BumpAuthor(2, Answered));
    SmoothStep(s6, BumpAuthor(2, Answered));
  }

  /** `id` is cached although every write to it was committed, cleared and acknowledged, and the
      database no longer has it. */
  ghost predicate StaleForGood(s: State, id: int) {
    && SmoothlyReachable(s) && Settled(s, id) && BodyKey(id) in s.cache
    && LoadValue(Replay(s.db.log), BodyOf(id)) == None
  }

  /** Deferring the DEL past the commit does not close the race on the detail path: with Redis and
      MySQL faultless, a deleted article can stay cached. */
  lemma OvertakenBodyStaysCached()
    ensures exists s :: StaleForGood(s, 1)
  {
    var s0 := DeletedMeanwhile();
    var s := Step(s0, Put(1, Answered));
    SmoothStep(s0, Put(1, Answered));
    assert s.db.log == [FIRST] + [GONE];
    ReplayOne();
    ReplayAppend([FIRST], GONE);
    assert StaleForGood(s, 1);
  }

  // --- a refused generation read serves a page that every counter has left behind ------------------

  const FRONT_PAGE := Window(None, 1, None)
  const EMPTY_PAGE := Entry(ListPage(Page([], None)), 0)
  const NEW_ROW := Commit(2, None, ROW)

  lemma Extend(acts: seq<Action>, a: Action)
    requires Run(acts).Some? && Enabled(Run(acts).value, a)
    ensures Run(acts + [a]) == Some(Step(Run(acts).value, a))
  {
    assert (acts + [a])[..|acts|] == acts;
  }

  lemma NoRowsNoPage()
    ensures LoadPage(map[], FRONT_PAGE) == Page([], None)
  {
    assert Matching(map[], FRONT_PAGE) == {};
  }

  lemma OneRowOnThePage()
    ensures LoadPage(Replay([NEW_ROW]), FRONT_PAGE) != Page([], None)
  {
    var t := Replay([NEW_ROW]);
    assert [NEW_ROW] == [] + [NEW_ROW];
    ReplayAppend([], NEW_ROW);
    Keyset.PageShape(t, FRONT_PAGE);
    assert Summarize(t[1]) in Matching(t, FRONT_PAGE);
    SortedShape(Matching(t, FRONT_PAGE));
  }

  /** Request 1, a list read with every command answered, misses on the front page ... */
  lemma MissedFrontPage() returns (acts: seq<Action>)
    ensures Run(acts).Some? && Run(acts).value == State(INIT.db, map[], map[], Run(acts).value.reqs)
    ensures Run(acts).value.reqs == map[1 := Reader(PageOf(FRONT_PAGE), Locking, 0, true, None, false)]
  {
    var a1 := Arrive(1, NewReader(PageOf(FRONT_PAGE)));
    assert Run([]) == Some(INIT);
    Extend([], a1);
    acts := [] + [a1];
    Extend(acts, Generations(1, Answered));
    acts := acts + [Generations(1, Answered)];
    Extend(acts, Get(1, Answered));
    acts := acts + [Get(1, Answered)];
  }

  /** ... and stores the empty page of the empty table under generation zero. */
  lemma StoredFrontPage() returns (acts: seq<Action>)
    ensures Run(acts).Some?
    ensures var s := Run(acts).value;
      s.db == INIT.db && s.cache == map[PageKey(0, FRONT_PAGE) := EMPTY_PAGE] && s.reqs.Keys == {1}
  {
    acts := MissedFrontPage();
    NoRowsNoPage();
    Extend(acts, Lock(1, Answered));
    acts := acts + [Lock(1, Answered)];
    Extend(acts, Load(1));
    acts := acts + [Load(1)];
    Extend(acts, Put(1, Answered));
    acts := acts + [Put(1, Answered)];
  }

  predicate FrontPageStaysStored(s: State) {
    s.cache == map[PageKey(0, FRONT_PAGE) := EMPTY_PAGE] && s.reqs.Keys == {1, 2}
  }

  /** Request 2 creates article 1 ... */
  lemma CreatedBehindIt() returns (acts: seq<Action>)
    ensures Run(acts).Some?
    ensures var s := Run(acts).value;
      && FrontPageStaysStored(s) && s.db == Ledger([NEW_ROW], map[], map[], {})
      && s.reqs[2] == Writer(Create(AUTHOR, "t", "b"), BumpingGlobal, 7, None, Some(0), {}, false)
  {
    acts := StoredFrontPage();
    var a1 := Arrive(2, NewWriter(Create(AUTHOR, "t", "b")));
    Extend(acts, a1);
    acts := acts + [a1];
    Extend(acts, Insert(2, 1, 10));
    acts := acts + [Insert(2, 1, 10)];
    Extend(acts, CommitTx(2, true));
    acts := acts + [CommitTx(2, true)];
    assert Run(acts).value.db.rows == map[];
  }

  /** ... and moves both counters. */
  lemma CountersMoved() returns (acts: seq<Action>)
    ensures Run(acts).Some?
    ensures var s := Run(acts).value;
      && FrontPageStaysStored(s) && s.db.log == [NEW_ROW]
      && s.reqs[2] == Writer(Create(AUTHOR, "t", "b"), Acknowledged, 7, None, Some(0), {Global, OfAuthor(7)}, false)
  {
    acts := CreatedBehindIt();
    Extend(acts, BumpGlobal(2, Answered));
    acts := acts + [BumpGlobal(2, Answered)];
    Extend(acts, BumpAuthor(2, Answered));
    acts := acts + [BumpAuthor(2, Answered)];
    assert Run(acts).value.reqs[2].bumped == {Global, OfAuthor(7)};
  }

  /** Reader q begins after writer p has moved its counters and is acknowledged, and answers with a
      page that no database with the write ever had. */
  ghost predicate AnswersWithout(acts: seq<Action>, j: nat, p: Pid, q: Pid) {
    && ReadsAfter(acts, j, p, q)
    && var s0, s := Run(acts[..j]).value, Run(acts).value;
       && WriterAt(s0, p, Acknowledged)
       && forall n :: s0.reqs[p].ix.value < n <= |s.db.log| ==>
            !IsPageAsOf(s.db.log, s.reqs[q].target.window, s.reqs[q].got.value.value, n)
  }

  /** Request 3 comes last, and a gate holds its generation read back ... */
  lemma RefusedGeneration() returns (acts: seq<Action>, j: nat)
    ensures j <= |acts| && Run(acts[..j]).Some? && Run(acts).Some?
    ensures var s0 := Run(acts[..j]).value;
      && FrontPageStaysStored(s0)
      && s0.reqs[2] == Writer(Create(AUTHOR, "t", "b"), Acknowledged, 7, None, Some(0), {Global, OfAuthor(7)}, false)
    ensures var s := Run(acts).value;
      s.db.log == [NEW_ROW] && s.cache == map[PageKey(0, FRONT_PAGE) := EMPTY_PAGE]
      && 3 in s.reqs && s.reqs[3] == Reader(PageOf(FRONT_PAGE), Keyed, 0, false, None, false)
  {
    acts := CountersMoved();
    j := |acts|;
    var was := acts;
    var a1 := Arrive(3, NewReader(PageOf(FRONT_PAGE)));
    Extend(acts, a1);
    acts := acts + [a1];
    Extend(acts, Generations(3, NotRun));
    acts := acts + [Generations(3, NotRun)];
    assert acts[..j] == was;
  }

  /** ... but its lookup is answered, and the key it builds was written by a reader whose counter was
      genuinely unset. */
  lemma RefusedGenerationServesStalePage()
    ensures exists acts, j :: AnswersWithout(acts, j, 2, 3)
  {
    var front, j := RefusedGeneration();
    Extend(front, Get(3, Answered));
    var acts := front + [Get(3, Answered)];
    assert acts[..j] == front[..j];
    assert Run(acts).value.reqs[3] == Reader(PageOf(FRONT_PAGE), Done, 0, false, Some(EMPTY_PAGE), false);
    OneRowOnThePage();
    assert [NEW_ROW][..1] == [NEW_ROW];
    assert AnswersWithout(acts, j, 2, 3);
  }

  // --- an update whose re-read is retried loses its write ------------------------------------------

  const EDIT := Update(AUTHOR, 1, 10, "t2", "b2")

  predicate Editor(s: State, pc: WritePc, pending: Option<Commit>, retried: bool, bumped: set<Scope>) {
    2 in s.reqs && s.reqs[2] == Writer(EDIT, pc, 7, pending, None, bumped, retried)
  }

  lemma SmoothIsReachable(s: State)
    requires SmoothlyReachable(s)
    ensures Reachable(s)
  {
  }

  /** Request 2 updates article 1 by compare-and-set ... */
  lemma Editing() returns (s: State)
    ensures Reachable(s) && s.db.log == [FIRST]
    ensures Editor(s, Cased, Some(Commit(2, Some(10), UpdatedRow(ROW, "t2", "b2", 20))), false, {})
  {
    var s0 := Created();
    SmoothIsReachable(s0);
    ReplayOne();
    assert [FIRST][..1] == [FIRST];
    var a1 := Arrive(2, NewWriter(EDIT));
    var s1 := Step(s0, a1);
    ReachStep(s0, a1);
    var s2 := Step(s1, Find(2, 1));
    ReachStep(s1, Find(2, 1));
    s := Step(s2, Cas(2, 0, 20));
    ReachStep(s2, Cas(2, 0, 20));
  }

  /** ... its re-read fails once, is rolled back and retried, and the request commits nothing ... */
  lemma EditedNothing() returns (s: State)
    ensures Reachable(s) && s.db.log == [FIRST] && Editor(s, Clearing, None, true, {})
  {
    var s0 := Editing();
    var s1 := Step(s0, Reread(2, true));
    ReachStep(s0, Reread(2, true));
    assert Editor(s1, Ready, None, true, {});
    s := Step(s1, CommitTx(2, true));
    ReachStep(s1, CommitTx(2, true));
  }

  lemma ClearedForNothing() returns (s: State)
    ensures Reachable(s) && s.db.log == [FIRST] && Editor(s, BumpingAuthor, None, true, {Global})
  {
    var s0 := EditedNothing();
    var s1 := Step(s0, Clear(2, Answered));
    ReachStep(s0, Clear(2, Answered));
    assert Editor(s1, BumpingGlobal, None, true, {});
    s := Step(s1, BumpGlobal(2, Answered));
    ReachStep(s1, BumpGlobal(2, Answered));
  }

  ghost predicate AcknowledgedButLost(s: State, p: Pid) {
    && Reachable(s) && WriterAt(s, p, Acknowledged) && s.reqs[p].op.Update?
    && forall i :: 0 <= i < |s.db.log| ==> s.db.log[i].writer != p
  }

  /** ... and is acknowledged all the same. "Only reads retry" does not keep a write inside one
      transaction when the retried read follows the write. */
  lemma RetriedRereadLosesTheWrite()
    ensures exists s :: AcknowledgedButLost(s, 2)
  {
    var s2 := ClearedForNothing();
    var s3 := Step(s2, BumpAuthor(2, Answered));
    ReachStep(s2, BumpAuthor(2, Answered));
    assert s3.db.log == [FIRST];
    assert AcknowledgedButLost(s3, 2);
  }

  // --- a lock that expires in use is released by its former owner ----------------------------------

  lemma FirstHolder() returns (s: State)
    ensures Reachable(s) && s.cache == map[] && s.locks == map[BodyKey(1) := 1] && s.db.log == [] && s.reqs.Keys == {1}
    ensures s.reqs[1] == Reader(BodyOf(1), Loading, 0, false, None, true)
  {
    assert Reachable(INIT) by { assert Run([]) == Some(INIT); }
    var a1 := Arrive(1, NewReader(BodyOf(1)));
    var s1 := Step(INIT, a1);
    ReachStep(INIT, a1);
    var s2 := Step(s1, Get(1, Answered));
    ReachStep(s1, Get(1, Answered));
    s := Step(s2, Lock(1, Answered));
    ReachStep(s2, Lock(1, Answered));
  }

  lemma SecondHolder() returns (s: State)
    ensures Reachable(s) && s.locks == map[BodyKey(1) := 2] && s.db.log == [] && s.reqs.Keys == {1, 2}
    ensures s.reqs[1] == Reader(BodyOf(1), Loading, 0, false, None, true)
    ensures s.reqs[2] == Reader(BodyOf(1), Loading, 0, false, None, true)
  {
    var s0 := FirstHolder();
    var s1 := Step(s0, ExpireLock(BodyKey(1)));
    ReachStep(s0, ExpireLock(BodyKey(1)));
    var a2 := Arrive(2, NewReader(BodyOf(1)));
    var s2 := Step(s1, a2);
    ReachStep(s1, a2);
    var s3 := Step(s2, Get(2, Answered));
    ReachStep(s2, Get(2, Answered));
    s := Step(s3, Lock(2, Answered));
    ReachStep(s3, Lock(2, Answered));
  }

  ghost predicate BothHold(s: State, p: Pid, q: Pid, k: Key) {
    Reachable(s) && p != q && Holds(s, p, k) && Holds(s, q, k)
  }

  /** An expiry in use is enough for two holders: the winner does not learn of it. */
  lemma ExpiryGivesTwoHolders()
    ensures exists s :: BothHold(s, 1, 2, BodyKey(1))
  {
    var s := SecondHolder();
    assert BothHold(s, 1, 2, BodyKey(1));
  }

  /** Neither does a request whose claim went unanswered learn that the lock is another's. */
  lemma LostClaimGivesTwoHolders()
    ensures exists s :: BothHold(s, 1, 2, BodyKey(1))
  {
    var s0 := FirstHolder();
    var a1 := Arrive(2, NewReader(BodyOf(1)));
    var s1 := Step(s0, a1);
    ReachStep(s0, a1);
    var s2 := Step(s1, Get(2, Answered));
    ReachStep(s1, Get(2, Answered));
    var s3 := Step(s2, Lock(2, NotRun));
    ReachStep(s2, Lock(2, NotRun));
    assert BothHold(s3, 1, 2, BodyKey(1));
  }

  ghost predicate HoldsWithoutLock(s: State, p: Pid, k: Key) {
    Reachable(s) && Holds(s, p, k) && k !in s.locks
  }

  /** The release carries no owner token: after an expiry, one winner frees the other's lock. */
  lemma ReleaseFreesAnothersLock()
    ensures exists s :: HoldsWithoutLock(s, 2, BodyKey(1))
  {
    var s0 := SecondHolder();
    var s1 := Step(s0, LoadFails(1));
    ReachStep(s0, LoadFails(1));
    var s2 := Step(s1, Release(1, Answered));
    ReachStep(s1, Release(1, Answered));
    assert HoldsWithoutLock(s2, 2, BodyKey(1));
  }
}
