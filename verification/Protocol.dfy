/** The cache-aside protocol as one small-step transition system: any number of readers and
    writers interleaved at every await, over one database, one Redis and the row locks of the
    compare-and-set statements (app/services/article_service.py, app/cache/article_cache.py,
    app/repositories/article_repo.py, app/db/session.py).

    Any Redis command may fail, before or after the server ran it; any entry may expire at any
    time; any request may die at any step. Fields marked "history" are not stored by the
    implementation: no step reads them to decide anything. */
module Protocol {
  import opened Articles

  type Pid = nat

  // --- Redis ----------------------------------------------------------------------------------

  datatype Key = BodyKey(id: int) | PageKey(gen: nat, window: Window)

  datatype Value = Body(article: Article) | ListPage(page: Page)

  /** `asOf` (history) is the number of commits the database held when the value was read. */
  datatype Entry = Entry(value: Value, asOf: nat)

  datatype Scope = Global | OfAuthor(author: int)

  /** What became of a command: answered, run without an answer, or never run (refused by the
      switch, the latch or the breaker, or lost on the way). */
  datatype Fault = Answered | AnswerLost | NotRun

  // --- requests -------------------------------------------------------------------------------

  datatype Target = BodyOf(id: int) | PageOf(window: Window)

  datatype Actor = Actor(id: int, admin: bool)

  datatype Op =
    | Create(actor: Actor, title: string, body: string)
    | Update(actor: Actor, id: int, token: int, title: string, body: string)
    | Delete(actor: Actor, id: int, token: int)

  datatype ReadPc = Arrived | Keyed | Locking | Waiting | Loading | Loaded | Releasing | Done

  datatype WritePc = Begun | Found | Cased | Ready | Clearing | BumpingGlobal | BumpingAuthor
    | Acknowledged | Aborted

  /** `genuine` (history): the generation came from Redis.
      `ix` (history): the commit this writer made. `bumped` (history): the counters it moved.
      `retried` (history): the re-read after the compare-and-set was rolled back and retried. */
  datatype Request =
    | Reader(target: Target, rpc: ReadPc, gen: nat, genuine: bool, got: Option<Entry>, won: bool)
    | Writer(op: Op, wpc: WritePc, author: int, pending: Option<Commit>, ix: Option<nat>,
             bumped: set<Scope>, retried: bool)

  /** What writers share. `bumps[c]` lists, for each INCR of counter c, the commit its writer had
      made (history), so the counter's value is its length. `rows`: who holds the row lock of an
      article. `cleared` (history): the commits whose DEL ran. */
  datatype Ledger = Ledger(log: seq<Commit>, rows: map<int, Pid>, bumps: map<Scope, seq<Option<nat>>>,
                           cleared: set<nat>)

  datatype State = State(db: Ledger, cache: map<Key, Entry>, locks: map<Key, Pid>, reqs: map<Pid, Request>)

  const INIT := State(Ledger([], map[], map[], {}), map[], map[], map[])

  datatype Action =
    | Arrive(pid: Pid, request: Request)
    | Generations(pid: Pid, fault: Fault)
    | Get(pid: Pid, fault: Fault)
    | Lock(pid: Pid, fault: Fault)
    | Peek(pid: Pid, fault: Fault)
    | GiveUp(pid: Pid)
    | Load(pid: Pid)
    | LoadFails(pid: Pid)
    | Put(pid: Pid, fault: Fault)
    | Release(pid: Pid, fault: Fault)
    | Find(pid: Pid, asOf: nat)
    | Insert(pid: Pid, id: int, stamp: int)
    | Cas(pid: Pid, at: int, stamp: int)
    | Reread(pid: Pid, again: bool)
    | CommitTx(pid: Pid, answered: bool)
    | Clear(pid: Pid, fault: Fault)
    | BumpGlobal(pid: Pid, fault: Fault)
    | BumpAuthor(pid: Pid, fault: Fault)
    | Die(pid: Pid)
    | Expire(key: Key)
    | ExpireLock(key: Key)

  // --- vocabulary -----------------------------------------------------------------------------

  function Bumps(db: Ledger, c: Scope): seq<Option<nat>> {
    if c in db.bumps then db.bumps[c] else []
  }

  function ScopeOf(w: Window): Scope {
    if w.author.None? then Global else OfAuthor(w.author.value)
  }

  function TargetOf(k: Key): Target {
    match k case BodyKey(id) => BodyOf(id) case PageKey(_, w) => PageOf(w)
  }

  function KeyOf(r: Request): Key
    requires r.Reader?
  {
    match r.target case BodyOf(id) => BodyKey(id) case PageOf(w) => PageKey(r.gen, w)
  }

  /** What the database answers: an article is there or not, a page always is. */
  ghost function LoadValue(t: Table, target: Target): Option<Value> {
    match target
    case BodyOf(id) => if id in t && Live(t[id]) then Some(Body(t[id])) else None
    case PageOf(w) => Some(ListPage(LoadPage(t, w)))
  }

  function Lookup(s: State, k: Key): Option<Entry> {
    if k in s.cache then Some(s.cache[k]) else None
  }

  predicate Ran(f: Fault) {
    f != NotRun
  }

  predicate Allowed(actor: Actor, author: int) {
    author == actor.id || actor.admin
  }

  predicate Fresh(r: Request) {
    match r
    case Reader(t, rpc, gen, genuine, got, won) =>
      rpc == Arrived && gen == 0 && !genuine && got.None? && !won
    case Writer(op, wpc, author, pending, ix, bumped, retried) =>
      && wpc == Begun && pending.None? && ix.None? && bumped == {} && !retried
      && author == op.actor.id
  }

  // --- steps of readers -----------------------------------------------------------------------

  predicate ReaderAt(s: State, p: Pid, pc: ReadPc) {
    p in s.reqs && s.reqs[p].Reader? && s.reqs[p].rpc == pc
  }

  predicate WriterAt(s: State, p: Pid, pc: WritePc) {
    p in s.reqs && s.reqs[p].Writer? && s.reqs[p].wpc == pc
  }

  /** The `finally` of the read path: only a winner has a lock to release. */
  function Finish(r: Request): Request
    requires r.Reader?
  {
    r.(rpc := if r.won then Releasing else Done)
  }

  function Serve(s: State, r: Request, miss: ReadPc, fault: Fault): Request
    requires r.Reader?
  {
    var hit := if fault == Answered then Lookup(s, KeyOf(r)) else None;
    if hit.Some? then r.(rpc := Done, got := hit) else r.(rpc := miss)
  }

  predicate CanRead(r: Request, a: Action) {
    r.Reader? &&
    match a
    case Generations(_, _) => r.rpc == Arrived && r.target.PageOf?
    case Get(_, _) => r.rpc == Keyed || (r.rpc == Arrived && r.target.BodyOf?)
    case Lock(_, _) => r.rpc == Locking
    case Peek(_, _) => r.rpc == Waiting
    case GiveUp(_) => r.rpc == Waiting
    case Load(_) => r.rpc == Loading
    case LoadFails(_) => r.rpc == Loading
    case Put(_, _) => r.rpc == Loaded && r.got.Some?
    case Release(_, _) => r.rpc == Releasing
    case _ => false
  }

  /** The reader after its step. */
  ghost function ReadStep(s: State, r: Request, a: Action): Request
    requires CanRead(r, a)
  {
    match a
    case Generations(_, f) =>
      if f == Answered then r.(rpc := Keyed, gen := |Bumps(s.db, ScopeOf(r.target.window))|, genuine := true)
      else r.(rpc := Keyed, gen := 0)
    case Get(_, f) => Serve(s, r, Locking, f)
    case Lock(_, f) =>
      var won := f != Answered || KeyOf(r) !in s.locks;
      r.(rpc := if won then Loading else Waiting, won := won)
    case Peek(_, f) => Serve(s, r, Waiting, f)
    case GiveUp(_) => r.(rpc := Loading)
    case Load(_) =>
      var v := LoadValue(Replay(s.db.log), r.target);
      if v.Some? then r.(rpc := Loaded, got := Some(Entry(v.value, |s.db.log|))) else Finish(r)
    case LoadFails(_) => Finish(r)
    case Put(_, f) => Finish(r)
    case Release(_, f) => r.(rpc := Done)
  }

  function LocksAfter(s: State, r: Request, a: Action): map<Key, Pid>
    requires CanRead(r, a)
  {
    match a
    case Lock(p, f) => if Ran(f) && KeyOf(r) !in s.locks then s.locks[KeyOf(r) := p] else s.locks
    case Release(_, f) => if Ran(f) then s.locks - {KeyOf(r)} else s.locks
    case _ => s.locks
  }

  function CacheAfter(s: State, r: Request, a: Action): map<Key, Entry>
    requires CanRead(r, a)
  {
    if a.Put? && Ran(a.fault) then s.cache[KeyOf(r) := r.got.value] else s.cache
  }

  // --- steps of writers -----------------------------------------------------------------------

  predicate Found?(t: Table, op: Op) {
    !op.Create? && op.id in t && Live(t[op.id]) && Allowed(op.actor, t[op.id].author)
  }

  /** MySQL's clock moves on whenever a statement changes a column of the row. */
  predicate Advances(t: Table, op: Op, stamp: int) {
    !op.Create? && op.id in t ==> stamp > t[op.id].updated
  }

  predicate CanWrite(db: Ledger, w: Request, a: Action) {
    w.Writer? &&
    match a
    case Find(_, n) => w.wpc == Begun && !w.op.Create? && n <= |db.log|
    case Insert(_, id, _) => w.wpc == Begun && w.op.Create? && id !in Replay(db.log) && id !in db.rows
    case Cas(_, _, stamp) =>
      w.wpc == Found && !w.op.Create? && w.op.id !in db.rows && Advances(Replay(db.log), w.op, stamp)
    case Reread(_, _) => w.wpc == Cased && w.pending.Some?
    case CommitTx(_, _) => w.wpc == Ready
    case Clear(_, _) => w.wpc == Clearing && !w.op.Create?
    case BumpGlobal(_, _) => w.wpc == BumpingGlobal
    case BumpAuthor(_, _) => w.wpc == BumpingAuthor
    case _ => false
  }

  /** The row the statement writes. */
  function NewRow(t: Table, op: Op, at: int, stamp: int): Article
    requires !op.Create? && op.id in t
  {
    if op.Update? then UpdatedRow(t[op.id], op.title, op.body, stamp) else DeletedRow(t[op.id], at, stamp)
  }

  /** The writer after its step. It is a function of the ledger: no step looks at the cache. */
  function WriteStep(db: Ledger, w: Request, a: Action): Request
    requires CanWrite(db, w, a)
  {
    match a
    case Find(_, n) =>
      var t := Replay(db.log[..n]);
      if Found?(t, w.op) then w.(wpc := Found, author := t[w.op.id].author) else w.(wpc := Aborted)
    case Insert(p, id, stamp) =>
      var row := Article(id, w.op.actor.id, w.op.title, w.op.body, stamp, stamp, None);
      w.(wpc := Ready, pending := Some(Commit(p, None, row)))
    case Cas(p, at, stamp) =>
      var t := Replay(db.log);
      if CasMatches(t, w.op.id, w.op.token) then
        w.(wpc := if w.op.Update? then Cased else Ready,
           pending := Some(Commit(p, Some(w.op.token), NewRow(t, w.op, at, stamp))))
      else w.(wpc := Aborted)
    case Reread(_, again) =>
      if again then w.(wpc := Ready, pending := None, retried := true) else w.(wpc := Ready)
    case CommitTx(_, answered) =>
      w.(wpc := if !answered then Aborted else if w.op.Create? then BumpingGlobal else Clearing,
         pending := None, ix := if w.pending.Some? then Some(|db.log|) else w.ix)
    case Clear(_, _) => w.(wpc := BumpingGlobal)
    case BumpGlobal(_, f) =>
      w.(wpc := if f == Answered then BumpingAuthor else Acknowledged,
         bumped := if Ran(f) then w.bumped + {Global} else w.bumped)
    case BumpAuthor(_, f) =>
      w.(wpc := Acknowledged, bumped := if Ran(f) then w.bumped + {OfAuthor(w.author)} else w.bumped)
  }

  function Unlock(db: Ledger, w: Request): Ledger
    requires w.Writer?
  {
    if w.pending.Some? then db.(rows := db.rows - {w.pending.value.row.id}) else db
  }

  function Incr(db: Ledger, c: Scope, w: Request): Ledger
    requires w.Writer?
  {
    db.(bumps := db.bumps[c := Bumps(db, c) + [w.ix]])
  }

  /** The ledger after a writer's step. */
  function LedgerAfter(db: Ledger, w: Request, a: Action): Ledger
    requires CanWrite(db, w, a)
  {
    match a
    case Insert(p, id, _) => db.(rows := db.rows[id := p])
    case Cas(p, _, _) =>
      if CasMatches(Replay(db.log), w.op.id, w.op.token) then db.(rows := db.rows[w.op.id := p]) else db
    case Reread(_, again) => if again then Unlock(db, w) else db
    case CommitTx(_, _) => if w.pending.Some? then Unlock(db, w).(log := db.log + [w.pending.value]) else db
    case Clear(_, f) => if Ran(f) && w.ix.Some? then db.(cleared := db.cleared + {w.ix.value}) else db
    case BumpGlobal(_, f) => if Ran(f) then Incr(db, Global, w) else db
    case BumpAuthor(_, f) => if Ran(f) then Incr(db, OfAuthor(w.author), w) else db
    case _ => db
  }

  // --- all steps --------------------------------------------------------------------------------

  /** A request that dies (an exception, a cancellation, a killed process) runs nothing more, and
      the database rolls its transaction back. */
  function Dead(r: Request): Request {
    if r.Reader? then r.(rpc := Done, got := None) else r.(wpc := Aborted, pending := None)
  }

  predicate ReadEnabled(s: State, a: Action) {
    !a.Expire? && !a.ExpireLock? && a.pid in s.reqs && CanRead(s.reqs[a.pid], a)
  }

  predicate WriteEnabled(s: State, a: Action) {
    !a.Expire? && !a.ExpireLock? && a.pid in s.reqs && CanWrite(s.db, s.reqs[a.pid], a)
  }

  predicate Enabled(s: State, a: Action) {
    match a
    case Arrive(p, r) => p !in s.reqs && Fresh(r)
    case Die(p) => p in s.reqs && !ReaderAt(s, p, Done) && !WriterAt(s, p, Acknowledged)
    case Expire(_) => true
    case ExpireLock(_) => true
    case _ => ReadEnabled(s, a) || WriteEnabled(s, a)
  }

  ghost function ReadTo(s: State, a: Action): State
    requires ReadEnabled(s, a)
  {
    var r := s.reqs[a.pid];
    State(s.db, CacheAfter(s, r, a), LocksAfter(s, r, a), s.reqs[a.pid := ReadStep(s, r, a)])
  }

  function WriteTo(s: State, a: Action): State
    requires WriteEnabled(s, a)
  {
    var w := s.reqs[a.pid];
    State(LedgerAfter(s.db, w, a),
          if a.Clear? && Ran(a.fault) then s.cache - {BodyKey(w.op.id)} else s.cache,
          s.locks, s.reqs[a.pid := WriteStep(s.db, w, a)])
  }

  ghost function Step(s: State, a: Action): State
    requires Enabled(s, a)
  {
    if ReadEnabled(s, a) then ReadTo(s, a)
    else if WriteEnabled(s, a) then WriteTo(s, a)
    else
      match a
      case Arrive(p, r) => s.(reqs := s.reqs[p := r])
      case Die(p) =>
        var r := s.reqs[p];
        s.(db := if r.Writer? then Unlock(s.db, r) else s.db, reqs := s.reqs[p := Dead(r)])
      case Expire(k) => s.(cache := s.cache - {k})
      case ExpireLock(k) => s.(locks := s.locks - {k})
      case _ => s
  }

  // --- runs -----------------------------------------------------------------------------------

  /** The state after the actions, or None when one of them was not enabled. */
  ghost function Run(acts: seq<Action>): Option<State> {
    if acts == [] then Some(INIT)
    else
      var before := Run(acts[..|acts| - 1]);
      var a := acts[|acts| - 1];
      if before.Some? && Enabled(before.value, a) then Some(Step(before.value, a)) else None
  }

  ghost predicate Reachable(s: State) {
    exists acts :: Run(acts) == Some(s)
  }
}
