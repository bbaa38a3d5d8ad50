/** The read path of ReadPath.dfy is the reader of Protocol.dfy: event by event, whatever other
    requests do in between, the program takes the step the machine's reader takes. So what is
    proved of the machine's readers holds of the program. */
module ReadRefinement {
  import opened Articles
  import opened Protocol
  import opened Cache
  import opened ReadPath

  /** The machine's fault for an event: an answer that cannot be parsed is as good as none, and of a
      command without an answer `reached` says whether the server ran it. */
  function FaultOf(e: Event, r: Reply, reached: bool): Fault {
    if e.Sent? && r.Answer? && (e.command.ReadKey? ==> !r.cached.Garbled?) then Answered
    else if e.Sent? && (r.Answer? || reached) then AnswerLost else NotRun
  }

  /** The machine's step for event i of a read that began at event `at`. */
  function ActionOf(redis: nat -> Reply, reached: nat -> bool, database: nat -> Row, log: seq<Event>, at: nat, p: Pid,
                    i: nat): Action
    requires at <= i < |log|
  {
    var f := FaultOf(log[i], redis(i), reached(i));
    match log[i]
    case Queried(_) => if database(i).Trouble? then LoadFails(p) else Load(p)
    case Sent(c) => CommandAction(c, p, i == at, f)
    case Held(c) => CommandAction(c, p, i == at, f)
  }

  function CommandAction(c: Command, p: Pid, first: bool, f: Fault): Action {
    match c
    case ReadGenerations(_) => Generations(p, f)
    case ReadKey(_) => if first then Get(p, f) else Peek(p, f)
    case ClaimLock(_) => Lock(p, f)
    case WriteKey(_, _) => Put(p, f)
    case FreeLock(_) => Release(p, f)
    case _ => Die(p)
  }

  /** Where the machine's reader stands before event i. */
  function PcOf(e: Event, first: bool): ReadPc {
    match e
    case Queried(_) => Loading
    case Sent(c) => CommandPc(c, first)
    case Held(c) => CommandPc(c, first)
  }

  function CommandPc(c: Command, first: bool): ReadPc {
    match c
    case ReadGenerations(_) => Arrived
    case ReadKey(_) => if first then Keyed else Waiting
    case ClaimLock(_) => Locking
    case WriteKey(_, _) => Loaded
    case FreeLock(_) => Releasing
    case _ => Done
  }

  /** What the world answers to event i is what the machine's state says. */
  ghost predicate Truthful(s: State, redis: nat -> Reply, database: nat -> Row, log: seq<Event>, i: nat)
    requires i < |log|
  {
    var r := redis(i);
    match log[i]
    case Queried(t) =>
      var v := LoadValue(Replay(s.db.log), t);
      database(i).Trouble? || database(i) == (if v.Some? then Row(v.value) else NoRow)
    case Held(_) => true
    case Sent(c) =>
      r.Answer? ==>
        && (c.ReadGenerations? ==> r.generations.0 == |Bumps(s.db, Global)|)
        && (c.ReadGenerations? && c.whose.Some? ==> r.generations.1 == |Bumps(s.db, OfAuthor(c.whose.value))|)
        && (c.ReadKey? ==> r.cached.Garbled? || r.cached == StoredAt(s, c.key))
        && (c.ClaimLock? ==> r.granted == (c.key !in s.locks))
  }

  function StoredAt(s: State, k: Key): Cached {
    if k in s.cache then Stored(s.cache[k].value) else Absent
  }

  predicate Answers(r: Request, out: Outcome)
    requires r.Reader?
  {
    out.Served? ==> r.got.Some? && r.got.value.value == out.value
  }

  /** The machine's reader stands where the program stands before event i. */
  predicate Abreast(redis: nat -> Reply, database: nat -> Row, log: seq<Event>, at: nat, target: Target, k: Key,
                    out: Outcome, r: Request, i: nat)
    requires at <= i < |log|
  {
    && r.Reader? && r.target == target && KeyOf(r) == k
    && r.rpc == (if i == at && target.BodyOf? then Arrived else PcOf(log[i], i == at))
    && (i > at + 1 ==> r.won == Wins(Heard(redis, log, at + 1)))
    && (r.rpc == Loaded ==> i > at && database(i - 1).Row? && r.got.Some? && r.got.value.value == database(i - 1).value)
    && (r.rpc == Releasing ==> Answers(r, out))
  }

  /** The reader is done, with the program's answer. */
  predicate Over(r: Request, out: Outcome) {
    r.Reader? && r.rpc == Done && Answers(r, out)
  }

  /** A loser that stops polling takes the machine's silent step. */
  function Settled(r: Request, e: Event): Request
    requires r.Reader?
  {
    if r.rpc == Waiting && e.Queried? then r.(rpc := Loading) else r
  }

  /** The machine's step for event i is enabled and leaves its reader where the program goes next; at
      the last event it leaves it done, with the same answer. A program that an exception cuts short
      still takes the step of its last event, a winner's release included; it is a reader that dies
      after it. */
  ghost predicate KeepsUp(s: State, redis: nat -> Reply, reached: nat -> bool, database: nat -> Row, log: seq<Event>,
                          at: nat, target: Target, k: Key, out: Outcome, p: Pid, r: Request, i: nat)
    requires at <= i < |log|
  {
    var a := ActionOf(redis, reached, database, log, at, p, i);
    && CanRead(r, a)
    && var r' := ReadStep(s, r, a);
    if i + 1 < |log| then Abreast(redis, database, log, at, target, k, out, Settled(r', log[i + 1]), i + 1)
    else (out.Killed? || Over(r', out)) && (Tries(log, i, FreeLock(k)) ==> r'.rpc == Done)
  }

  lemma LoadKeepsUp(s: State, redis: nat -> Reply, reached: nat -> bool, database: nat -> Row, log: seq<Event>,
                    at: nat, target: Target, k: Key, out: Outcome, p: Pid, r: Request, m: nat, won: bool, i: nat)
    requires at + 2 <= m <= i < |log| && Loads(redis, database, log, m, target, k, won, out)
    requires won == Wins(Heard(redis, log, at + 1))
    requires Abreast(redis, database, log, at, target, k, out, r, i) && Truthful(s, redis, database, log, i)
    ensures KeepsUp(s, redis, reached, database, log, at, target, k, out, p, r, i)
  {
    assert CanRead(r, ActionOf(redis, reached, database, log, at, p, i));
    var r' := ReadStep(s, r, ActionOf(redis, reached, database, log, at, p, i));
    if i == m {
      assert r' == if database(m).Row? then r.(rpc := Loaded, got := r'.got) else Finish(r);
    }
  }

  lemma PollKeepsUp(s: State, redis: nat -> Reply, reached: nat -> bool, database: nat -> Row, log: seq<Event>,
                    at: nat, target: Target, k: Key, polls: nat, out: Outcome, p: Pid, r: Request, i: nat)
    requires at + 1 < |log| && Waits(redis, database, log, at + 2, target, k, polls, out)
    requires at + 2 <= i < at + 2 + polls && i < |log|
    requires Abreast(redis, database, log, at, target, k, out, r, i) && Truthful(s, redis, database, log, i)
    ensures KeepsUp(s, redis, reached, database, log, at, target, k, out, p, r, i)
  {
    assert Tries(log, i, ReadKey(k));
    assert i + 1 < at + 2 + polls ==> Tries(log, i + 1, ReadKey(k));
    var a := ActionOf(redis, reached, database, log, at, p, i);
    assert a == Peek(p, FaultOf(log[i], redis(i), reached(i)));
    var r' := Serve(s, r, Waiting, a.fault);
    assert ReadStep(s, r, a) == r' && KeyOf(r') == k;
    if i + 1 < |log| {
      assert r' == r;
    }
  }

  lemma ClaimKeepsUp(s: State, redis: nat -> Reply, reached: nat -> bool, database: nat -> Row, log: seq<Event>,
                     at: nat, target: Target, k: Key, polls: nat, out: Outcome, p: Pid, r: Request)
    requires at + 1 < |log| && Claims(redis, database, log, at + 1, target, k, polls, out)
    requires Abreast(redis, database, log, at, target, k, out, r, at + 1) && Truthful(s, redis, database, log, at + 1)
    ensures KeepsUp(s, redis, reached, database, log, at, target, k, out, p, r, at + 1)
  {
    var r' := ReadStep(s, r, ActionOf(redis, reached, database, log, at, p, at + 1));
    var claim := Heard(redis, log, at + 1);
    assert KeyOf(r') == k && (!claim.Cut? ==> r'.won == Wins(claim));
    if !claim.Cut? && !r'.won && polls > 0 {
      assert Tries(log, at + 2, ReadKey(k));
    }
  }

  /** One event of the program, whatever state the machine is in when it happens: the machine keeps up. */
  lemma MachineKeepsUp(s: State, redis: nat -> Reply, reached: nat -> bool, database: nat -> Row, log: seq<Event>,
                       at: nat, target: Target, k: Key, polls: nat, out: Outcome, p: Pid, r: Request, i: nat)
    requires Reads(redis, database, log, at, target, k, polls, out)
    requires at <= i < |log| && Abreast(redis, database, log, at, target, k, out, r, i)
    requires Truthful(s, redis, database, log, i)
    ensures KeepsUp(s, redis, reached, database, log, at, target, k, out, p, r, i)
  {
    if i == at {
      assert KeyOf(ReadStep(s, r, ActionOf(redis, reached, database, log, at, p, i))) == k;
    } else if i == at + 1 {
      ClaimKeepsUp(s, redis, reached, database, log, at, target, k, polls, out, p, r);
    } else if Wins(Heard(redis, log, at + 1)) {
      LoadKeepsUp(s, redis, reached, database, log, at, target, k, out, p, r, at + 2, true, i);
    } else if i < at + 2 + polls {
      PollKeepsUp(s, redis, reached, database, log, at, target, k, polls, out, p, r, i);
    } else {
      LoadKeepsUp(s, redis, reached, database, log, at, target, k, out, p, r, at + 2 + polls, false, i);
    }
  }

  /** A list reader's first event: the machine's reader gets the generation the program puts in its key. */
  lemma GenerationKeepsUp(s: State, redis: nat -> Reply, reached: nat -> bool, database: nat -> Row, log: seq<Event>,
                          at: nat, w: Window, polls: nat, out: Outcome, p: Pid, r: Request)
    requires Tries(log, at, ReadGenerations(w.author)) && Truthful(s, redis, database, log, at)
    requires var h := Heard(redis, log, at);
      !h.Cut? ==> Reads(redis, database, log, at + 1, PageOf(w), PageKey(GenerationIn(h, w), w), polls, out)
    requires Fresh(r) && r.Reader? && r.target == PageOf(w)
    ensures var a, h := ActionOf(redis, reached, database, log, at, p, at), Heard(redis, log, at);
      && CanRead(r, a)
      && (!h.Cut? ==>
            && |log| > at + 1
            && var k := PageKey(GenerationIn(h, w), w);
               Abreast(redis, database, log, at + 1, PageOf(w), k, out, ReadStep(s, r, a), at + 1))
  {
    var a := ActionOf(redis, reached, database, log, at, p, at);
    assert ReadStep(s, r, a).gen == GenerationIn(Heard(redis, log, at), w);
  }

  /** The machine's reader just before event i, when `before(j)` is the state event j meets. Between
      two events only other requests move, and they leave this reader alone. */
  ghost function ReaderBefore(before: nat -> State, redis: nat -> Reply, reached: nat -> bool, database: nat -> Row,
                              log: seq<Event>, at: nat, p: Pid, r: Request, i: nat): Request
    requires at <= i < |log|
    decreases i
  {
    if i == at then r
    else
      var last := ReaderBefore(before, redis, reached, database, log, at, p, r, i - 1);
      var a := ActionOf(redis, reached, database, log, at, p, i - 1);
      if CanRead(last, a) then Settled(ReadStep(before(i - 1), last, a), log[i]) else last
  }

  lemma NextReader(before: nat -> State, redis: nat -> Reply, reached: nat -> bool, database: nat -> Row,
                   log: seq<Event>, at: nat, target: Target, k: Key, out: Outcome, p: Pid, r: Request, i: nat)
    requires at < i < |log|
    requires var last := ReaderBefore(before, redis, reached, database, log, at, p, r, i - 1);
      KeepsUp(before(i - 1), redis, reached, database, log, at, target, k, out, p, last, i - 1)
    ensures var reader := ReaderBefore(before, redis, reached, database, log, at, p, r, i);
      Abreast(redis, database, log, at, target, k, out, reader, i)
  {
  }

  /** Every finished read of the program, in any environment, is a run of the machine's reader from
      the cache lookup on, and one that is not cut short ends in `Done` with the same answer. */
  lemma {:induction false} ReadIsARun(before: nat -> State, redis: nat -> Reply, reached: nat -> bool,
                                      database: nat -> Row, log: seq<Event>, at: nat, target: Target, k: Key,
                                      polls: nat, out: Outcome, p: Pid, r: Request, i: nat)
    requires Reads(redis, database, log, at, target, k, polls, out)
    requires Abreast(redis, database, log, at, target, k, out, r, at)
    requires forall j :: at <= j < |log| ==> Truthful(before(j), redis, database, log, j)
    requires at <= i < |log|
    ensures var reader := ReaderBefore(before, redis, reached, database, log, at, p, r, i);
      && Abreast(redis, database, log, at, target, k, out, reader, i)
      && KeepsUp(before(i), redis, reached, database, log, at, target, k, out, p, reader, i)
    decreases i
  {
    if i > at {
      ReadIsARun(before, redis, reached, database, log, at, target, k, polls, out, p, r, i - 1);
      NextReader(before, redis, reached, database, log, at, target, k, out, p, r, i);
    }
    var reader := ReaderBefore(before, redis, reached, database, log, at, p, r, i);
    MachineKeepsUp(before(i), redis, reached, database, log, at, target, k, polls, out, p, reader, i);
  }
}
