/**
 The locks of the cache and of the manager: any number of goroutines, each running any sequence of
 operations, over read-write locks in which a waiting writer keeps new readers out.
 */
module Locks {

  datatype Op = RLock(l: nat) | RUnlock(l: nat) | Lock(l: nat) | Unlock(l: nat)

  /**
   What a goroutine still has to do, the locks it holds, and whether it has announced itself as the
   next writer of the lock it asks for.
   */
  datatype Thread = Thread(todo: seq<Op>, reading: set<nat>, writing: set<nat>, waiting: bool)

  type State = seq<Thread>

  predicate WritesOrWaits(t: Thread, l: nat) {
    l in t.writing || (t.waiting && t.todo != [] && t.todo[0] == Lock(l))
  }

  ghost predicate HasWriter(s: State, l: nat) {
    exists i | 0 <= i < |s| :: WritesOrWaits(s[i], l)
  }

  ghost predicate HasReader(s: State, l: nat) {
    exists i | 0 <= i < |s| :: l in s[i].reading
  }

  /**
   A reader needs that no writer holds the lock or waits for it. A writer first waits for other writers
   and announces itself, then waits for the readers.
   */
  ghost predicate CanStep(s: State, i: nat)
    requires i < |s|
  {
    var t := s[i];
    t.todo != [] &&
    match t.todo[0]
    case RLock(l) => !HasWriter(s, l)
    case Lock(l) => if t.waiting then !HasReader(s, l) else !HasWriter(s, l)
    case RUnlock(l) => l in t.reading
    case Unlock(l) => l in t.writing
  }

  function Advance(t: Thread): Thread
    requires t.todo != []
  {
    var rest := t.todo[1..];
    match t.todo[0]
    case RLock(l) => Thread(rest, t.reading + {l}, t.writing, false)
    case RUnlock(l) => Thread(rest, t.reading - {l}, t.writing, false)
    case Lock(l) => if t.waiting then Thread(rest, t.reading, t.writing + {l}, false) else t.(waiting := true)
    case Unlock(l) => Thread(rest, t.reading, t.writing - {l}, false)
  }

  function Step(s: State, i: nat): State
    requires i < |s| && s[i].todo != []
  {
    s[i := Advance(s[i])]
  }

  // ---------- the discipline ----------

  predicate AllBelow(ls: set<nat>, l: nat) {
    forall h | h in ls :: h < l
  }

  /** Locks are taken in increasing order, below the bound, and all of them are given back. */
  predicate Follows(todo: seq<Op>, reading: set<nat>, writing: set<nat>, bound: nat) {
    if todo == [] then reading == {} && writing == {}
    else
      match todo[0]
      case RLock(l) => l < bound && AllBelow(reading, l) && AllBelow(writing, l) && Follows(todo[1..], reading + {l}, writing, bound)
      case Lock(l) => l < bound && AllBelow(reading, l) && AllBelow(writing, l) && Follows(todo[1..], reading, writing + {l}, bound)
      case RUnlock(l) => l in reading && Follows(todo[1..], reading - {l}, writing, bound)
      case Unlock(l) => l in writing && Follows(todo[1..], reading, writing - {l}, bound)
  }

  predicate Disciplined(t: Thread, bound: nat) {
    && Follows(t.todo, t.reading, t.writing, bound)
    && (t.waiting ==> t.todo != [] && t.todo[0].Lock?)
    && AllBelow(t.reading, bound) && AllBelow(t.writing, bound)
  }

  /** Everybody is disciplined; a lock has one writer at most, and none beside readers. */
  ghost predicate Orderly(s: State, bound: nat) {
    && (forall i | 0 <= i < |s| :: Disciplined(s[i], bound))
    && (forall i, j, l | 0 <= i < |s| && 0 <= j < |s| && WritesOrWaits(s[i], l) && WritesOrWaits(s[j], l) :: i == j)
    && (forall i, j, l | 0 <= i < |s| && 0 <= j < |s| && l in s[i].writing :: l !in s[j].reading)
  }

  lemma AdvanceIsDisciplined(t: Thread, bound: nat)
    requires Disciplined(t, bound) && t.todo != []
    ensures Disciplined(Advance(t), bound)
  {
    match t.todo[0]
    case RLock(l) => assert Follows(t.todo[1..], t.reading + {l}, t.writing, bound);
    case RUnlock(l) => assert Follows(t.todo[1..], t.reading - {l}, t.writing, bound);
    case Lock(l) => assert Follows(t.todo[1..], t.reading, t.writing + {l}, bound);
    case Unlock(l) => assert Follows(t.todo[1..], t.reading, t.writing - {l}, bound);
  }

  lemma StepIsOrderly(s: State, i: nat, bound: nat)
    requires Orderly(s, bound) && i < |s| && CanStep(s, i)
    ensures Orderly(Step(s, i), bound)
  {
    assert Disciplined(s[i], bound);
    AdvanceIsDisciplined(s[i], bound);
  }

  // ---------- progress ----------

  /** The lock is held, or a writer waits for it. */
  ghost predicate Used(s: State, l: nat) {
    HasWriter(s, l) || HasReader(s, l)
  }

  /** Somebody who holds the highest lock in use, or waits for it, can go on. */
  lemma HolderOfTopCanStep(s: State, bound: nat, top: nat) returns (i: nat)
    requires Orderly(s, bound) && Used(s, top) && forall l | l > top :: !Used(s, l)
    ensures i < |s| && CanStep(s, i)
  {
    if j :| 0 <= j < |s| && (top in s[j].reading || top in s[j].writing) {
      i := j;
      var t := s[i];
      assert Disciplined(t, bound);
      match t.todo[0] {
        case RLock(l) => assert !Used(s, l);
        case Lock(l) =>
          assert l > top && !Used(s, l);
          assert t.waiting ==> WritesOrWaits(t, l);
        case _ =>
      }
    } else {
      i :| 0 <= i < |s| && WritesOrWaits(s[i], top);
      assert Disciplined(s[i], bound);
    }
  }

  lemma {:induction false} HighestUsed(s: State, bound: nat) returns (top: nat)
    requires (exists l: nat :: Used(s, l)) && forall l: nat | l >= bound :: !Used(s, l)
    ensures Used(s, top) && forall l | l > top :: !Used(s, l)
  {
    var l: nat :| Used(s, l);
    assert l < bound;
    if Used(s, bound - 1) {
      top := bound - 1;
    } else {
      top := HighestUsed(s, bound - 1);
    }
  }

  lemma NothingAboveBound(s: State, bound: nat, l: nat)
    requires Orderly(s, bound) && l >= bound
    ensures !Used(s, l)
  {
    forall i | 0 <= i < |s| ensures !WritesOrWaits(s[i], l) && l !in s[i].reading {
      assert Disciplined(s[i], bound);
      assert l !in s[i].reading && l !in s[i].writing;
    }
  }

  /** In an orderly state with unfinished work somebody can go on: there is no deadlock. */
  lemma NoDeadlock(s: State, bound: nat, unfinished: nat) returns (i: nat)
    requires Orderly(s, bound) && unfinished < |s| && s[unfinished].todo != []
    ensures i < |s| && CanStep(s, i)
  {
    forall l | l >= bound ensures !Used(s, l) {
      NothingAboveBound(s, bound, l);
    }
    if l: nat :| Used(s, l) {
      var top := HighestUsed(s, bound);
      i := HolderOfTopCanStep(s, bound, top);
    } else {
      i := unfinished;
      var t := s[i];
      assert Disciplined(t, bound);
      match t.todo[0] {
        case RLock(l) => assert !Used(s, l);
        case Lock(l) =>
          assert !Used(s, l);
          assert t.waiting ==> WritesOrWaits(t, l);
        case RUnlock(l) => assert HasReader(s, l);
        case Unlock(l) => assert WritesOrWaits(t, l) && HasWriter(s, l);
      }
    }
  }

  // ---------- whole runs ----------

  function Work(s: State): nat {
    if s == [] then 0 else 2 * |s[0].todo| + (if s[0].waiting then 0 else 1) + Work(s[1..])
  }

  lemma {:induction false} StepShrinksWork(s: State, i: nat)
    requires i < |s| && s[i].todo != []
    ensures Work(Step(s, i)) < Work(s)
  {
    if i == 0 {
      assert Step(s, 0)[1..] == s[1..];
    } else {
      StepShrinksWork(s[1..], i - 1);
      assert Step(s, i)[1..] == Step(s[1..], i - 1);
    }
  }

  ghost predicate IsRun(states: seq<State>, moves: seq<nat>) {
    && |states| == |moves| + 1
    && forall k | 0 <= k < |moves| ::
         moves[k] < |states[k]| && CanStep(states[k], moves[k]) && states[k + 1] == Step(states[k], moves[k])
  }

  ghost predicate Finished(s: State) {
    forall i | 0 <= i < |s| :: s[i].todo == []
  }

  lemma {:induction false} RunIsOrderly(states: seq<State>, moves: seq<nat>, k: nat, bound: nat)
    requires IsRun(states, moves) && k < |states| && Orderly(states[0], bound)
    ensures Orderly(states[k], bound) && Work(states[k]) + k <= Work(states[0])
  {
    if k > 0 {
      RunIsOrderly(states, moves, k - 1, bound);
      StepIsOrderly(states[k - 1], moves[k - 1], bound);
      StepShrinksWork(states[k - 1], moves[k - 1]);
    }
  }

  /**
   Every run of orderly goroutines is bounded in length, and as long as one of them is unfinished the
   run can go on: whatever the scheduler does, all of them finish.
   */
  lemma AllFinish(states: seq<State>, moves: seq<nat>, bound: nat)
    requires IsRun(states, moves) && Orderly(states[0], bound)
    ensures |moves| <= Work(states[0])
    ensures Finished(states[|moves|]) || exists i :: 0 <= i < |states[|moves|]| && CanStep(states[|moves|], i)
  {
    RunIsOrderly(states, moves, |moves|, bound);
    var last := states[|moves|];
    if i :| 0 <= i < |last| && last[i].todo != [] {
      var j := NoDeadlock(last, bound, i);
    }
  }

  // ---------- the operations ----------

  const USERS: nat := 0
  const SESSIONS: nat := 1
  const MESSAGES: nat := 2
  const STATS: nat := 3
  const CLIENTS: nat := 4
  const ONLINE: nat := 5
  const LOCK_COUNT: nat := 6

  datatype Operation =
    | ReadCache(l: nat)        // GetRecentMessages, GetUser, GetSession
    | WriteCache(l: nat)       // SetRecentMessages, AddMessage, InvalidateMessages, SetUser, ...
    | CleanupFresh             // cleanup that finds the messages fresh
    | CleanupStale             // cleanup that clears the messages
    | ManagerEnterOrLeave      // Register and Unregister, with the online broadcast
    | ManagerBroadcast         // broadcasts to the local clients
    | ManagerOnline            // the periodic online broadcast
    | ManagerStats             // Manager.GetStats
    | CacheStats               // MemoryCache.GetStats

  function Program(o: Operation): seq<Op> {
    match o
    case ReadCache(l) => [RLock(l), Lock(STATS), Unlock(STATS), RUnlock(l)]
    case WriteCache(l) => [Lock(l), Unlock(l)]
    case CleanupFresh => [Lock(USERS), Unlock(USERS), Lock(SESSIONS), Unlock(SESSIONS), RLock(MESSAGES), RUnlock(MESSAGES)]
    case CleanupStale =>
      [Lock(USERS), Unlock(USERS), Lock(SESSIONS), Unlock(SESSIONS), RLock(MESSAGES), RUnlock(MESSAGES),
       Lock(MESSAGES), Unlock(MESSAGES)]
    case ManagerEnterOrLeave =>
      [Lock(CLIENTS), Unlock(CLIENTS), Lock(ONLINE), Unlock(ONLINE),
       RLock(ONLINE), RUnlock(ONLINE), RLock(CLIENTS), RUnlock(CLIENTS)]
    case ManagerBroadcast => [RLock(CLIENTS), RUnlock(CLIENTS)]
    case ManagerOnline => [RLock(ONLINE), RUnlock(ONLINE), RLock(CLIENTS), RUnlock(CLIENTS), RLock(ONLINE), RUnlock(ONLINE)]
    case ManagerStats => [RLock(CLIENTS), RLock(ONLINE), RUnlock(ONLINE), RUnlock(CLIENTS)]
    case CacheStats => [RLock(STATS), RLock(MESSAGES), RUnlock(MESSAGES), RUnlock(STATS)]
  }

  /** Reads and writes name one of the three cache locks. */
  predicate WellFormed(o: Operation) {
    (o.ReadCache? || o.WriteCache?) ==> o.l <= MESSAGES
  }

  function ProgramOf(os: seq<Operation>): seq<Op> {
    if os == [] then [] else Program(os[0]) + ProgramOf(os[1..])
  }

  /** Prefixing a disciplined rest with two operations on one lock keeps it disciplined. */
  lemma PairThen(a: Op, b: Op, rest: seq<Op>, bound: nat)
    requires a.l == b.l < bound && ((a.RLock? && b.RUnlock?) || (a.Lock? && b.Unlock?))
    requires Follows(rest, {}, {}, bound)
    ensures Follows([a, b] + rest, {}, {}, bound)
  {
    assert ([a, b] + rest)[1..] == [b] + rest && ([b] + rest)[1..] == rest;
    assert {a.l} - {a.l} == {};
  }

  /** Likewise for a lock held inside another one of lower rank. */
  lemma NestedThen(a: nat, inner: Op, release: Op, rest: seq<Op>, bound: nat)
    requires a < inner.l == release.l < bound && ((inner.RLock? && release.RUnlock?) || (inner.Lock? && release.Unlock?))
    requires Follows(rest, {}, {}, bound)
    ensures Follows([RLock(a), inner, release, RUnlock(a)] + rest, {}, {}, bound)
  {
    var all := [RLock(a), inner, release, RUnlock(a)] + rest;
    assert all[1..] == [inner, release, RUnlock(a)] + rest;
    assert all[1..][1..] == [release, RUnlock(a)] + rest;
    assert all[1..][1..][1..] == [RUnlock(a)] + rest;
    assert all[1..][1..][1..][1..] == rest;
    assert {} + {a} == {a} && {} + {inner.l} == {inner.l};
    assert {a} + {inner.l} - {inner.l} == {a} && {inner.l} - {inner.l} == {} && {a} - {a} == {};
    assert Follows([RUnlock(a)] + rest, {a}, {}, bound);
    if inner.RLock? {
      assert Follows([release, RUnlock(a)] + rest, {a} + {inner.l}, {}, bound);
    } else {
      assert Follows([release, RUnlock(a)] + rest, {a}, {inner.l}, bound);
    }
    assert Follows([inner, release, RUnlock(a)] + rest, {a}, {}, bound);
  }

  lemma CacheProgramThen(o: Operation, rest: seq<Op>)
    requires WellFormed(o) && (o.ReadCache? || o.WriteCache? || o.CleanupFresh? || o.CleanupStale?)
    requires Follows(rest, {}, {}, LOCK_COUNT)
    ensures Follows(Program(o) + rest, {}, {}, LOCK_COUNT)
  {
    match o
    case ReadCache(l) => NestedThen(l, Lock(STATS), Unlock(STATS), rest, LOCK_COUNT);
    case WriteCache(l) => PairThen(Lock(l), Unlock(l), rest, LOCK_COUNT);
    case CleanupFresh => CleanupThen(rest);
    case CleanupStale =>
      PairThen(Lock(MESSAGES), Unlock(MESSAGES), rest, LOCK_COUNT);
      CleanupThen([Lock(MESSAGES), Unlock(MESSAGES)] + rest);
      assert Program(CleanupStale) + rest == Program(CleanupFresh) + ([Lock(MESSAGES), Unlock(MESSAGES)] + rest);
  }

  lemma ManagerProgramThen(o: Operation, rest: seq<Op>)
    requires o.ManagerEnterOrLeave? || o.ManagerBroadcast? || o.ManagerOnline? || o.ManagerStats?
    requires Follows(rest, {}, {}, LOCK_COUNT)
    ensures Follows(Program(o) + rest, {}, {}, LOCK_COUNT)
  {
    match o
    case ManagerEnterOrLeave =>
      OnlineThen(rest);
      var tail := [RLock(ONLINE), RUnlock(ONLINE), RLock(CLIENTS), RUnlock(CLIENTS)] + rest;
      PairThen(Lock(ONLINE), Unlock(ONLINE), tail, LOCK_COUNT);
      PairThen(Lock(CLIENTS), Unlock(CLIENTS), [Lock(ONLINE), Unlock(ONLINE)] + tail, LOCK_COUNT);
      assert Program(o) + rest == [Lock(CLIENTS), Unlock(CLIENTS)] + ([Lock(ONLINE), Unlock(ONLINE)] + tail);
    case ManagerBroadcast => PairThen(RLock(CLIENTS), RUnlock(CLIENTS), rest, LOCK_COUNT);
    case ManagerOnline =>
      PairThen(RLock(ONLINE), RUnlock(ONLINE), rest, LOCK_COUNT);
      OnlineThen([RLock(ONLINE), RUnlock(ONLINE)] + rest);
      assert Program(o) + rest
          == [RLock(ONLINE), RUnlock(ONLINE), RLock(CLIENTS), RUnlock(CLIENTS)] + ([RLock(ONLINE), RUnlock(ONLINE)] + rest);
    case ManagerStats => NestedThen(CLIENTS, RLock(ONLINE), RUnlock(ONLINE), rest, LOCK_COUNT);
  }

  lemma ProgramThen(o: Operation, rest: seq<Op>)
    requires WellFormed(o) && !o.CacheStats? && Follows(rest, {}, {}, LOCK_COUNT)
    ensures Follows(Program(o) + rest, {}, {}, LOCK_COUNT)
  {
    if o.ReadCache? || o.WriteCache? || o.CleanupFresh? || o.CleanupStale? {
      CacheProgramThen(o, rest);
    } else {
      ManagerProgramThen(o, rest);
    }
  }

  lemma OnlineThen(rest: seq<Op>)
    requires Follows(rest, {}, {}, LOCK_COUNT)
    ensures Follows([RLock(ONLINE), RUnlock(ONLINE), RLock(CLIENTS), RUnlock(CLIENTS)] + rest, {}, {}, LOCK_COUNT)
  {
    PairThen(RLock(CLIENTS), RUnlock(CLIENTS), rest, LOCK_COUNT);
    PairThen(RLock(ONLINE), RUnlock(ONLINE), [RLock(CLIENTS), RUnlock(CLIENTS)] + rest, LOCK_COUNT);
    assert [RLock(ONLINE), RUnlock(ONLINE), RLock(CLIENTS), RUnlock(CLIENTS)] + rest
        == [RLock(ONLINE), RUnlock(ONLINE)] + ([RLock(CLIENTS), RUnlock(CLIENTS)] + rest);
  }

  lemma CleanupThen(rest: seq<Op>)
    requires Follows(rest, {}, {}, LOCK_COUNT)
    ensures Follows(Program(CleanupFresh) + rest, {}, {}, LOCK_COUNT)
  {
    var third := [RLock(MESSAGES), RUnlock(MESSAGES)] + rest;
    var second := [Lock(SESSIONS), Unlock(SESSIONS)] + third;
    PairThen(RLock(MESSAGES), RUnlock(MESSAGES), rest, LOCK_COUNT);
    PairThen(Lock(SESSIONS), Unlock(SESSIONS), third, LOCK_COUNT);
    PairThen(Lock(USERS), Unlock(USERS), second, LOCK_COUNT);
    assert Program(CleanupFresh) + rest == [Lock(USERS), Unlock(USERS)] + second;
  }

  lemma {:induction false} OperationsFollow(os: seq<Operation>)
    requires forall o | o in os :: WellFormed(o) && !o.CacheStats?
    ensures Follows(ProgramOf(os), {}, {}, LOCK_COUNT)
  {
    if os != [] {
      assert os[0] in os;
      forall o | o in os[1..] ensures o in os {
      }
      OperationsFollow(os[1..]);
      ProgramThen(os[0], ProgramOf(os[1..]));
    }
  }

  /** Of all the operations exactly the cache's own statistics break the discipline. */
  lemma DisciplineIff(o: Operation)
    requires WellFormed(o)
    ensures Follows(Program(o), {}, {}, LOCK_COUNT) <==> !o.CacheStats?
  {
    if !o.CacheStats? {
      ProgramThen(o, []);
      assert Program(o) + [] == Program(o);
    }
  }

  function Goroutines(jobs: seq<seq<Operation>>): State {
    seq(|jobs|, i requires 0 <= i < |jobs| => Thread(ProgramOf(jobs[i]), {}, {}, false))
  }

  /**
   Any number of goroutines, each running any sequence of cache and manager operations except the
   cache's own statistics: no schedule deadlocks, and every schedule ends.
   */
  lemma CacheAndManagerNeverDeadlock(jobs: seq<seq<Operation>>, states: seq<State>, moves: seq<nat>)
    requires forall i, o | 0 <= i < |jobs| && o in jobs[i] :: WellFormed(o) && !o.CacheStats?
    requires IsRun(states, moves) && states[0] == Goroutines(jobs)
    ensures |moves| <= Work(states[0])
    ensures Finished(states[|moves|]) || exists i :: 0 <= i < |states[|moves|]| && CanStep(states[|moves|], i)
  {
    forall i | 0 <= i < |jobs| ensures Disciplined(states[0][i], LOCK_COUNT) {
      OperationsFollow(jobs[i]);
    }
    AllFinish(states, moves, LOCK_COUNT);
  }

  /**
   The cache's statistics take the locks in the other order. With them, one reader and one writer of
   the messages, a reachable state is stuck: each of the three waits for another.
   */
  lemma StatisticsCanDeadlock()
    ensures var s0 := Goroutines([[CacheStats], [ReadCache(MESSAGES)], [WriteCache(MESSAGES)]]);
            var s1 := Step(s0, 0);
            var s2 := Step(s1, 1);
            var s3 := Step(s2, 2);
            var s4 := Step(s3, 1);
            && CanStep(s0, 0) && CanStep(s1, 1) && CanStep(s2, 2) && CanStep(s3, 1)
            && s4[0].todo != [] && s4[1].todo != [] && s4[2].todo != []
            && !CanStep(s4, 0) && !CanStep(s4, 1) && !CanStep(s4, 2)
  {
    var s0 := Goroutines([[CacheStats], [ReadCache(MESSAGES)], [WriteCache(MESSAGES)]]);
    assert ProgramOf([CacheStats]) == Program(CacheStats);
    assert ProgramOf([ReadCache(MESSAGES)]) == Program(ReadCache(MESSAGES));
    assert ProgramOf([WriteCache(MESSAGES)]) == Program(WriteCache(MESSAGES));
    var s1 := Step(s0, 0);
    var s2 := Step(s1, 1);
    var s3 := Step(s2, 2);
    var s4 := Step(s3, 1);
    assert s4[0] == Thread([RLock(MESSAGES), RUnlock(MESSAGES), RUnlock(STATS)], {STATS}, {}, false);
    assert s4[1] == Thread([Lock(STATS), Unlock(STATS), RUnlock(MESSAGES)], {MESSAGES}, {}, true);
    assert s4[2] == Thread([Lock(MESSAGES), Unlock(MESSAGES)], {}, {}, true);
  }
}
