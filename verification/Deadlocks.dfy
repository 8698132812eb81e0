/**
 Exactly which goroutines can deadlock, now with the cache's own statistics among the operations: the
 shape of every stuck state that can be reached, and for every such choice of operations a way to reach one.
 */
module Deadlocks {
  import opened Locks

  // ---------- where a goroutine is ----------

  /** The locks held for reading after n lock operations of the operation. */
  function Reading(o: Operation, n: nat): set<nat> {
    match o
    case ReadCache(l) => if 1 <= n <= 3 then {l} else {}
    case WriteCache(_) => {}
    case CleanupFresh => if n == 5 then {MESSAGES} else {}
    case CleanupStale => if n == 5 then {MESSAGES} else {}
    case ManagerEnterOrLeave => if n == 5 then {ONLINE} else if n == 7 then {CLIENTS} else {}
    case ManagerBroadcast => if n == 1 then {CLIENTS} else {}
    case ManagerOnline => if n == 1 || n == 5 then {ONLINE} else if n == 3 then {CLIENTS} else {}
    case ManagerStats => if n == 1 || n == 3 then {CLIENTS} else if n == 2 then {CLIENTS, ONLINE} else {}
    case CacheStats => if n == 1 || n == 3 then {STATS} else if n == 2 then {STATS, MESSAGES} else {}
  }

  /** And those held for writing. */
  function Writing(o: Operation, n: nat): set<nat> {
    match o
    case ReadCache(_) => if n == 2 then {STATS} else {}
    case WriteCache(l) => if n == 1 then {l} else {}
    case CleanupFresh => if n == 1 then {USERS} else if n == 3 then {SESSIONS} else {}
    case CleanupStale => if n == 1 then {USERS} else if n == 3 then {SESSIONS} else if n == 7 then {MESSAGES} else {}
    case ManagerEnterOrLeave => if n == 1 then {CLIENTS} else if n == 3 then {ONLINE} else {}
    case _ => {}
  }

  lemma HoldingStep(o: Operation, n: nat)
    requires WellFormed(o) && n < |Program(o)|
    ensures match Program(o)[n]
            case RLock(l) => Reading(o, n + 1) == Reading(o, n) + {l} && Writing(o, n + 1) == Writing(o, n)
            case RUnlock(l) => Reading(o, n + 1) == Reading(o, n) - {l} && Writing(o, n + 1) == Writing(o, n)
            case Lock(l) => Reading(o, n + 1) == Reading(o, n) && Writing(o, n + 1) == Writing(o, n) + {l}
            case Unlock(l) => Reading(o, n + 1) == Reading(o, n) && Writing(o, n + 1) == Writing(o, n) - {l}
  {
  }

  lemma HoldsNothing(o: Operation)
    ensures Reading(o, 0) == Reading(o, |Program(o)|) == {} == Writing(o, 0) == Writing(o, |Program(o)|)
  {
  }

  /** The goroutine has done n lock operations of its k-th operation. */
  predicate Inside(t: Thread, job: seq<Operation>, k: nat, n: nat) {
    && k < |job| && n < |Program(job[k])|
    && t.todo == Program(job[k])[n..] + ProgramOf(job[k + 1..])
    && t.reading == Reading(job[k], n) && t.writing == Writing(job[k], n)
    && (t.waiting ==> Program(job[k])[n].Lock?)
  }

  predicate Over(t: Thread) {
    t.todo == [] && t.reading == {} && t.writing == {} && !t.waiting
  }

  ghost predicate Placed(t: Thread, job: seq<Operation>) {
    Over(t) || exists k: nat, n: nat :: Inside(t, job, k, n)
  }

  ghost predicate AllPlaced(s: State, jobs: seq<seq<Operation>>) {
    |s| == |jobs| && forall i | 0 <= i < |s| :: Placed(s[i], jobs[i])
  }

  predicate AllWellFormed(jobs: seq<seq<Operation>>) {
    forall i, o | 0 <= i < |jobs| && o in jobs[i] :: WellFormed(o)
  }

  lemma NextOp(t: Thread, job: seq<Operation>, k: nat, n: nat)
    requires Inside(t, job, k, n)
    ensures t.todo != [] && t.todo[0] == Program(job[k])[n]
    ensures t.todo[1..] == Program(job[k])[n + 1..] + ProgramOf(job[k + 1..])
  {
  }

  lemma AtStart(job: seq<Operation>, k: nat)
    requires k < |job|
    ensures ProgramOf(job[k..]) == Program(job[k]) + ProgramOf(job[k + 1..])
    ensures Program(job[k])[0..] == Program(job[k]) && |Program(job[k])| > 0
  {
    assert job[k..][1..] == job[k + 1..];
  }

  /** Where one step takes it. */
  lemma AdvanceInside(t: Thread, job: seq<Operation>, k: nat, n: nat)
    requires Inside(t, job, k, n) && WellFormed(job[k])
    ensures t.todo != []
    ensures var announces := t.todo[0].Lock? && !t.waiting;
            && (announces ==> Inside(Advance(t), job, k, n) && Advance(t) == t.(waiting := true))
            && (!announces ==> !Advance(t).waiting)
            && (!announces && n + 1 < |Program(job[k])| ==> Inside(Advance(t), job, k, n + 1))
            && (!announces && n + 1 == |Program(job[k])| && k + 1 < |job| ==> Inside(Advance(t), job, k + 1, 0))
            && (!announces && n + 1 == |Program(job[k])| && k + 1 == |job| ==> Over(Advance(t)))
  {
    NextOp(t, job, k, n);
    HoldingStep(job[k], n);
    HoldsNothing(job[k]);
    if !(t.todo[0].Lock? && !t.waiting) && n + 1 == |Program(job[k])| {
      assert Program(job[k])[n + 1..] == [];
      if k + 1 < |job| {
        AtStart(job, k + 1);
        HoldsNothing(job[k + 1]);
      } else {
        assert job[k + 1..] == [];
      }
    }
  }

  lemma StepStaysPlaced(s: State, jobs: seq<seq<Operation>>, i: nat)
    requires AllPlaced(s, jobs) && AllWellFormed(jobs) && i < |s| && CanStep(s, i)
    ensures AllPlaced(Step(s, i), jobs)
  {
    var k: nat, n: nat :| Inside(s[i], jobs[i], k, n);
    assert jobs[i][k] in jobs[i];
    AdvanceInside(s[i], jobs[i], k, n);
    assert Placed(Advance(s[i]), jobs[i]);
  }

  lemma GoroutinesArePlaced(jobs: seq<seq<Operation>>)
    ensures AllPlaced(Goroutines(jobs), jobs)
    ensures forall i | 0 <= i < |jobs| && jobs[i] != [] :: Inside(Goroutines(jobs)[i], jobs[i], 0, 0)
  {
    forall i | 0 <= i < |jobs|
      ensures Placed(Goroutines(jobs)[i], jobs[i])
      ensures jobs[i] != [] ==> Inside(Goroutines(jobs)[i], jobs[i], 0, 0) {
      if jobs[i] != [] {
        AtStart(jobs[i], 0);
        assert jobs[i][0..] == jobs[i];
        assert Inside(Goroutines(jobs)[i], jobs[i], 0, 0);
      }
    }
  }

  // ---------- reachable states ----------

  ghost predicate Reaches(s: State, s': State) {
    exists states, moves :: IsRun(states, moves) && states[0] == s && states[|moves|] == s'
  }

  lemma ReachSelf(s: State)
    ensures Reaches(s, s)
  {
    assert IsRun([s], []);
  }

  lemma ReachMore(s: State, s': State, i: nat)
    requires Reaches(s, s') && i < |s'| && CanStep(s', i)
    ensures Reaches(s, Step(s', i))
  {
    var states, moves :| IsRun(states, moves) && states[0] == s && states[|moves|] == s';
    var states', moves' := states + [Step(s', i)], moves + [i];
    forall k | 0 <= k < |moves'|
      ensures moves'[k] < |states'[k]| && CanStep(states'[k], moves'[k]) && states'[k + 1] == Step(states'[k], moves'[k]) {
      if k < |moves| {
        assert moves'[k] == moves[k] && states'[k] == states[k] && states'[k + 1] == states[k + 1];
      }
    }
    assert IsRun(states', moves');
  }

  lemma {:induction false} RunStaysPlaced(states: seq<State>, moves: seq<nat>, k: nat, jobs: seq<seq<Operation>>)
    requires IsRun(states, moves) && k < |states| && AllWellFormed(jobs) && states[0] == Goroutines(jobs)
    ensures AllPlaced(states[k], jobs)
  {
    if k == 0 {
      GoroutinesArePlaced(jobs);
    } else {
      RunStaysPlaced(states, moves, k - 1, jobs);
      StepStaysPlaced(states[k - 1], jobs, moves[k - 1]);
    }
  }

  // ---------- the shape of a stuck state ----------

  ghost predicate Stuck(s: State) {
    !Finished(s) && forall i | 0 <= i < |s| :: !CanStep(s, i)
  }

  /** What an operation holds when it asks for a lock, and that it can always give back what it holds. */
  lemma OperationFacts(o: Operation, n: nat)
    requires WellFormed(o) && n < |Program(o)|
    ensures match Program(o)[n]
            case RUnlock(l) => l in Reading(o, n)
            case Unlock(l) => l in Writing(o, n)
            case RLock(l) =>
              && Writing(o, n) == {}
              && (Reading(o, n) == {} || (Reading(o, n) == {CLIENTS} && l == ONLINE)
                  || (Reading(o, n) == {STATS} && l == MESSAGES && o == CacheStats))
            case Lock(l) =>
              && Writing(o, n) == {}
              && (Reading(o, n) == {} || (o.ReadCache? && Reading(o, n) == {o.l} && l == STATS))
              && (l == MESSAGES ==> o == WriteCache(MESSAGES) || o == CleanupStale)
  {
  }

  /** What a blocked goroutine is at. */
  lemma Blocked(s: State, jobs: seq<seq<Operation>>, i: nat) returns (k: nat, n: nat)
    requires AllPlaced(s, jobs) && AllWellFormed(jobs) && Stuck(s) && i < |s| && s[i].todo != []
    ensures Inside(s[i], jobs[i], k, n) && jobs[i][k] in jobs[i] && WellFormed(jobs[i][k])
    ensures s[i].todo[0] == Program(jobs[i][k])[n] && (s[i].todo[0].RLock? || s[i].todo[0].Lock?)
    ensures s[i].writing == {}
  {
    k, n :| Inside(s[i], jobs[i], k, n);
    assert jobs[i][k] in jobs[i];
    NextOp(s[i], jobs[i], k, n);
    OperationFacts(jobs[i][k], n);
    assert !CanStep(s, i);
  }

  /** In a stuck state a lock that has a writer has a reader too: writers only wait. */
  lemma WriterMeansReader(s: State, jobs: seq<seq<Operation>>, l: nat) returns (w: nat, b: nat)
    requires AllPlaced(s, jobs) && AllWellFormed(jobs) && Stuck(s) && HasWriter(s, l)
    ensures w < |s| && s[w].todo != [] && s[w].waiting && s[w].todo[0] == Lock(l)
    ensures b < |s| && l in s[b].reading
  {
    w :| 0 <= w < |s| && WritesOrWaits(s[w], l);
    assert Placed(s[w], jobs[w]) && s[w].todo != [];
    var k, n := Blocked(s, jobs, w);
    assert !CanStep(s, w) && HasReader(s, l);
    b :| 0 <= b < |s| && l in s[b].reading;
  }

  /** Whoever holds a lock for reading in a stuck state asks for another, which is held too. */
  lemma ReaderAsks(s: State, jobs: seq<seq<Operation>>, b: nat, l: nat)
    requires AllPlaced(s, jobs) && AllWellFormed(jobs) && Stuck(s) && b < |s| && l in s[b].reading
    ensures s[b].todo != []
    ensures || (s[b].reading == {CLIENTS} && s[b].todo[0] == RLock(ONLINE) && HasWriter(s, ONLINE))
            || (s[b].reading == {STATS} && s[b].todo[0] == RLock(MESSAGES) && HasWriter(s, MESSAGES) && CacheStats in jobs[b])
            || (s[b].reading == {l} && l <= MESSAGES && s[b].todo[0] == Lock(STATS) && HasReader(s, STATS) && ReadCache(l) in jobs[b])
  {
    assert Placed(s[b], jobs[b]) && s[b].todo != [];
    var k, n := Blocked(s, jobs, b);
    OperationFacts(jobs[b][k], n);
    assert !CanStep(s, b);
    if s[b].todo[0].Lock? && !s[b].waiting {
      var w, r := WriterMeansReader(s, jobs, STATS);
    }
  }

  lemma NoOnlineReader(s: State, jobs: seq<seq<Operation>>, b: nat)
    requires AllPlaced(s, jobs) && AllWellFormed(jobs) && Stuck(s) && b < |s|
    ensures ONLINE !in s[b].reading
  {
    if ONLINE in s[b].reading {
      ReaderAsks(s, jobs, b, ONLINE);
    }
  }

  /** Every chain of waiting goroutines leads to one that reads the statistics. */
  lemma StatsAreRead(s: State, jobs: seq<seq<Operation>>) returns (a: nat)
    requires AllPlaced(s, jobs) && AllWellFormed(jobs) && Stuck(s)
    ensures a < |s| && STATS in s[a].reading
  {
    var i :| 0 <= i < |s| && s[i].todo != [];
    var k, n := Blocked(s, jobs, i);
    assert !CanStep(s, i);
    var l := s[i].todo[0].l;
    var b: nat;
    if HasReader(s, l) {
      b :| 0 <= b < |s| && l in s[b].reading;
    } else {
      var w;
      w, b := WriterMeansReader(s, jobs, l);
    }
    ReaderAsks(s, jobs, b, l);
    if s[b].todo[0] == RLock(ONLINE) {
      var w', b' := WriterMeansReader(s, jobs, ONLINE);
      NoOnlineReader(s, jobs, b');
      assert false;
    } else if s[b].todo[0] == RLock(MESSAGES) {
      a := b;
    } else {
      a :| 0 <= a < |s| && STATS in s[a].reading;
    }
  }

  /** One reads the statistics and asks for the messages, one the other way round, and a writer waits. */
  predicate Triangle(s: State, a: nat, b: nat, c: nat) {
    && a < |s| && b < |s| && c < |s|
    && s[a].todo != [] && STATS in s[a].reading && s[a].todo[0] == RLock(MESSAGES)
    && s[b].todo != [] && MESSAGES in s[b].reading && s[b].todo[0] == Lock(STATS)
    && s[c].todo != [] && s[c].waiting && s[c].todo[0] == Lock(MESSAGES)
  }

  predicate WritesMessages(job: seq<Operation>) {
    WriteCache(MESSAGES) in job || CleanupStale in job
  }

  /**
   Every stuck state that goroutines can reach has this shape: one is in GetStats, holds the statistics
   and asks to read the messages; one is reading the messages and asks to write the statistics; and a
   writer of the messages has announced itself.
   */
  lemma {:induction false} StuckShape(states: seq<State>, moves: seq<nat>, jobs: seq<seq<Operation>>) returns (a: nat, b: nat, c: nat)
    requires IsRun(states, moves) && AllWellFormed(jobs) && states[0] == Goroutines(jobs) && Stuck(states[|moves|])
    ensures Triangle(states[|moves|], a, b, c) && a != b && b != c && a != c && |states[|moves|]| == |jobs|
    ensures CacheStats in jobs[a] && ReadCache(MESSAGES) in jobs[b] && WritesMessages(jobs[c])
  {
    RunStaysPlaced(states, moves, |moves|, jobs);
    var s := states[|moves|];
    a := StatsAreRead(s, jobs);
    ReaderAsks(s, jobs, a, STATS);
    c, b := WriterMeansReader(s, jobs, MESSAGES);
    ReaderAsks(s, jobs, b, MESSAGES);
    var k, n := Blocked(s, jobs, c);
    OperationFacts(jobs[c][k], n);
  }

  // ---------- how to get there ----------

  /** Everybody else holds nothing and waits for nothing. */
  predicate QuietBut(s: State, i: nat) {
    forall j | 0 <= j < |s| && j != i :: s[j].reading == {} && s[j].writing == {} && !s[j].waiting
  }

  lemma AloneCanStep(s: State, job: seq<Operation>, i: nat, k: nat, n: nat)
    requires i < |s| && Inside(s[i], job, k, n) && WellFormed(job[k]) && QuietBut(s, i)
    ensures CanStep(s, i)
  {
    NextOp(s[i], job, k, n);
    OperationFacts(job[k], n);
  }

  /** Position (k, n) comes before (k', n'). */
  predicate Before(k: nat, n: nat, k': nat, n': nat) {
    k < k' || (k == k' && n < n')
  }

  lemma NextPosition(t: Thread, job: seq<Operation>, k: nat, n: nat, k': nat, n': nat) returns (k1: nat, n1: nat)
    requires Inside(t, job, k, n) && WellFormed(job[k])
    requires k' < |job| && n' < |Program(job[k'])| && Before(k, n, k', n')
    ensures t.todo != [] && Inside(Advance(t), job, k1, n1)
    ensures k1 == k && n1 == n ==> !t.waiting && Advance(t).waiting
    ensures !(k1 == k && n1 == n) ==> !Advance(t).waiting && Before(k, n, k1, n1)
    ensures (k1 == k' && n1 == n') || Before(k1, n1, k', n')
  {
    AdvanceInside(t, job, k, n);
    var size := |Program(job[k])|;
    k1, n1 := k, n;
    if !(t.todo[0].Lock? && !t.waiting) {
      if n + 1 < size {
        n1 := n + 1;
      } else {
        assert k < k';
        k1, n1 := k + 1, 0;
      }
    }
  }

  lemma StepAlone(s0: State, s: State, job: seq<Operation>, i: nat, k: nat, n: nat)
    requires Reaches(s0, s) && i < |s| && QuietBut(s, i) && Inside(s[i], job, k, n) && WellFormed(job[k])
    ensures s[i].todo != [] && Reaches(s0, Step(s, i)) && Step(s, i)[i] == Advance(s[i])
  {
    AloneCanStep(s, job, i, k, n);
    ReachMore(s0, s, i);
  }

  /** Alone, a goroutine gets as far in its job as it likes. */
  lemma GoesTo(s0: State, s: State, job: seq<Operation>, i: nat, k: nat, n: nat, k': nat, n': nat) returns (s': State)
    requires Reaches(s0, s) && i < |s| && QuietBut(s, i) && (forall o | o in job :: WellFormed(o))
    requires Inside(s[i], job, k, n) && k' < |job| && n' < |Program(job[k'])|
    requires Before(k, n, k', n') || (k == k' && n == n' && !s[i].waiting)
    ensures Reaches(s0, s') && |s'| == |s| && Inside(s'[i], job, k', n') && !s'[i].waiting
    ensures forall j | 0 <= j < |s| && j != i :: s'[j] == s[j]
    decreases k' - k, |Program(job[k])| - n, if s[i].waiting then 0 else 1
  {
    s' := s;
    if Before(k, n, k', n') {
      assert job[k] in job;
      StepAlone(s0, s, job, i, k, n);
      var k1, n1 := NextPosition(s[i], job, k, n, k', n');
      s' := GoesTo(s0, Step(s, i), job, i, k1, n1, k', n');
    }
  }

  /** The three of a triangle wait for each other, whatever the others do. */
  lemma TriangleIsBlocked(s: State, a: nat, b: nat, c: nat)
    requires Triangle(s, a, b, c) && s[b].waiting
    ensures !CanStep(s, a) && !CanStep(s, b) && !CanStep(s, c)
  {
    assert WritesOrWaits(s[c], MESSAGES);
  }

  /** Let the others go on until nobody can. */
  lemma {:induction false} OthersRunOut(s0: State, s: State, a: nat, b: nat, c: nat) returns (s': State)
    requires Reaches(s0, s) && Triangle(s, a, b, c) && s[b].waiting
    ensures Reaches(s0, s') && Stuck(s')
    decreases Work(s)
  {
    TriangleIsBlocked(s, a, b, c);
    if i :| 0 <= i < |s| && CanStep(s, i) {
      ReachMore(s0, s, i);
      StepShrinksWork(s, i);
      s' := OthersRunOut(s0, Step(s, i), a, b, c);
    } else {
      s' := s;
    }
  }

  /** The three goroutines, each right before the operation that matters, holding nothing. */
  ghost predicate AtTheBrink(s: State, jobs: seq<seq<Operation>>, a: nat, ka: nat, b: nat, kb: nat, c: nat, kc: nat, n: nat) {
    && |s| == |jobs| && a < |s| && b < |s| && c < |s| && a != b && b != c && a != c
    && Inside(s[a], jobs[a], ka, 0) && Inside(s[b], jobs[b], kb, 0) && Inside(s[c], jobs[c], kc, n)
    && jobs[a][ka] == CacheStats && jobs[b][kb] == ReadCache(MESSAGES)
    && Program(jobs[c][kc])[n] == Lock(MESSAGES) && Reading(jobs[c][kc], n) == {} == Writing(jobs[c][kc], n)
    && forall i | 0 <= i < |s| :: s[i].reading == {} && s[i].writing == {} && !s[i].waiting
  }

  /** What a goroutine holds and asks for next. */
  predicate Holds(t: Thread, reading: set<nat>, next: Op) {
    t.reading == reading && t.writing == {} && !t.waiting && t.todo != [] && t.todo[0] == next
  }

  /** The three goroutines, and nobody else holding or waiting for anything. */
  ghost predicate Three(s: State, a: nat, b: nat, c: nat) {
    && a < |s| && b < |s| && c < |s| && a != b && b != c && a != c
    && forall i | 0 <= i < |s| && i != a && i != b && i != c :: s[i].reading == {} && s[i].writing == {} && !s[i].waiting
  }

  lemma AfterFirst(t: Thread, job: seq<Operation>, k: nat)
    requires Inside(t, job, k, 0) && (job[k] == CacheStats || job[k] == ReadCache(MESSAGES))
    ensures t.todo != [] && t.todo[0] == Program(job[k])[0]
    ensures job[k] == CacheStats ==> Holds(Advance(t), {STATS}, RLock(MESSAGES))
    ensures job[k] == ReadCache(MESSAGES) ==> Holds(Advance(t), {MESSAGES}, Lock(STATS))
  {
    NextOp(t, job, k, 0);
    AdvanceInside(t, job, k, 0);
    NextOp(Advance(t), job, k, 1);
  }

  /** Two steps: the reader reads the messages, GetStats the statistics. */
  lemma FirstTwo(s0: State, s: State, jobs: seq<seq<Operation>>, a: nat, ka: nat, b: nat, kb: nat, c: nat, kc: nat, n: nat)
      returns (s': State)
    requires Reaches(s0, s) && AtTheBrink(s, jobs, a, ka, b, kb, c, kc, n)
    ensures Reaches(s0, s') && Three(s', a, b, c)
    ensures Holds(s'[a], {STATS}, RLock(MESSAGES)) && Holds(s'[b], {MESSAGES}, Lock(STATS)) && Holds(s'[c], {}, Lock(MESSAGES))
  {
    AfterFirst(s[a], jobs[a], ka);
    AfterFirst(s[b], jobs[b], kb);
    NextOp(s[c], jobs[c], kc, n);
    assert CanStep(s, b);
    ReachMore(s0, s, b);
    var s1 := Step(s, b);
    assert CanStep(s1, a);
    ReachMore(s0, s1, a);
    s' := Step(s1, a);
  }

  /** Two more close the triangle: the writer announces itself, and so does the reader. */
  lemma LastTwo(s0: State, s: State, a: nat, b: nat, c: nat) returns (s': State)
    requires Reaches(s0, s) && Three(s, a, b, c)
    requires Holds(s[a], {STATS}, RLock(MESSAGES)) && Holds(s[b], {MESSAGES}, Lock(STATS)) && Holds(s[c], {}, Lock(MESSAGES))
    ensures Reaches(s0, s') && Triangle(s', a, b, c) && s'[b].waiting
  {
    assert CanStep(s, c);
    ReachMore(s0, s, c);
    var s1 := Step(s, c);
    assert CanStep(s1, b);
    ReachMore(s0, s1, b);
    s' := Step(s1, b);
  }

  /** Three goroutines among the jobs: one in GetStats, one reader and one writer of the messages. */
  ghost predicate Dangerous(jobs: seq<seq<Operation>>, a: nat, b: nat, c: nat) {
    && a < |jobs| && b < |jobs| && c < |jobs| && a != b && b != c && a != c
    && CacheStats in jobs[a] && ReadCache(MESSAGES) in jobs[b] && WritesMessages(jobs[c])
  }

  lemma WriterPosition(job: seq<Operation>) returns (k: nat, n: nat)
    requires WritesMessages(job)
    ensures k < |job| && n < |Program(job[k])| && Program(job[k])[n] == Lock(MESSAGES)
    ensures Reading(job[k], n) == {} == Writing(job[k], n)
  {
    if i :| 0 <= i < |job| && job[i] == WriteCache(MESSAGES) {
      k, n := i, 0;
    } else {
      var i :| 0 <= i < |job| && job[i] == CleanupStale;
      k, n := i, 6;
    }
  }

  predicate AllQuiet(s: State) {
    forall i | 0 <= i < |s| :: s[i].reading == {} && s[i].writing == {} && !s[i].waiting
  }

  /** From the start of its job to a place where it holds nothing. */
  lemma GoesToRest(s0: State, s: State, job: seq<Operation>, i: nat, k: nat, n: nat) returns (s': State)
    requires Reaches(s0, s) && i < |s| && AllQuiet(s) && (forall o | o in job :: WellFormed(o))
    requires Inside(s[i], job, 0, 0) && k < |job| && n < |Program(job[k])|
    requires Reading(job[k], n) == {} == Writing(job[k], n)
    ensures Reaches(s0, s') && |s'| == |s| && AllQuiet(s') && Inside(s'[i], job, k, n)
    ensures forall j | 0 <= j < |s| && j != i :: s'[j] == s[j]
  {
    s' := GoesTo(s0, s, job, i, 0, 0, k, n);
  }

  lemma StartsInside(jobs: seq<seq<Operation>>, i: nat)
    requires i < |jobs| && jobs[i] != []
    ensures Inside(Goroutines(jobs)[i], jobs[i], 0, 0) && AllQuiet(Goroutines(jobs))
  {
    GoroutinesArePlaced(jobs);
  }

  lemma ThreeGoToRest(s0: State, ja: seq<Operation>, a: nat, ka: nat, jb: seq<Operation>, b: nat, kb: nat,
                      jc: seq<Operation>, c: nat, kc: nat, n: nat) returns (s: State)
    requires a < |s0| && b < |s0| && c < |s0| && a != b && b != c && a != c && AllQuiet(s0)
    requires Inside(s0[a], ja, 0, 0) && Inside(s0[b], jb, 0, 0) && Inside(s0[c], jc, 0, 0)
    requires forall o | o in ja || o in jb || o in jc :: WellFormed(o)
    requires ka < |ja| && ja[ka] == CacheStats && kb < |jb| && jb[kb] == ReadCache(MESSAGES)
    requires kc < |jc| && n < |Program(jc[kc])| && Reading(jc[kc], n) == {} == Writing(jc[kc], n)
    ensures Reaches(s0, s) && |s| == |s0| && AllQuiet(s)
    ensures Inside(s[a], ja, ka, 0) && Inside(s[b], jb, kb, 0) && Inside(s[c], jc, kc, n)
  {
    ReachSelf(s0);
    var s1 := GoesToRest(s0, s0, ja, a, ka, 0);
    var s2 := GoesToRest(s0, s1, jb, b, kb, 0);
    s := GoesToRest(s0, s2, jc, c, kc, n);
  }

  lemma ReachesTheBrink(jobs: seq<seq<Operation>>, a: nat, ka: nat, b: nat, kb: nat, c: nat, kc: nat, n: nat) returns (s: State)
    requires AllWellFormed(jobs) && a < |jobs| && b < |jobs| && c < |jobs| && a != b && b != c && a != c
    requires ka < |jobs[a]| && jobs[a][ka] == CacheStats && kb < |jobs[b]| && jobs[b][kb] == ReadCache(MESSAGES)
    requires kc < |jobs[c]| && n < |Program(jobs[c][kc])| && Program(jobs[c][kc])[n] == Lock(MESSAGES)
    requires Reading(jobs[c][kc], n) == {} == Writing(jobs[c][kc], n)
    ensures Reaches(Goroutines(jobs), s) && AtTheBrink(s, jobs, a, ka, b, kb, c, kc, n)
  {
    StartsInside(jobs, a);
    StartsInside(jobs, b);
    StartsInside(jobs, c);
    s := ThreeGoToRest(Goroutines(jobs), jobs[a], a, ka, jobs[b], b, kb, jobs[c], c, kc, n);
  }

  lemma {:induction false} DangerousCanStick(jobs: seq<seq<Operation>>, a: nat, b: nat, c: nat) returns (s: State)
    requires AllWellFormed(jobs) && Dangerous(jobs, a, b, c)
    ensures Reaches(Goroutines(jobs), s) && Stuck(s)
  {
    var ka: nat :| ka < |jobs[a]| && jobs[a][ka] == CacheStats;
    var kb: nat :| kb < |jobs[b]| && jobs[b][kb] == ReadCache(MESSAGES);
    var kc, n := WriterPosition(jobs[c]);
    var s1 := ReachesTheBrink(jobs, a, ka, b, kb, c, kc, n);
    var s2 := FirstTwo(Goroutines(jobs), s1, jobs, a, ka, b, kb, c, kc, n);
    var s3 := LastTwo(Goroutines(jobs), s2, a, b, c);
    s := OthersRunOut(Goroutines(jobs), s3, a, b, c);
  }

  /**
   Goroutines with these jobs can deadlock exactly when three different ones among them run GetStats, a
   read of the message cache, and a write to it. With any two of these, or all three in two goroutines,
   every schedule ends.
   */
  lemma {:induction false} DeadlockIff(jobs: seq<seq<Operation>>)
    requires AllWellFormed(jobs)
    ensures (exists s :: Reaches(Goroutines(jobs), s) && Stuck(s)) <==> exists a, b, c :: Dangerous(jobs, a, b, c)
  {
    if s :| Reaches(Goroutines(jobs), s) && Stuck(s) {
      var states, moves :| IsRun(states, moves) && states[0] == Goroutines(jobs) && states[|moves|] == s;
      var a, b, c := StuckShape(states, moves, jobs);
      assert Dangerous(jobs, a, b, c);
    }
    if a, b, c :| Dangerous(jobs, a, b, c) {
      var s := DangerousCanStick(jobs, a, b, c);
    }
  }
}
