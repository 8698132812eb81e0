/**
 Whole broadcasts and replays: what the event loop's visits to single clients add up to, in whichever
 order it makes them.
 */
module Broadcasts {
  import opened Types
  import opened Clients
  import Spec = ManagerSpec

  // ---------- a whole broadcast ----------

  ghost predicate Open(s: Spec.Core, cs: set<Client>) {
    cs <= s.queues.Keys && forall c | c in cs :: !Spec.AnyClosed(s.queues[c])
  }

  /** Those of the clients whose queue is full. */
  function FullSends(queues: map<Client, Queues>, cs: set<Client>): set<Client> {
    set c | c in cs && c in queues && Full(queues[c].send, SEND_CAPACITY)
  }

  function FullFiles(queues: map<Client, Queues>, cs: set<Client>): set<Client> {
    set c | c in cs && c in queues && Full(queues[c].files, FILE_CAPACITY)
  }

  /** Every one of the clients is offered the message; the full queues drop it and are counted. */
  ghost function SendAll(s: Spec.Core, cs: set<Client>, m: Message): Spec.Core
    requires Open(s, cs)
  {
    s.(queues := map c | c in s.queues ::
                   if c in cs then s.queues[c].(send := Offer(s.queues[c].send, SEND_CAPACITY, m)) else s.queues[c],
       sendDrops := s.sendDrops + |FullSends(s.queues, cs)|)
  }

  ghost function FileAll(s: Spec.Core, cs: set<Client>, e: FileEvent): Spec.Core
    requires Open(s, cs)
  {
    s.(queues := map c | c in s.queues ::
                   if c in cs then s.queues[c].(files := Offer(s.queues[c].files, FILE_CAPACITY, e)) else s.queues[c],
       fileDrops := s.fileDrops + |FullFiles(s.queues, cs)|)
  }

  ghost function OnlineAll(s: Spec.Core, cs: set<Client>, d: OnlineData): Spec.Core
    requires Open(s, cs)
  {
    s.(queues := map c | c in s.queues ::
                   if c in cs then s.queues[c].(online := Offer(s.queues[c].online, ONLINE_CAPACITY, d)) else s.queues[c])
  }

  lemma CountOne<T>(all: set<T>, rest: set<T>, x: T)
    requires rest == all - {x}
    ensures |all| == |rest| + if x in all then 1 else 0
  {
  }

  /** Visiting a client changes neither whether the others are full nor who they are. */
  lemma FullAfterOne(s: Spec.Core, cs: set<Client>, c: Client, m: Message, e: FileEvent)
    requires Open(s, cs) && c in cs
    ensures FullSends(Spec.SendTo(s, c, m, true).queues, cs - {c}) == FullSends(s.queues, cs) - {c}
    ensures FullFiles(Spec.FileTo(s, c, e).queues, cs - {c}) == FullFiles(s.queues, cs) - {c}
  {
  }

  lemma SentQueues(s: Spec.Core, cs: set<Client>, c: Client, m: Message)
    requires Open(s, cs) && c in cs
    ensures Open(Spec.SendTo(s, c, m, true), cs - {c})
    ensures SendAll(s, cs, m).queues == SendAll(Spec.SendTo(s, c, m, true), cs - {c}, m).queues
  {
  }

  lemma FiledQueues(s: Spec.Core, cs: set<Client>, c: Client, e: FileEvent)
    requires Open(s, cs) && c in cs
    ensures Open(Spec.FileTo(s, c, e), cs - {c})
    ensures FileAll(s, cs, e).queues == FileAll(Spec.FileTo(s, c, e), cs - {c}, e).queues
  {
  }

  /**
   A broadcast may visit the clients in any order: visiting one of them and then all the others is the
   same as visiting all.
   */
  lemma SendOneThenRest(s: Spec.Core, cs: set<Client>, c: Client, m: Message)
    requires Open(s, cs) && c in cs
    ensures Open(Spec.SendTo(s, c, m, true), cs - {c})
    ensures SendAll(s, cs, m) == SendAll(Spec.SendTo(s, c, m, true), cs - {c}, m)
  {
    var s' := Spec.SendTo(s, c, m, true);
    FullAfterOne(s, cs, c, m, FileEvent("", "", "", "", "", 0));
    CountOne(FullSends(s.queues, cs), FullSends(s'.queues, cs - {c}), c);
    SentQueues(s, cs, c, m);
  }

  lemma FileOneThenRest(s: Spec.Core, cs: set<Client>, c: Client, e: FileEvent)
    requires Open(s, cs) && c in cs
    ensures Open(Spec.FileTo(s, c, e), cs - {c})
    ensures FileAll(s, cs, e) == FileAll(Spec.FileTo(s, c, e), cs - {c}, e)
  {
    var s' := Spec.FileTo(s, c, e);
    FullAfterOne(s, cs, c, Message(0, "", "", 0, false), e);
    CountOne(FullFiles(s.queues, cs), FullFiles(s'.queues, cs - {c}), c);
    FiledQueues(s, cs, c, e);
  }

  lemma OnlineOneThenRest(s: Spec.Core, cs: set<Client>, c: Client, d: OnlineData)
    requires Open(s, cs) && c in cs
    ensures Open(Spec.OnlineTo(s, c, d), cs - {c})
    ensures OnlineAll(s, cs, d) == OnlineAll(Spec.OnlineTo(s, c, d), cs - {c}, d)
  {
    assert OnlineAll(s, cs, d).queues == OnlineAll(Spec.OnlineTo(s, c, d), cs - {c}, d).queues;
  }

  lemma NobodyLeft(s: Spec.Core, m: Message, e: FileEvent, d: OnlineData)
    ensures SendAll(s, {}, m) == s && FileAll(s, {}, e) == s && OnlineAll(s, {}, d) == s
  {
    assert (map c | c in s.queues :: s.queues[c]) == s.queues;
    assert FullSends(s.queues, {}) == {} == FullFiles(s.queues, {});
  }

  // ---------- step by step or at once ----------

  /** What is left of the loop's task, done at once. */
  ghost function WholeTask(s: Spec.Core, task: Spec.Task): Spec.Core
    requires Open(s, task.todo)
  {
    match task
    case Messages(m, todo) => SendAll(s, todo, m)
    case Files(e, todo) => FileAll(s, todo, e)
    case Online(d, todo) => OnlineAll(s, todo, d)
  }

  /** These clients served one after the other, with nothing in between. */
  function Served(s: Spec.Core, task: Spec.Task, order: seq<Client>): Spec.Core
    requires forall c | c in order :: c in s.queues
    decreases |order|
  {
    if order == [] then s else Served(Spec.Serve(s, task, order[0]), Spec.Without(task, order[0]), order[1..])
  }

  /** The first client served is part of the whole task. */
  lemma ServeThenRest(s: Spec.Core, task: Spec.Task, c: Client)
    requires Open(s, task.todo) && c in task.todo
    ensures var s', task' := Spec.Serve(s, task, c), Spec.Without(task, c);
            Open(s', task'.todo) && WholeTask(s, task) == WholeTask(s', task')
  {
    match task
    case Messages(m, todo) => SendOneThenRest(s, todo, c, m);
    case Files(e, todo) => FileOneThenRest(s, todo, c, e);
    case Online(d, todo) => OnlineOneThenRest(s, todo, c, d);
  }

  /** Each of the clients of the task once, in some order. */
  ghost predicate IsOrder(order: seq<Client>, todo: set<Client>) {
    (forall c | c in order :: c in todo) && (forall c | c in todo :: c in order)
    && forall i, j | 0 <= i < j < |order| :: order[i] != order[j]
  }

  /**
   The order in which a broadcast ranges over the clients does not matter: serving each of them once, in
   any order, ends where the whole broadcast done at once ends.
   */
  lemma {:induction false} AnyOrderIsTheWholeTask(s: Spec.Core, task: Spec.Task, order: seq<Client>)
    requires Open(s, task.todo) && IsOrder(order, task.todo)
    ensures Served(s, task, order) == WholeTask(s, task)
    decreases |order|
  {
    if order == [] {
      assert task.todo == {};
      match task
      case Messages(m, _) => NobodyLeft(s, m, FileEvent("", "", "", "", "", 0), OnlineData(0, {}));
      case Files(e, _) => NobodyLeft(s, Message(0, "", "", 0, false), e, OnlineData(0, {}));
      case Online(d, _) => NobodyLeft(s, Message(0, "", "", 0, false), FileEvent("", "", "", "", "", 0), d);
    } else {
      ServeThenRest(s, task, order[0]);
      AnyOrderIsTheWholeTask(Spec.Serve(s, task, order[0]), Spec.Without(task, order[0]), order[1..]);
    }
  }

  predicate TakenByLoop(s: Spec.Core, e: Spec.Event) {
    match e
    case Register(c) => c !in s.queues
    case Unregister(c) => c in s.queues
    case Process(_) => true
    case ProcessFile(_) => true
    case _ => false
  }

  /** What handling one event of the loop from beginning to end does. */
  ghost function Handled(s: Spec.Core, e: Spec.Event): Spec.Core
    requires Spec.Connected(s) && TakenByLoop(s, e)
  {
    match e
    case Register(c) =>
      Spec.AddConnected(s, c);
      var added := Spec.AddClient(s, c);
      OnlineAll(added, added.clients, Spec.OnlineNow(added))
    case Unregister(c) =>
      Spec.RemoveConnected(s, c);
      var removed := Spec.RemoveClient(s, c);
      OnlineAll(removed, removed.clients, Spec.OnlineNow(removed))
    case Process(m) => SendAll(s, s.clients, m)
    case ProcessFile(f) => FileAll(s, s.clients, f)
    case _ => s
  }

  /** Taking the event leaves the loop with a task that amounts to handling it. */
  lemma EventThenTask(s: Spec.System, e: Spec.Event)
    requires Spec.Lifecycle(s) && Spec.Enabled(s, e) && TakenByLoop(s.core, e)
    ensures var s' := Spec.Next(s, e);
            Open(s'.core, s'.task.todo) && WholeTask(s'.core, s'.task) == Handled(s.core, e)
  {
    match e
    case Register(c) => Spec.AddConnected(s.core, c);
    case Unregister(c) => Spec.RemoveConnected(s.core, c);
    case _ =>
  }

  function VisitsOf(order: seq<Client>): seq<Spec.Event> {
    if order == [] then [] else [Spec.Visit(order[0])] + VisitsOf(order[1..])
  }

  function RangesOf(r: nat, order: seq<Client>): seq<Spec.Event> {
    if order == [] then [] else [Spec.Range(r, order[0])] + RangesOf(r, order[1..])
  }

  lemma OpenForLoop(s: Spec.System)
    requires Spec.Lifecycle(s)
    ensures Open(s.core, s.task.todo) && forall r | r in s.readers :: Open(s.core, s.readers[r].todo)
  {
  }

  /** The loop can visit the clients of its task in any order, and is done then. */
  lemma {:induction false} VisitAll(s: Spec.System, order: seq<Client>) returns (s': Spec.System)
    requires Spec.Lifecycle(s) && IsOrder(order, s.task.todo)
    ensures Spec.Goes(s, VisitsOf(order), s') && s'.task.todo == {}
    ensures (forall c | c in order :: c in s.core.queues) && s'.core == Served(s.core, s.task, order)
    decreases |order|
  {
    s' := s;
    if order != [] {
      var c := order[0];
      var next := Spec.Next(s, Spec.Visit(c));
      Spec.LifecycleStep(s, Spec.Visit(c));
      OneVisit(s, c);
      RestOfOrder(order, s.task.todo);
      s' := VisitAll(next, order[1..]);
      assert VisitsOf(order)[1..] == VisitsOf(order[1..]);
    }
  }

  lemma RestOfOrder(order: seq<Client>, todo: set<Client>)
    requires order != [] && IsOrder(order, todo)
    ensures IsOrder(order[1..], todo - {order[0]})
  {
  }

  lemma OneVisit(s: Spec.System, c: Client)
    requires Spec.Lifecycle(s) && c in s.task.todo
    ensures Spec.Enabled(s, Spec.Visit(c))
    ensures Spec.Next(s, Spec.Visit(c)).core == Spec.Serve(s.core, s.task, c)
    ensures Spec.Next(s, Spec.Visit(c)).task == Spec.Without(s.task, c)
  {
  }

  lemma OneRange(s: Spec.System, r: nat, c: Client)
    requires Spec.Lifecycle(s) && r in s.readers && c in s.readers[r].todo
    ensures Spec.Enabled(s, Spec.Range(r, c))
    ensures Spec.Next(s, Spec.Range(r, c)).core == Spec.Serve(s.core, s.readers[r], c)
    ensures Spec.Next(s, Spec.Range(r, c)).readers == s.readers[r := Spec.Without(s.readers[r], c)]
    ensures Spec.Next(s, Spec.Range(r, c)).task == s.task
  {
  }

  /** A reader can range over the clients it has before it in any order. */
  lemma {:induction false} RangeAll(s: Spec.System, r: nat, order: seq<Client>) returns (s': Spec.System)
    requires Spec.Lifecycle(s) && r in s.readers && IsOrder(order, s.readers[r].todo)
    ensures Spec.Goes(s, RangesOf(r, order), s') && s'.task == s.task
    ensures r in s'.readers && s'.readers[r].todo == {} && s'.readers == s.readers[r := s'.readers[r]]
    ensures (forall c | c in order :: c in s.core.queues) && s'.core == Served(s.core, s.readers[r], order)
    decreases |order|
  {
    s' := s;
    if order == [] {
      assert s.readers[r := s.readers[r]] == s.readers;
    } else {
      var c := order[0];
      var next := Spec.Next(s, Spec.Range(r, c));
      OneRange(s, r, c);
      Spec.LifecycleStep(s, Spec.Range(r, c));
      RestOfOrder(order, s.readers[r].todo);
      s' := RangeAll(next, r, order[1..]);
      assert RangesOf(r, order)[1..] == RangesOf(r, order[1..]);
    }
  }

  /**
   The machine and the manager's methods meet: an event taken by the loop, followed by a visit to each
   client it concerns, in any order, is possible, and changes clients, queues and metrics as handling it at
   once does. The loop is done then.
   */
  lemma EventThenVisits(s: Spec.System, e: Spec.Event, order: seq<Client>) returns (s': Spec.System)
    requires Spec.Lifecycle(s) && Spec.Enabled(s, e) && TakenByLoop(s.core, e)
    requires IsOrder(order, Spec.Next(s, e).task.todo)
    ensures Spec.Goes(s, [e] + VisitsOf(order), s') && s'.core == Handled(s.core, e) && s'.task.todo == {}
  {
    var next := Spec.Next(s, e);
    Spec.LifecycleStep(s, e);
    EventThenTask(s, e);
    s' := VisitAll(next, order);
    AnyOrderIsTheWholeTask(next.core, next.task, order);
    assert ([e] + VisitsOf(order))[1..] == VisitsOf(order);
  }

  lemma RangeThenUnlock(s: Spec.System, r: nat, order: seq<Client>, s': Spec.System)
    requires Spec.Goes(s, RangesOf(r, order), s') && Spec.Enabled(s', Spec.RUnlock(r))
    ensures Spec.Goes(s, RangesOf(r, order) + [Spec.RUnlock(r)], Spec.Next(s', Spec.RUnlock(r)))
  {
    var last := Spec.Next(s', Spec.RUnlock(r));
    assert [Spec.RUnlock(r)][1..] == [];
    assert Spec.Goes(s', [Spec.RUnlock(r)], last);
    Spec.GoesOn(s, RangesOf(r, order), s', [Spec.RUnlock(r)], last);
  }

  lemma Locked(s: Spec.System, r: nat, payload: Spec.Task) returns (locked: Spec.System)
    requires Spec.Lifecycle(s) && Spec.Enabled(s, Spec.RLock(r, payload))
    ensures locked == Spec.Next(s, Spec.RLock(r, payload)) && Spec.Lifecycle(locked)
    ensures locked == s.(readers := s.readers[r := payload.(todo := s.core.clients)]) && r !in s.readers
    ensures Open(s.core, s.core.clients)
  {
    locked := Spec.Next(s, Spec.RLock(r, payload));
    Spec.LifecycleStep(s, Spec.RLock(r, payload));
    OpenForLoop(locked);
  }

  lemma LockThenRange(s: Spec.System, r: nat, payload: Spec.Task, order: seq<Client>) returns (ranged: Spec.System)
    requires Spec.Lifecycle(s) && Spec.Enabled(s, Spec.RLock(r, payload)) && IsOrder(order, s.core.clients)
    ensures Spec.Goes(Spec.Next(s, Spec.RLock(r, payload)), RangesOf(r, order), ranged) && ranged.task == s.task
    ensures r !in s.readers && r in ranged.readers && ranged.readers[r].todo == {} && ranged.readers - {r} == s.readers
    ensures Open(s.core, s.core.clients) && ranged.core == WholeTask(s.core, payload.(todo := s.core.clients))
  {
    var locked := Locked(s, r, payload);
    ranged := RangeAll(locked, r, order);
    AnyOrderIsTheWholeTask(s.core, payload.(todo := s.core.clients), order);
  }

  /**
   Likewise a broadcast of another goroutine: taking the lock, ranging over all clients in any order, and
   giving the lock back is possible, leaves the other readers and the loop alone, and is the whole broadcast
   to the clients there were.
   */
  lemma ReaderThenRange(s: Spec.System, r: nat, payload: Spec.Task, order: seq<Client>) returns (s': Spec.System)
    requires Spec.Lifecycle(s) && Spec.Enabled(s, Spec.RLock(r, payload)) && IsOrder(order, s.core.clients)
    ensures Spec.Goes(s, [Spec.RLock(r, payload)] + (RangesOf(r, order) + [Spec.RUnlock(r)]), s')
    ensures s'.readers == s.readers && s'.task == s.task && Open(s.core, s.core.clients)
    ensures s'.core == WholeTask(s.core, payload.(todo := s.core.clients))
  {
    var ranged := LockThenRange(s, r, payload, order);
    s' := Spec.Next(ranged, Spec.RUnlock(r));
    RangeThenUnlock(Spec.Next(s, Spec.RLock(r, payload)), r, order, ranged);
    var events := RangesOf(r, order) + [Spec.RUnlock(r)];
    assert ([Spec.RLock(r, payload)] + events)[1..] == events;
  }

  /** A list of messages offered to one client, as a history replay does. */
  function Replayed(s: Spec.Core, c: Client, ms: seq<Message>): Spec.Core
    requires c in s.queues
    ensures Replayed(s, c, ms).queues.Keys == s.queues.Keys
  {
    if ms == [] then s else Spec.SendTo(Replayed(s, c, ms[..|ms| - 1]), c, ms[|ms| - 1], false)
  }

  /** A replay takes what fits and drops the rest: a queue with room for all of it gets all of it. */
  lemma {:induction false} ReplayFits(s: Spec.Core, c: Client, ms: seq<Message>)
    requires c in s.queues && !s.queues[c].send.closed
    ensures var q, q' := s.queues[c].send.queue, Replayed(s, c, ms).queues[c].send;
            !q'.closed
            && (|q| + |ms| <= SEND_CAPACITY ==> q'.queue == q + ms)
            && (|q| <= SEND_CAPACITY ==> |q'.queue| == if |q| + |ms| <= SEND_CAPACITY then |q| + |ms| else SEND_CAPACITY)
  {
    if ms != [] {
      ReplayFits(s, c, ms[..|ms| - 1]);
      assert ms[..|ms| - 1] + [ms[|ms| - 1]] == ms;
    }
  }
}
