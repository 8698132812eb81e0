/**
 The connection manager as a state machine. Its event loop takes one event at a time, but a broadcast
 visits the clients one by one, and between any two visits the other goroutines run: history replays,
 messages from other servers, and each client's WritePump.
 */
module ManagerSpec {
  import opened Types
  import opened Clients

  /** The manager's fields, the queues of every client it has met, and its metrics. */
  datatype Core = Core(
    clients: set<Client>,
    online: map<string, Client>,
    queues: map<Client, Queues>,
    connections: int,
    onlineGauge: nat,
    sendDrops: nat,
    fileDrops: nat,
    panicked: bool)

  const EMPTY_CORE := Core({}, map[], map[], 0, 0, 0, 0, false)

  // ---------- what single statements of the original do ----------

  /** The client's queues are made with the client, before it is registered. */
  function AddClient(s: Core, c: Client): Core {
    var online := s.online[c.Username := c];
    s.(connections := s.connections + 1,
       clients := s.clients + {c},
       online := online,
       onlineGauge := |online|,
       queues := if c in s.queues then s.queues else s.queues[c := FRESH_QUEUES])
  }

  function CloseAll(q: Queues): Queues {
    Queues(q.send.(closed := true), q.files.(closed := true), q.online.(closed := true))
  }

  predicate AnyClosed(q: Queues) {
    q.send.closed || q.files.closed || q.online.closed
  }

  predicate AllClosed(q: Queues) {
    q.send.closed && q.files.closed && q.online.closed
  }

  /** Only a registered client is closed. */
  function CloseClient(s: Core, c: Client): Core
    requires c in s.queues
  {
    if c !in s.clients then s
    else s.(clients := s.clients - {c},
            queues := s.queues[c := CloseAll(s.queues[c])],
            panicked := s.panicked || AnyClosed(s.queues[c]),
            connections := s.connections - 1)
  }

  /** The name leaves the registry in any case, whichever connection it leads to. */
  function RemoveClient(s: Core, c: Client): Core
    requires c in s.queues
  {
    var closed := CloseClient(s, c);
    var online := s.online - {c.Username};
    closed.(online := online, onlineGauge := |online|)
  }

  /** One send of a message to one client. Drops are counted for broadcasts but not for history. */
  function SendTo(s: Core, c: Client, m: Message, counted: bool): Core
    requires c in s.queues
  {
    var q := s.queues[c];
    s.(queues := s.queues[c := q.(send := Offer(q.send, SEND_CAPACITY, m))],
       sendDrops := s.sendDrops + if counted && !q.send.closed && Full(q.send, SEND_CAPACITY) then 1 else 0,
       panicked := s.panicked || q.send.closed)
  }

  function FileTo(s: Core, c: Client, e: FileEvent): Core
    requires c in s.queues
  {
    var q := s.queues[c];
    s.(queues := s.queues[c := q.(files := Offer(q.files, FILE_CAPACITY, e))],
       fileDrops := s.fileDrops + if !q.files.closed && Full(q.files, FILE_CAPACITY) then 1 else 0,
       panicked := s.panicked || q.files.closed)
  }

  function OnlineTo(s: Core, c: Client, d: OnlineData): Core
    requires c in s.queues
  {
    var q := s.queues[c];
    s.(queues := s.queues[c := q.(online := Offer(q.online, ONLINE_CAPACITY, d))],
       panicked := s.panicked || q.online.closed)
  }

  function OnlineNow(s: Core): OnlineData {
    OnlineData(|s.online|, s.online.Keys)
  }

  // ---------- the running system ----------

  /** What the event loop still has to do for the event it took, and for which clients. */
  datatype Task =
    | Messages(message: Message, todo: set<Client>)
    | Files(event: FileEvent, todo: set<Client>)
    | Online(data: OnlineData, todo: set<Client>)

  /** Where an offered message comes from: the n-th one the loop processed, another server, a replay. */
  datatype Source = Live(n: nat) | Remote | Replay

  datatype Sent = Sent(client: Client, source: Source, message: Message, accepted: bool)

  /**
   The core, the loop's task, the broadcasts of other goroutines under way, and the record of the run:
   the messages the loop processed, every send to a Send queue, what each WritePump took, and how many
   messages were processed before each client joined.

   A goroutine that broadcasts holds the read lock of the client set from the moment it starts to range
   over the clients until it is done; the readers are those that hold it.
   */
  datatype System = System(core: Core, task: Task, readers: map<nat, Task>, processed: seq<Message>, ledger: seq<Sent>,
                           taken: map<Client, seq<Message>>, joined: map<Client, nat>)

  const START := System(EMPTY_CORE, Online(OnlineData(0, {}), {}), map[], [], [], map[], map[])

  datatype Event =
    // taken by the loop
    | Register(client: Client)
    | Unregister(client: Client)
    | Process(message: Message)
    | ProcessFile(event: FileEvent)
    | Visit(client: Client)
    // other goroutines
    | RLock(reader: nat, payload: Task)
    | Range(reader: nat, client: Client)
    | RUnlock(reader: nat)
    | History(client: Client, message: Message)
    | Take(client: Client)
    | TakeFile(client: Client)
    | TakeOnline(client: Client)
    | RefreshGauge(sampled: nat)
    | RefreshOnline(sampled: nat)

  function Record(s: System, c: Client, source: Source, m: Message): System
    requires c in s.core.queues
  {
    var q := s.core.queues[c].send;
    s.(core := SendTo(s.core, c, m, !source.Replay?),
       ledger := s.ledger + [Sent(c, source, m, !q.closed && !Full(q, SEND_CAPACITY))])
  }

  /** One client served, whoever broadcasts. */
  function Serve(s: Core, task: Task, c: Client): Core
    requires c in s.queues
  {
    match task
    case Messages(m, _) => SendTo(s, c, m, true)
    case Files(e, _) => FileTo(s, c, e)
    case Online(d, _) => OnlineTo(s, c, d)
  }

  function Without(task: Task, c: Client): Task {
    task.(todo := task.todo - {c})
  }

  function VisitClient(s: System, c: Client): System
    requires c in s.core.queues
  {
    if s.task.Messages? then Record(s, c, Live(|s.processed|), s.task.message).(task := Without(s.task, c))
    else s.(core := Serve(s.core, s.task, c), task := Without(s.task, c))
  }

  function RangeClient(s: System, r: nat, c: Client): System
    requires r in s.readers && c in s.core.queues
  {
    var t := s.readers[r];
    if t.Messages? then Record(s, c, Remote, t.message).(readers := s.readers[r := Without(t, c)])
    else s.(core := Serve(s.core, t, c), readers := s.readers[r := Without(t, c)])
  }

  function TakeFrom(s: System, c: Client): System
    requires c in s.core.queues && c in s.taken
  {
    var q := s.core.queues[c];
    if q.send.queue == [] then s
    else s.(core := s.core.(queues := s.core.queues[c := q.(send := q.send.(queue := q.send.queue[1..]))]),
            taken := s.taken[c := s.taken[c] + [q.send.queue[0]]])
  }

  function Drain(s: Core, c: Client, files: bool): Core
    requires c in s.queues
  {
    var q := s.queues[c];
    if files
    then (if q.files.queue == [] then s
          else s.(queues := s.queues[c := q.(files := q.files.(queue := q.files.queue[1..]))]))
    else (if q.online.queue == [] then s
          else s.(queues := s.queues[c := q.(online := q.online.(queue := q.online.queue[1..]))]))
  }

  /** Every event names a client the manager has met, except a registration. */
  predicate Possible(s: System, e: Event) {
    match e
    case Register(_) => true
    case Process(_) => true
    case ProcessFile(_) => true
    case RefreshGauge(_) => true
    case RefreshOnline(_) => true
    case RLock(_, _) => true
    case RUnlock(_) => true
    case Range(r, c) => r in s.readers && c in s.core.queues && c in s.taken
    case _ => e.client in s.core.queues && e.client in s.taken
  }

  function Next(s: System, e: Event): System
    requires Possible(s, e)
  {
    match e
    case Register(c) =>
      var core := AddClient(s.core, c);
      s.(core := core, task := Online(OnlineNow(core), core.clients),
         taken := s.taken[c := []], joined := s.joined[c := |s.processed|])
    case Unregister(c) =>
      var core := RemoveClient(s.core, c);
      s.(core := core, task := Online(OnlineNow(core), core.clients))
    case Process(m) => s.(processed := s.processed + [m], task := Messages(m, s.core.clients))
    case ProcessFile(f) => s.(task := Files(f, s.core.clients))
    case Visit(c) => VisitClient(s, c)
    case RLock(r, payload) => s.(readers := s.readers[r := payload.(todo := s.core.clients)])
    case Range(r, c) => RangeClient(s, r, c)
    case RUnlock(r) => s.(readers := s.readers - {r})
    case History(c, m) => Record(s, c, Replay, m)
    case Take(c) => TakeFrom(s, c)
    case TakeFile(c) => s.(core := Drain(s.core, c, true))
    case TakeOnline(c) => s.(core := Drain(s.core, c, false))
    case RefreshGauge(n) => s.(core := s.core.(connections := n))
    case RefreshOnline(n) => s.(core := s.core.(onlineGauge := n))
  }

  /**
   The runs considered. The loop takes an event only when it is done with the last one. The write lock
   with which it changes the client set is free only when no reader holds it. A reader gives the lock
   back when it has ranged over all clients. Each client is registered once; replays reach registered
   clients; the periodic refresh writes to each gauge the number there is at that moment.
   */
  predicate Enabled(s: System, e: Event) {
    && Possible(s, e)
    && match e
       case Register(c) => s.task.todo == {} && s.readers == map[] && c !in s.core.queues
       case Unregister(_) => s.task.todo == {} && s.readers == map[]
       case Process(_) => s.task.todo == {}
       case ProcessFile(_) => s.task.todo == {}
       case Visit(c) => c in s.task.todo
       case RLock(r, _) => r !in s.readers
       case Range(r, c) => c in s.readers[r].todo
       case RUnlock(r) => r in s.readers && s.readers[r].todo == {}
       case History(c, _) => c in s.core.clients
       case RefreshGauge(n) => n == |s.core.clients|
       case RefreshOnline(n) => n == |s.core.online|
       case _ => true
  }

  /** The states a run passes through. */
  ghost predicate IsRun(states: seq<System>, events: seq<Event>) {
    && |states| == |events| + 1 && states[0] == START
    && forall i | 0 <= i < |events| :: Enabled(states[i], events[i]) && states[i + 1] == Next(states[i], events[i])
  }

  // ---------- connection lifecycle ----------

  /**
   Queues are closed exactly for clients that were removed, nothing ever panicked, and the gauge
   counts the registered clients.
   */
  ghost predicate Connected(s: Core) {
    && s.clients <= s.queues.Keys
    && (forall c | c in s.queues :: if c in s.clients then !AnyClosed(s.queues[c]) else AllClosed(s.queues[c]))
    && !s.panicked
    && s.connections == |s.clients|
  }

  ghost predicate Lifecycle(s: System) {
    && Connected(s.core)
    && (forall c | c in s.core.queues :: c in s.taken && c in s.joined)
    && s.task.todo <= s.core.clients
    && (forall r | r in s.readers :: s.readers[r].todo <= s.core.clients)
    && (s.task.Messages? ==> s.processed != [] && s.task.message == s.processed[|s.processed| - 1])
  }

  lemma AddConnected(s: Core, c: Client)
    requires Connected(s)
    ensures Connected(AddClient(s, c)) <==> c !in s.queues
  {
    if c in s.queues && c in s.clients {
      assert s.clients + {c} == s.clients;
    }
  }

  lemma RemoveConnected(s: Core, c: Client)
    requires Connected(s) && c in s.queues
    ensures Connected(RemoveClient(s, c))
  {
  }

  lemma SendConnected(s: Core, c: Client, m: Message, counted: bool)
    requires Connected(s) && c in s.queues
    ensures Connected(SendTo(s, c, m, counted)) <==> c in s.clients
  {
  }

  lemma FileConnected(s: Core, c: Client, e: FileEvent)
    requires Connected(s) && c in s.clients
    ensures Connected(FileTo(s, c, e))
  {
  }

  lemma OnlineConnected(s: Core, c: Client, d: OnlineData)
    requires Connected(s) && c in s.clients
    ensures Connected(OnlineTo(s, c, d))
  {
  }

  lemma ServeConnected(s: Core, task: Task, c: Client)
    requires Connected(s) && c in s.clients
    ensures Connected(Serve(s, task, c))
  {
    match task
    case Messages(m, _) => SendConnected(s, c, m, true);
    case Files(f, _) => FileConnected(s, c, f);
    case Online(d, _) => OnlineConnected(s, c, d);
  }

  lemma TakeConnected(s: System, c: Client, files: bool)
    requires Connected(s.core) && c in s.core.queues && c in s.taken
    ensures Connected(TakeFrom(s, c).core) && Connected(Drain(s.core, c, files))
  {
  }

  predicate OfLoop(e: Event) {
    e.Register? || e.Unregister? || e.Process? || e.ProcessFile? || e.Visit?
  }

  lemma LoopConnected(s: System, e: Event)
    requires Lifecycle(s) && Enabled(s, e) && OfLoop(e)
    ensures Connected(Next(s, e).core)
  {
    match e
    case Register(c) => AddConnected(s.core, c);
    case Unregister(c) => RemoveConnected(s.core, c);
    case Process(_) =>
    case ProcessFile(_) =>
    case Visit(c) => ServeConnected(s.core, s.task, c);
  }

  lemma OtherConnected(s: System, e: Event)
    requires Lifecycle(s) && Enabled(s, e) && !OfLoop(e)
    ensures Connected(Next(s, e).core)
  {
    match e
    case RLock(_, _) =>
    case RUnlock(_) =>
    case Range(r, c) => ServeConnected(s.core, s.readers[r], c);
    case History(c, m) => SendConnected(s.core, c, m, false);
    case Take(c) => TakeConnected(s, c, true);
    case TakeFile(c) => TakeConnected(s, c, true);
    case TakeOnline(c) => TakeConnected(s, c, false);
    case RefreshGauge(_) =>
    case RefreshOnline(_) =>
  }

  lemma BooksKept(s: System, e: Event)
    requires Lifecycle(s) && Enabled(s, e)
    ensures forall c | c in Next(s, e).core.queues :: c in Next(s, e).taken && c in Next(s, e).joined
  {
  }

  lemma TaskKept(s: System, e: Event)
    requires Lifecycle(s) && Enabled(s, e)
    ensures var s' := Next(s, e);
            && s'.task.todo <= s'.core.clients
            && (s'.task.Messages? ==> s'.processed != [] && s'.task.message == s'.processed[|s'.processed| - 1])
  {
  }

  /** Nobody ranges over a client that has left: it could not leave while a reader held the lock. */
  lemma ReadersKept(s: System, e: Event)
    requires Lifecycle(s) && Enabled(s, e)
    ensures forall r | r in Next(s, e).readers :: Next(s, e).readers[r].todo <= Next(s, e).core.clients
  {
  }

  lemma LifecycleStep(s: System, e: Event)
    requires Lifecycle(s) && Enabled(s, e)
    ensures Lifecycle(Next(s, e))
  {
    BooksKept(s, e);
    TaskKept(s, e);
    ReadersKept(s, e);
    if OfLoop(e) {
      LoopConnected(s, e);
    } else {
      OtherConnected(s, e);
    }
  }

  // ---------- the online registry ----------

  /** Every entry leads to a connected client of that name, and the gauge counts the entries. */
  ghost predicate Registry(s: Core) {
    && s.onlineGauge == |s.online|
    && forall name | name in s.online :: s.online[name] in s.clients && s.online[name].Username == name
  }

  lemma RegistryStep(s: System, e: Event)
    requires Registry(s.core) && Enabled(s, e)
    ensures Registry(Next(s, e).core)
  {
    if !OfLoop(e) {
      OthersKeepRegistry(s, e);
    }
  }

  predicate SameRegistry(a: Core, b: Core) {
    b.clients == a.clients && b.online == a.online && b.onlineGauge == a.onlineGauge && (a.panicked ==> b.panicked)
  }

  lemma VisitKeepsRegistry(s: System, c: Client)
    requires c in s.core.queues
    ensures SameRegistry(s.core, VisitClient(s, c).core)
  {
    match s.task
    case Messages(_, _) =>
    case Files(_, _) =>
    case Online(_, _) =>
  }

  lemma RangeKeepsRegistry(s: System, r: nat, c: Client)
    requires r in s.readers && c in s.core.queues
    ensures SameRegistry(s.core, RangeClient(s, r, c).core)
  {
    match s.readers[r]
    case Messages(_, _) =>
    case Files(_, _) =>
    case Online(_, _) =>
  }

  lemma OthersKeepRegistry(s: System, e: Event)
    requires Enabled(s, e) && !OfLoop(e)
    ensures var core := Next(s, e).core;
            && core.clients == s.core.clients && core.online == s.core.online
            && core.onlineGauge == if e.RefreshOnline? then |s.core.online| else s.core.onlineGauge
  {
    match e
    case Range(r, c) => RangeKeepsRegistry(s, r, c);
    case _ =>
  }

  /** There are never more online names than connections. */
  lemma {:induction false} OnlineIsSmaller(online: map<string, Client>, clients: set<Client>)
    requires forall name | name in online :: online[name] in clients && online[name].Username == name
    ensures |online| <= |clients|
    decreases |online|
  {
    if online != map[] {
      var name :| name in online;
      var rest := online - {name};
      assert online.Keys == rest.Keys + {name};
      OnlineIsSmaller(rest, clients - {online[name]});
    }
  }

  function Names(clients: set<Client>): set<string> {
    set c | c in clients :: c.Username
  }

  /** With the registry exact before, a registration keeps it exact. */
  lemma RegisterKeepsNames(s: Core, c: Client)
    requires s.online.Keys == Names(s.clients)
    ensures AddClient(s, c).online.Keys == Names(AddClient(s, c).clients)
  {
  }

  /** With the registry exact before, a removal keeps it exact iff no other connection has the name. */
  lemma UnregisterKeepsNamesIff(s: Core, c: Client)
    requires s.online.Keys == Names(s.clients) && c in s.clients && c in s.queues
    ensures RemoveClient(s, c).online.Keys == Names(RemoveClient(s, c).clients)
       <==> (forall d | d in s.clients && d != c :: d.Username != c.Username)
  {
    var s' := RemoveClient(s, c);
    assert s'.online.Keys == s.online.Keys - {c.Username} && s'.clients == s.clients - {c};
    if forall d | d in s.clients && d != c :: d.Username != c.Username {
      assert s'.online.Keys == Names(s'.clients);
    } else {
      var d :| d in s.clients && d != c && d.Username == c.Username;
      assert d.Username in Names(s'.clients);
    }
  }

  // ---------- what the loop processed ----------

  /** The messages the events hand to the loop. */
  function ProcessedIn(events: seq<Event>): seq<Message> {
    if events == [] then []
    else
      var last := events[|events| - 1];
      ProcessedIn(events[..|events| - 1]) + if last.Process? then [last.message] else []
  }

  lemma ProcessedStep(s: System, e: Event)
    requires Possible(s, e)
    ensures Next(s, e).processed == s.processed + if e.Process? then [e.message] else []
  {
    assert s.processed + [] == s.processed;
  }

  /** In every state of every run the record of processed messages is what the loop was handed, unchanged. */
  lemma {:induction false} ProcessedIsExact(states: seq<System>, events: seq<Event>, i: nat)
    requires IsRun(states, events) && i < |states|
    ensures states[i].processed == ProcessedIn(events[..i])
  {
    if i > 0 {
      ProcessedIsExact(states, events, i - 1);
      assert Enabled(states[i - 1], events[i - 1]) && states[i] == Next(states[i - 1], events[i - 1]);
      ProcessedStep(states[i - 1], events[i - 1]);
      assert events[..i][..i - 1] == events[..i - 1];
    }
  }

  // ---------- the ledger ----------

  /** The messages accepted into the client's queue, in order. */
  function AcceptedBy(ledger: seq<Sent>, c: Client): seq<Message> {
    if ledger == [] then []
    else
      var x := ledger[|ledger| - 1];
      AcceptedBy(ledger[..|ledger| - 1], c) + if x.client == c && x.accepted then [x.message] else []
  }

  /** The numbers of the processed messages the loop offered to the client, in order. */
  function LiveTo(ledger: seq<Sent>, c: Client): seq<nat> {
    if ledger == [] then []
    else
      var x := ledger[|ledger| - 1];
      LiveTo(ledger[..|ledger| - 1], c) + if x.client == c && x.source.Live? then [x.source.n] else []
  }

  /** The numbers of those that were accepted. */
  function Seen(ledger: seq<Sent>, c: Client): seq<nat> {
    if ledger == [] then []
    else
      var x := ledger[|ledger| - 1];
      Seen(ledger[..|ledger| - 1], c) + if x.client == c && x.source.Live? && x.accepted then [x.source.n] else []
  }

  /** The messages of those, as the client gets them. */
  function SeenMessages(ledger: seq<Sent>, c: Client): seq<Message> {
    if ledger == [] then []
    else
      var x := ledger[|ledger| - 1];
      SeenMessages(ledger[..|ledger| - 1], c)
      + if x.client == c && x.source.Live? && x.accepted then [x.message] else []
  }

  /** How many sends to the client the ledger has, and how many of them found the queue full. */
  function OffersTo(ledger: seq<Sent>, c: Client): nat {
    if ledger == [] then 0
    else OffersTo(ledger[..|ledger| - 1], c) + if ledger[|ledger| - 1].client == c then 1 else 0
  }

  function RejectedTo(ledger: seq<Sent>, c: Client): nat {
    if ledger == [] then 0
    else
      var x := ledger[|ledger| - 1];
      RejectedTo(ledger[..|ledger| - 1], c) + if x.client == c && !x.accepted then 1 else 0
  }

  /** The broadcast sends of the whole ledger that found a queue full. */
  function BroadcastDrops(ledger: seq<Sent>): nat {
    if ledger == [] then 0
    else
      var x := ledger[|ledger| - 1];
      BroadcastDrops(ledger[..|ledger| - 1]) + if !x.accepted && !x.source.Replay? then 1 else 0
  }

  /** What one more entry adds to each view of the ledger. */
  lemma LedgerGrows(ledger: seq<Sent>, x: Sent, c: Client)
    ensures AcceptedBy(ledger + [x], c) == AcceptedBy(ledger, c) + if x.client == c && x.accepted then [x.message] else []
    ensures LiveTo(ledger + [x], c) == LiveTo(ledger, c) + if x.client == c && x.source.Live? then [x.source.n] else []
    ensures OffersTo(ledger + [x], c) == OffersTo(ledger, c) + if x.client == c then 1 else 0
    ensures RejectedTo(ledger + [x], c) == RejectedTo(ledger, c) + if x.client == c && !x.accepted then 1 else 0
    ensures BroadcastDrops(ledger + [x]) == BroadcastDrops(ledger) + if !x.accepted && !x.source.Replay? then 1 else 0
  {
    assert (ledger + [x])[..|ledger|] == ledger;
  }

  lemma {:induction false} StrangerHasNoEntries(ledger: seq<Sent>, c: Client)
    requires forall x | x in ledger :: x.client != c
    ensures AcceptedBy(ledger, c) == [] && LiveTo(ledger, c) == [] && OffersTo(ledger, c) == RejectedTo(ledger, c) == 0
  {
    if ledger != [] {
      assert ledger[|ledger| - 1] in ledger;
      StrangerHasNoEntries(ledger[..|ledger| - 1], c);
    }
  }

  lemma {:induction false} EveryOfferIsCounted(ledger: seq<Sent>, c: Client)
    ensures OffersTo(ledger, c) == |AcceptedBy(ledger, c)| + RejectedTo(ledger, c)
  {
    if ledger != [] {
      EveryOfferIsCounted(ledger[..|ledger| - 1], c);
    }
  }

  // ---------- order and conservation ----------

  ghost predicate KnownClients(s: System) {
    forall x | x in s.ledger :: x.client in s.core.queues
  }

  /** Nothing is lost, duplicated or reordered between a queue and its WritePump. */
  ghost predicate Fifo(s: System) {
    && KnownClients(s)
    && (forall c | c in s.core.queues ::
          && c in s.taken
          && |s.core.queues[c].send.queue| <= SEND_CAPACITY
          && AcceptedBy(s.ledger, c) == s.taken[c] + s.core.queues[c].send.queue)
  }

  /** How many of the processed messages a connected client still waits for in the running broadcast. */
  function Waiting(s: System, c: Client): nat {
    if s.task.Messages? && c in s.task.todo then 1 else 0
  }

  ghost predicate Counted(s: System) {
    s.core.sendDrops == BroadcastDrops(s.ledger)
  }

  lemma RecordFifo(s: System, c: Client, source: Source, m: Message)
    requires Lifecycle(s) && Fifo(s) && c in s.core.clients
    ensures Fifo(Record(s, c, source, m))
    ensures Counted(s) ==> Counted(Record(s, c, source, m))
  {
    var s' := Record(s, c, source, m);
    var x := s'.ledger[|s.ledger|];
    LedgerGrows(s.ledger, x, c);
    forall d | d in s'.core.queues
      ensures d in s'.taken && |s'.core.queues[d].send.queue| <= SEND_CAPACITY
      ensures AcceptedBy(s'.ledger, d) == s'.taken[d] + s'.core.queues[d].send.queue
    {
      LedgerGrows(s.ledger, x, d);
    }
  }

  lemma TakeFifo(s: System, c: Client)
    requires Lifecycle(s) && Fifo(s) && c in s.core.queues
    ensures Fifo(TakeFrom(s, c))
  {
    var q := s.core.queues[c].send.queue;
    if q != [] {
      assert s.taken[c] + q == (s.taken[c] + [q[0]]) + q[1..];
    }
  }

  lemma RegisterFifo(s: System, c: Client)
    requires Lifecycle(s) && Fifo(s) && c !in s.core.queues
    ensures Fifo(Next(s, Register(c)))
  {
    StrangerHasNoEntries(s.ledger, c);
  }

  /** s' differs from s in nothing a Send queue or its record can show. */
  ghost predicate SameSends(s: System, s': System) {
    && s'.ledger == s.ledger && s'.taken == s.taken && s'.joined == s.joined
    && s'.core.sendDrops == s.core.sendDrops
    && (forall c | c in s'.core.queues :: c in s.core.queues && s'.core.queues[c].send.queue == s.core.queues[c].send.queue)
    && (forall c | c in s.core.queues :: c in s'.core.queues)
  }

  lemma SameSendsFifo(s: System, s': System)
    requires Fifo(s) && SameSends(s, s')
    ensures Fifo(s') && (Counted(s) ==> Counted(s'))
  {
  }

  /** The events that put nothing into a Send queue and take nothing out of one. */
  predicate LeavesSends(s: System, e: Event) {
    match e
    case Visit(_) => !s.task.Messages?
    case Register(_) => false
    case Range(r, _) => r in s.readers && !s.readers[r].Messages?
    case History(_, _) => false
    case Take(_) => false
    case _ => true
  }

  lemma RemovalLeavesSends(s: System, c: Client)
    requires c in s.core.queues && c in s.taken
    ensures SameSends(s, Next(s, Unregister(c)))
  {
    assert RemoveClient(s.core, c).sendDrops == s.core.sendDrops;
  }

  lemma ServingLeavesSends(s: System, c: Client)
    requires c in s.core.queues && c in s.taken && !s.task.Messages?
    ensures SameSends(s, VisitClient(s, c))
  {
  }

  lemma LoopLeavesSends(s: System, e: Event)
    requires Lifecycle(s) && Enabled(s, e) && LeavesSends(s, e) && OfLoop(e)
    ensures SameSends(s, Next(s, e))
  {
    match e
    case Unregister(c) => RemovalLeavesSends(s, c);
    case Visit(c) => ServingLeavesSends(s, c);
    case Process(_) =>
    case ProcessFile(_) =>
  }

  lemma RangeLeavesSends(s: System, r: nat, c: Client)
    requires r in s.readers && c in s.core.queues && !s.readers[r].Messages?
    ensures SameSends(s, RangeClient(s, r, c))
  {
  }

  lemma DrainLeavesSends(s: System, c: Client, files: bool)
    requires c in s.core.queues
    ensures SameSends(s, s.(core := Drain(s.core, c, files)))
  {
  }

  lemma OthersLeaveSends(s: System, e: Event)
    requires Lifecycle(s) && Enabled(s, e) && LeavesSends(s, e) && !OfLoop(e)
    ensures SameSends(s, Next(s, e))
  {
    match e
    case Range(r, c) => RangeLeavesSends(s, r, c);
    case TakeFile(c) => DrainLeavesSends(s, c, true);
    case TakeOnline(c) => DrainLeavesSends(s, c, false);
    case RLock(_, _) =>
    case RUnlock(_) =>
    case RefreshGauge(_) =>
    case RefreshOnline(_) =>
  }

  lemma FifoStep(s: System, e: Event)
    requires Lifecycle(s) && Enabled(s, e) && Fifo(s)
    ensures Fifo(Next(s, e)) && (Counted(s) ==> Counted(Next(s, e)))
  {
    if LeavesSends(s, e) {
      if OfLoop(e) {
        LoopLeavesSends(s, e);
      } else {
        OthersLeaveSends(s, e);
      }
      SameSendsFifo(s, Next(s, e));
    } else {
      match e {
        case Register(c) => RegisterFifo(s, c);
        case Visit(c) => RecordFifo(s, c, Live(|s.processed|), s.task.message);
        case Range(r, c) =>
          RecordFifo(s, c, Remote, s.readers[r].message);
        case History(c, m) => RecordFifo(s, c, Replay, m);
        case Take(c) => TakeFifo(s, c);
      }
    }
  }

  /** What one client has been offered is in order. */
  ghost predicate OfferedTo(s: System, c: Client) {
    && c in s.joined
    && Consecutive(LiveTo(s.ledger, c), s.joined[c])
    && s.joined[c] + |LiveTo(s.ledger, c)| + Waiting(s, c) <= |s.processed|
    && (c in s.core.clients ==> s.joined[c] + |LiveTo(s.ledger, c)| + Waiting(s, c) == |s.processed|)
  }

  /**
   A client is offered every message processed since it joined, each exactly once and in the order of
   processing, as long as it is connected.
   */
  ghost predicate Offered(s: System) {
    Truthful(s.ledger, s.processed) && forall c | c in s.core.queues :: OfferedTo(s, c)
  }

  lemma RecordOffered(s: System, c: Client, m: Message, source: Source)
    requires Lifecycle(s) && Offered(s) && c in s.core.clients && !source.Live?
    ensures Offered(Record(s, c, source, m))
  {
    var s' := Record(s, c, source, m);
    var x := s'.ledger[|s.ledger|];
    forall d | d in s'.core.queues ensures OfferedTo(s', d) {
      LedgerGrows(s.ledger, x, d);
      assert OfferedTo(s, d);
    }
  }

  lemma VisitOfferedTo(s: System, c: Client, d: Client)
    requires Lifecycle(s) && Offered(s) && s.task.Messages? && c in s.task.todo && d in s.core.queues
    ensures OfferedTo(VisitClient(s, c), d)
  {
    var s' := VisitClient(s, c);
    LedgerGrows(s.ledger, s'.ledger[|s.ledger|], d);
    assert OfferedTo(s, d);
    assert s'.core.clients == s.core.clients && s'.joined == s.joined && s'.processed == s.processed;
    if d == c {
      assert LiveTo(s'.ledger, c) == LiveTo(s.ledger, c) + [|s.processed|];
    } else {
      assert LiveTo(s'.ledger, d) == LiveTo(s.ledger, d) && Waiting(s', d) == Waiting(s, d);
    }
  }

  lemma VisitOffered(s: System, c: Client)
    requires Lifecycle(s) && Offered(s) && s.task.Messages? && c in s.task.todo
    ensures Offered(VisitClient(s, c))
  {
    forall d | d in VisitClient(s, c).core.queues ensures OfferedTo(VisitClient(s, c), d) {
      VisitOfferedTo(s, c, d);
    }
  }

  lemma RegisterOfferedTo(s: System, c: Client, d: Client)
    requires d in s.core.queues && OfferedTo(s, d) && s.task.todo == {} && d != c
    ensures OfferedTo(Next(s, Register(c)), d)
  {
    var s' := Next(s, Register(c));
    assert s'.joined[d] == s.joined[d] && Waiting(s', d) == Waiting(s, d) == 0;
    assert d in s'.core.clients <==> d in s.core.clients;
  }

  lemma RegisterOffered(s: System, c: Client)
    requires KnownClients(s) && Offered(s) && s.task.todo == {} && c !in s.core.queues
    ensures Offered(Next(s, Register(c)))
  {
    StrangerHasNoEntries(s.ledger, c);
    forall d | d in Next(s, Register(c)).core.queues ensures OfferedTo(Next(s, Register(c)), d) {
      if d != c {
        RegisterOfferedTo(s, c, d);
      }
    }
  }

  lemma ProcessOffered(s: System, m: Message)
    requires Lifecycle(s) && Offered(s) && s.task.todo == {}
    ensures Offered(Next(s, Process(m)))
  {
    var s' := Next(s, Process(m));
    forall d | d in s'.core.queues ensures OfferedTo(s', d) {
      assert OfferedTo(s, d);
    }
  }

  /** What was offered stays in order when records, books and the message under way stay as they are. */
  lemma SameOffers(s: System, s': System, d: Client)
    requires d in s.core.queues && OfferedTo(s, d)
    requires s'.ledger == s.ledger && s'.processed == s.processed && s'.joined == s.joined
    requires s'.core.clients <= s.core.clients && Waiting(s', d) == Waiting(s, d)
    ensures OfferedTo(s', d)
  {
  }

  /** Nothing changed that the order of offers depends on. */
  ghost predicate SameBooks(s: System, s': System) {
    && s'.ledger == s.ledger && s'.processed == s.processed && s'.joined == s.joined
    && s'.core.clients <= s.core.clients && s'.core.queues.Keys == s.core.queues.Keys
    && forall d | d in s.core.queues :: Waiting(s', d) == Waiting(s, d)
  }

  lemma LoopKeepsBooks(s: System, e: Event)
    requires Lifecycle(s) && Enabled(s, e) && LeavesSends(s, e) && OfLoop(e) && !e.Process?
    ensures SameBooks(s, Next(s, e))
  {
  }

  lemma RangeKeepsBooks(s: System, r: nat, c: Client)
    requires Lifecycle(s) && Enabled(s, Range(r, c)) && !s.readers[r].Messages?
    ensures SameBooks(s, Next(s, Range(r, c)))
  {
    ServeKeepsMembers(s.core, s.readers[r], c);
  }

  lemma TakeKeepsBooks(s: System, c: Client, files: bool)
    requires c in s.core.queues && c in s.taken
    ensures SameBooks(s, TakeFrom(s, c)) && SameBooks(s, s.(core := Drain(s.core, c, files)))
  {
  }

  lemma OthersKeepBooks(s: System, e: Event)
    requires Lifecycle(s) && Enabled(s, e) && !OfLoop(e) && (LeavesSends(s, e) || e.Take?)
    ensures SameBooks(s, Next(s, e))
  {
    match e
    case Range(r, c) => RangeKeepsBooks(s, r, c);
    case Take(c) => TakeKeepsBooks(s, c, true);
    case TakeFile(c) => TakeKeepsBooks(s, c, true);
    case TakeOnline(c) => TakeKeepsBooks(s, c, false);
    case RLock(_, _) =>
    case RUnlock(_) =>
    case RefreshGauge(_) =>
    case RefreshOnline(_) =>
  }

  lemma OthersOffered(s: System, e: Event)
    requires Lifecycle(s) && Enabled(s, e) && Offered(s)
    requires (LeavesSends(s, e) && !e.Process?) || e.Take?
    ensures Offered(Next(s, e))
  {
    if OfLoop(e) {
      LoopKeepsBooks(s, e);
    } else {
      OthersKeepBooks(s, e);
    }
    forall d | d in Next(s, e).core.queues ensures OfferedTo(Next(s, e), d) {
      SameOffers(s, Next(s, e), d);
    }
  }

  lemma OfferedStep(s: System, e: Event)
    requires Lifecycle(s) && Enabled(s, e) && Fifo(s) && Offered(s)
    ensures Offered(Next(s, e))
  {
    if (LeavesSends(s, e) && !e.Process?) || e.Take? {
      OthersOffered(s, e);
    } else {
      match e {
        case Register(c) => RegisterOffered(s, c);
        case Process(m) => ProcessOffered(s, m);
        case Visit(c) => VisitOffered(s, c);
        case Range(r, c) => RecordOffered(s, c, s.readers[r].message, Remote);
        case History(c, m) => RecordOffered(s, c, m, Replay);
      }
    }
  }

  ghost predicate Sound(s: System) {
    Lifecycle(s) && Registry(s.core) && Fifo(s) && Offered(s) && Counted(s)
  }

  lemma SoundStep(s: System, e: Event)
    requires Sound(s) && Enabled(s, e)
    ensures Sound(Next(s, e))
  {
    LifecycleStep(s, e);
    RegistryStep(s, e);
    FifoStep(s, e);
    OfferedStep(s, e);
  }

  /** Every state of every run. */
  lemma {:induction false} EveryStateIsSound(states: seq<System>, events: seq<Event>, i: nat)
    requires IsRun(states, events) && i < |states|
    ensures Sound(states[i])
  {
    if i > 0 {
      EveryStateIsSound(states, events, i - 1);
      SoundStep(states[i - 1], events[i - 1]);
    }
  }

  // ---------- who is connected ----------

  function Registered(events: seq<Event>): set<Client> {
    if events == [] then {}
    else
      var last := events[|events| - 1];
      Registered(events[..|events| - 1]) + if last.Register? then {last.client} else {}
  }

  function Unregistered(events: seq<Event>): set<Client> {
    if events == [] then {}
    else
      var last := events[|events| - 1];
      Unregistered(events[..|events| - 1]) + if last.Unregister? then {last.client} else {}
  }

  lemma ServeKeepsMembers(s: Core, task: Task, c: Client)
    requires c in s.queues
    ensures Serve(s, task, c).queues.Keys == s.queues.Keys && Serve(s, task, c).clients == s.clients
  {
  }

  lemma RemoveMember(s: Core, c: Client)
    requires c in s.queues
    ensures RemoveClient(s, c).queues.Keys == s.queues.Keys && RemoveClient(s, c).clients == s.clients - {c}
  {
  }

  lemma MembersInLoop(s: System, e: Event)
    requires Possible(s, e) && OfLoop(e)
    ensures Next(s, e).core.queues.Keys == if e.Register? then s.core.queues.Keys + {e.client} else s.core.queues.Keys
    ensures Next(s, e).core.clients
         == if e.Register? then s.core.clients + {e.client}
            else if e.Unregister? then s.core.clients - {e.client} else s.core.clients
  {
    match e
    case Register(_) =>
    case Unregister(c) => RemoveMember(s.core, c);
    case Process(_) =>
    case ProcessFile(_) =>
    case Visit(c) => ServeKeepsMembers(s.core, s.task, c);
  }

  lemma MembersElsewhere(s: System, e: Event)
    requires Possible(s, e) && !OfLoop(e)
    ensures Next(s, e).core.queues.Keys == s.core.queues.Keys && Next(s, e).core.clients == s.core.clients
  {
  }

  lemma RegisteredGrows(events: seq<Event>, i: nat)
    requires i < |events|
    ensures var e := events[i];
            && Registered(events[..i + 1]) == Registered(events[..i]) + (if e.Register? then {e.client} else {})
            && Unregistered(events[..i + 1]) == Unregistered(events[..i]) + (if e.Unregister? then {e.client} else {})
  {
    assert events[..i + 1][..i] == events[..i];
  }

  /** The clients ever met are those registered, and the connected ones those of them not unregistered. */
  ghost predicate Members(known: set<Client>, clients: set<Client>, registered: set<Client>, unregistered: set<Client>) {
    known == registered && clients == registered - unregistered && unregistered <= registered
  }

  lemma MembersGrow(known: set<Client>, clients: set<Client>, registered: set<Client>, unregistered: set<Client>, c: Client)
    requires Members(known, clients, registered, unregistered)
    ensures c !in known ==> Members(known + {c}, clients + {c}, registered + {c}, unregistered)
    ensures c in known ==> Members(known, clients - {c}, registered, unregistered + {c})
  {
  }

  lemma MembersStep(s: System, e: Event, registered: set<Client>, unregistered: set<Client>)
    requires Enabled(s, e) && Members(s.core.queues.Keys, s.core.clients, registered, unregistered)
    ensures Members(Next(s, e).core.queues.Keys, Next(s, e).core.clients,
                    registered + (if e.Register? then {e.client} else {}),
                    unregistered + (if e.Unregister? then {e.client} else {}))
  {
    assert registered + {} == registered && unregistered + {} == unregistered;
    if e.Register? || e.Unregister? {
      MembersGrow(s.core.queues.Keys, s.core.clients, registered, unregistered, e.client);
      MembersInLoop(s, e);
    } else if OfLoop(e) {
      MembersInLoop(s, e);
    } else {
      MembersElsewhere(s, e);
    }
  }

  /** In every state of every run, the clients are exactly those registered and not unregistered since. */
  lemma {:induction false} ClientsAreExact(states: seq<System>, events: seq<Event>, i: nat)
    requires IsRun(states, events) && i < |states|
    ensures Members(states[i].core.queues.Keys, states[i].core.clients, Registered(events[..i]), Unregistered(events[..i]))
  {
    if i > 0 {
      ClientsAreExact(states, events, i - 1);
      assert Enabled(states[i - 1], events[i - 1]) && states[i] == Next(states[i - 1], events[i - 1]);
      MembersStep(states[i - 1], events[i - 1], Registered(events[..i - 1]), Unregistered(events[..i - 1]));
      RegisteredGrows(events, i - 1);
    }
  }

  // ---------- what a client sees ----------

  /** a is b with some elements left out. */
  ghost predicate Subsequence<T>(a: seq<T>, b: seq<T>) {
    a == []
    || (b != [] && ((a[|a| - 1] == b[|b| - 1] && Subsequence(a[..|a| - 1], b[..|b| - 1]))
                    || Subsequence(a, b[..|b| - 1])))
  }

  lemma SubsequenceGrows<T>(a: seq<T>, b: seq<T>, x: T)
    requires Subsequence(a, b)
    ensures Subsequence(a, b + [x]) && Subsequence(a + [x], b + [x])
  {
    assert (b + [x])[..|b|] == b && (a + [x])[..|a|] == a;
  }

  /** The processed messages a client accepted are among all those it accepted, in the same order. */
  lemma {:induction false} SeenAmongAccepted(ledger: seq<Sent>, c: Client)
    ensures Subsequence(SeenMessages(ledger, c), AcceptedBy(ledger, c))
  {
    if ledger != [] {
      var before, x := ledger[..|ledger| - 1], ledger[|ledger| - 1];
      SeenAmongAccepted(before, c);
      var a, b := SeenMessages(before, c), AcceptedBy(before, c);
      assert a + [] == a && b + [] == b;
      SubsequenceGrows(a, b, x.message);
    }
  }

  ghost predicate Increasing(numbers: seq<nat>) {
    forall k, l | 0 <= k < l < |numbers| :: numbers[k] < numbers[l]
  }

  /** The offered numbers are joined + 1, joined + 2 and so on. */
  ghost predicate Consecutive(numbers: seq<nat>, joined: nat) {
    forall i | 0 <= i < |numbers| :: numbers[i] == joined + 1 + i
  }

  /** The accepted ones of consecutive numbers increase. */
  lemma {:induction false} SeenIncreases(ledger: seq<Sent>, c: Client, joined: nat)
    requires Consecutive(LiveTo(ledger, c), joined)
    ensures Increasing(Seen(ledger, c))
    ensures forall i | 0 <= i < |Seen(ledger, c)| :: joined < Seen(ledger, c)[i] <= joined + |LiveTo(ledger, c)|
  {
    if ledger != [] {
      var before, x := ledger[..|ledger| - 1], ledger[|ledger| - 1];
      var numbers := LiveTo(before, c);
      assert numbers <= LiveTo(ledger, c);
      SeenIncreases(before, c, joined);
      if x.client == c && x.source.Live? {
        assert LiveTo(ledger, c)[|numbers|] == x.source.n;
      }
    }
  }

  ghost predicate Truthful(ledger: seq<Sent>, processed: seq<Message>) {
    forall x | x in ledger && x.source.Live? :: 0 < x.source.n <= |processed| && x.message == processed[x.source.n - 1]
  }

  /** Each of them is the message processed under its number. */
  lemma {:induction false} SeenIsProcessed(ledger: seq<Sent>, c: Client, processed: seq<Message>)
    requires Truthful(ledger, processed)
    ensures |Seen(ledger, c)| == |SeenMessages(ledger, c)|
    ensures forall i | 0 <= i < |Seen(ledger, c)| ::
              && 0 < Seen(ledger, c)[i] <= |processed|
              && SeenMessages(ledger, c)[i] == processed[Seen(ledger, c)[i] - 1]
  {
    if ledger != [] {
      var before, x := ledger[..|ledger| - 1], ledger[|ledger| - 1];
      assert x in ledger;
      assert forall y | y in before :: y in ledger;
      SeenIsProcessed(before, c, processed);
    }
  }

  /**
   In every state of every run, for every client ever registered: what its WritePump took followed by
   what is still queued is exactly what was accepted, in order, and each send to it is counted once,
   as taken, queued or dropped.
   */
  lemma Conservation(states: seq<System>, events: seq<Event>, i: nat, c: Client)
    requires IsRun(states, events) && i < |states| && c in states[i].core.queues
    ensures var s := states[i];
            && c in s.taken
            && AcceptedBy(s.ledger, c) == s.taken[c] + s.core.queues[c].send.queue
            && OffersTo(s.ledger, c) == |s.taken[c]| + |s.core.queues[c].send.queue| + RejectedTo(s.ledger, c)
  {
    EveryStateIsSound(states, events, i);
    EveryOfferIsCounted(states[i].ledger, c);
  }

  /**
   The loop's messages among what the client got or will get are a subsequence of it; they are messages
   the loop processed after the client joined, in the order it processed them. While the client is
   connected and no broadcast is under way, it has been offered every one of these exactly once.
   */
  ghost predicate InOrder(s: System, c: Client)
    requires c in s.core.queues && c in s.taken && c in s.joined
  {
    var seen, offered := Seen(s.ledger, c), LiveTo(s.ledger, c);
    && Subsequence(SeenMessages(s.ledger, c), s.taken[c] + s.core.queues[c].send.queue)
    && Increasing(seen) && |seen| == |SeenMessages(s.ledger, c)|
    && (forall k | 0 <= k < |seen| ::
          s.joined[c] < seen[k] <= |s.processed| && SeenMessages(s.ledger, c)[k] == s.processed[seen[k] - 1])
    && Consecutive(offered, s.joined[c])
    && (c in s.core.clients && s.task.todo == {} ==> |offered| == |s.processed| - s.joined[c])
  }

  /** What the ledger alone says about the order of what a client was sent. */
  lemma LedgerOrder(ledger: seq<Sent>, c: Client, joined: nat, processed: seq<Message>)
    requires Consecutive(LiveTo(ledger, c), joined) && Truthful(ledger, processed)
    ensures var seen := Seen(ledger, c);
            && Subsequence(SeenMessages(ledger, c), AcceptedBy(ledger, c))
            && Increasing(seen) && |seen| == |SeenMessages(ledger, c)|
            && (forall k | 0 <= k < |seen| ::
                  joined < seen[k] <= |processed| && SeenMessages(ledger, c)[k] == processed[seen[k] - 1])
  {
    SeenAmongAccepted(ledger, c);
    SeenIncreases(ledger, c, joined);
    SeenIsProcessed(ledger, c, processed);
  }

  lemma InOrderFrom(s: System, c: Client)
    requires c in s.core.queues && c in s.taken && OfferedTo(s, c) && Truthful(s.ledger, s.processed)
    requires AcceptedBy(s.ledger, c) == s.taken[c] + s.core.queues[c].send.queue
    ensures InOrder(s, c)
  {
    LedgerOrder(s.ledger, c, s.joined[c], s.processed);
  }

  lemma SoundOrder(s: System, c: Client)
    requires Fifo(s) && Offered(s) && c in s.core.queues
    ensures c in s.taken && c in s.joined && InOrder(s, c)
  {
    assert OfferedTo(s, c);
    InOrderFrom(s, c);
  }

  lemma OrderOfDelivery(states: seq<System>, events: seq<Event>, i: nat, c: Client)
    requires IsRun(states, events) && i < |states| && c in states[i].core.queues
    ensures c in states[i].taken && c in states[i].joined && InOrder(states[i], c)
  {
    EveryStateIsSound(states, events, i);
    SoundOrder(states[i], c);
  }

  /** Elements common to both come in the same order. */
  ghost predicate SameOrder(x: seq<nat>, y: seq<nat>) {
    forall k: nat, l: nat, p: nat, q: nat | k < l < |x| && p < |y| && q < |y| && x[k] == y[p] && x[l] == y[q] :: p < q
  }

  lemma IncreasingAgree(x: seq<nat>, y: seq<nat>)
    requires Increasing(x) && Increasing(y)
    ensures SameOrder(x, y)
  {
    forall k: nat, l: nat, p: nat, q: nat | k < l < |x| && p < |y| && q < |y| && x[k] == y[p] && x[l] == y[q] ensures p < q {
      assert x[k] < x[l];
    }
  }

  /** No two clients see two messages of the loop in opposite orders. */
  lemma SameOrderForAll(states: seq<System>, events: seq<Event>, i: nat, c: Client, d: Client)
    requires IsRun(states, events) && i < |states| && c in states[i].core.queues && d in states[i].core.queues
    ensures SameOrder(Seen(states[i].ledger, c), Seen(states[i].ledger, d))
  {
    OrderOfDelivery(states, events, i, c);
    OrderOfDelivery(states, events, i, d);
    IncreasingAgree(Seen(states[i].ledger, c), Seen(states[i].ledger, d));
  }

  lemma RecordRoom(s: System, d: Client, source: Source, m: Message, c: Client)
    requires d in s.core.clients && d in s.core.queues && !AnyClosed(s.core.queues[d]) && c in s.core.queues
    ensures var s' := Record(s, d, source, m);
            var q, q' := s.core.queues[c].send.queue, s'.core.queues[c].send.queue;
            var more := OffersTo(s'.ledger, c) - OffersTo(s.ledger, c);
            && 0 <= more && |q'| <= |q| + more
            && (|q| + more <= SEND_CAPACITY ==> RejectedTo(s'.ledger, c) == RejectedTo(s.ledger, c))
  {
    LedgerGrows(s.ledger, Record(s, d, source, m).ledger[|s.ledger|], c);
  }

  /** One event enlarges a queue by no more than it offers, and drops nothing that there is room for. */
  lemma StepRoom(s: System, e: Event, c: Client)
    requires Lifecycle(s) && Enabled(s, e) && Fifo(s) && c in s.core.queues
    ensures c in Next(s, e).core.queues
    ensures var s', q, q' := Next(s, e), s.core.queues[c].send.queue, Next(s, e).core.queues[c].send.queue;
            var more := OffersTo(s'.ledger, c) - OffersTo(s.ledger, c);
            && 0 <= more && |q'| <= |q| + more
            && (|q| + more <= SEND_CAPACITY ==> RejectedTo(s'.ledger, c) == RejectedTo(s.ledger, c))
  {
    if LeavesSends(s, e) {
      if OfLoop(e) {
        LoopLeavesSends(s, e);
      } else {
        OthersLeaveSends(s, e);
      }
    } else {
      match e {
        case Register(_) =>
        case Take(_) =>
        case Visit(d) => RecordRoom(s, d, Live(|s.processed|), s.task.message, c);
        case Range(r, d) => RecordRoom(s, d, Remote, s.readers[r].message, c);
        case History(d, m) => RecordRoom(s, d, Replay, m, c);
      }
    }
  }

  /** From s to s', the queue grows by no more than is offered, and nothing is dropped that there is room for. */
  ghost predicate Roomy(s: System, s': System, c: Client) {
    && c in s.core.queues && c in s'.core.queues
    && var q, q' := s.core.queues[c].send.queue, s'.core.queues[c].send.queue;
       var more := OffersTo(s'.ledger, c) - OffersTo(s.ledger, c);
       && 0 <= more && |q'| <= |q| + more
       && (|q| + more <= SEND_CAPACITY ==> RejectedTo(s'.ledger, c) == RejectedTo(s.ledger, c))
  }

  lemma RoomyTwice(s: System, s': System, s'': System, c: Client)
    requires Roomy(s, s', c) && Roomy(s', s'', c)
    ensures Roomy(s, s'', c)
  {
  }

  lemma RunRoom(states: seq<System>, events: seq<Event>, j: nat, c: Client)
    requires IsRun(states, events) && j < |events| && c in states[j].core.queues
    ensures Roomy(states[j], states[j + 1], c)
  {
    EveryStateIsSound(states, events, j);
    assert states[j + 1] == Next(states[j], events[j]) && Enabled(states[j], events[j]);
    StepRoom(states[j], events[j], c);
  }

  lemma {:induction false} RoomMeanwhile(states: seq<System>, events: seq<Event>, i: nat, j: nat, c: Client)
    requires IsRun(states, events) && i <= j < |states| && c in states[i].core.queues
    ensures Roomy(states[i], states[j], c)
    decreases j
  {
    if i < j {
      RoomMeanwhile(states, events, i, j - 1, c);
      RunRoom(states, events, j - 1, c);
      RoomyTwice(states[i], states[j - 1], states[j], c);
    }
  }

  /**
   Between any two states of a run, as long as what is sent to a client fits beside what was waiting
   for it at first, nothing sent to it is dropped, however slow its WritePump is. For a client that
   has just been registered: a replay of at most 100 messages loses none if at most 156 other messages
   are sent meanwhile.
   */
  lemma NothingDroppedMeanwhile(states: seq<System>, events: seq<Event>, i: nat, j: nat, c: Client)
    requires IsRun(states, events) && i <= j < |states| && c in states[i].core.queues
    requires |states[i].core.queues[c].send.queue| + OffersTo(states[j].ledger, c) - OffersTo(states[i].ledger, c)
          <= SEND_CAPACITY
    ensures RejectedTo(states[j].ledger, c) == RejectedTo(states[i].ledger, c)
    ensures |AcceptedBy(states[j].ledger, c)| - |AcceptedBy(states[i].ledger, c)|
         == OffersTo(states[j].ledger, c) - OffersTo(states[i].ledger, c)
  {
    RoomMeanwhile(states, events, i, j, c);
    EveryOfferIsCounted(states[i].ledger, c);
    EveryOfferIsCounted(states[j].ledger, c);
  }

  /**
   In every state of every run: queues are closed exactly for the clients that were removed, no send
   or close ever panicked, the gauge is the number of clients, every online name leads to a connected
   client of that name, there are no more names than connections, and the drop counter is the number
   of broadcast sends that found a queue full.
   */
  lemma RunsAreSafe(states: seq<System>, events: seq<Event>, i: nat)
    requires IsRun(states, events) && i < |states|
    ensures var s := states[i].core;
            && !s.panicked && s.connections == |s.clients|
            && (forall c | c in s.queues :: (c in s.clients <==> !AnyClosed(s.queues[c])) && (c !in s.clients <==> AllClosed(s.queues[c])))
            && Registry(s) && s.onlineGauge == |s.online| <= |s.clients|
            && s.sendDrops == BroadcastDrops(states[i].ledger)
  {
    EveryStateIsSound(states, events, i);
    OnlineIsSmaller(states[i].core.online, states[i].core.clients);
  }

  ghost predicate DistinctNames(clients: set<Client>) {
    forall c, d | c in clients && d in clients && c != d :: c.Username != d.Username
  }

  ghost predicate NamesExact(s: Core) {
    s.online.Keys == Names(s.clients)
  }

  lemma NamesStep(s: System, e: Event)
    requires NamesExact(s.core) && Enabled(s, e) && DistinctNames(s.core.clients)
    requires e.Unregister? ==> e.client in s.core.clients
    ensures NamesExact(Next(s, e).core)
  {
    match e
    case Register(c) => RegisterKeepsNames(s.core, c);
    case Unregister(c) => UnregisterKeepsNamesIff(s.core, c);
    case _ =>
  }

  /** Nobody has two connections, and only a connected client is unregistered. */
  ghost predicate OneConnectionEach(s: System, e: Event) {
    DistinctNames(s.core.clients) && (e.Unregister? ==> e.client in s.core.clients)
  }

  /**
   If no user ever has two connections and each connection is unregistered at most once, the online
   names are exactly those of the connections.
   */
  lemma {:induction false} OnlineIsExact(states: seq<System>, events: seq<Event>, i: nat)
    requires IsRun(states, events) && i < |states|
    requires forall j | 0 <= j < i :: OneConnectionEach(states[j], events[j])
    ensures NamesExact(states[i].core)
  {
    if i > 0 {
      OnlineIsExact(states, events, i - 1);
      var s, e := states[i - 1], events[i - 1];
      assert OneConnectionEach(s, e) && Enabled(s, e) && states[i] == Next(s, e);
      NamesStep(s, e);
    }
  }

  // ---------- exactly when the assumptions on runs are needed ----------

  /** In a sound state, a history send panics exactly when its client has been removed meanwhile. */
  lemma HistoryPanicsIff(s: System, c: Client, m: Message)
    requires Lifecycle(s) && c in s.core.queues
    ensures Next(s, History(c, m)).core.panicked <==> c !in s.core.clients
  {
  }

  /** As in the runs considered so far, except that a replay may go on after its client was removed. */
  predicate Admissible(s: System, e: Event) {
    if e.History? then Possible(s, e) else Enabled(s, e)
  }

  ghost predicate IsLooseRun(states: seq<System>, events: seq<Event>) {
    && |states| == |events| + 1 && states[0] == START
    && forall i | 0 <= i < |events| :: Admissible(states[i], events[i]) && states[i + 1] == Next(states[i], events[i])
  }

  predicate LateReplay(s: System, e: Event) {
    e.History? && e.client !in s.core.clients
  }

  lemma PanicStaysInLoop(s: System, e: Event)
    requires Possible(s, e) && OfLoop(e) && s.core.panicked
    ensures Next(s, e).core.panicked
  {
    match e
    case Visit(c) => VisitKeepsRegistry(s, c);
    case Register(_) =>
    case Unregister(_) =>
    case Process(_) =>
    case ProcessFile(_) =>
  }

  lemma PanicStaysElsewhere(s: System, e: Event)
    requires Possible(s, e) && !OfLoop(e) && s.core.panicked
    ensures Next(s, e).core.panicked
  {
  }

  /** A step of such a run panics, or leaves the lifecycle sound if it was sound before. */
  lemma LooseStep(s: System, e: Event)
    requires Admissible(s, e) && (s.core.panicked || Lifecycle(s))
    ensures Next(s, e).core.panicked <==> s.core.panicked || LateReplay(s, e)
    ensures Next(s, e).core.panicked || Lifecycle(Next(s, e))
  {
    if s.core.panicked {
      if OfLoop(e) { PanicStaysInLoop(s, e); } else { PanicStaysElsewhere(s, e); }
    } else if LateReplay(s, e) {
      HistoryPanicsIff(s, e.client, e.message);
    } else {
      LifecycleStep(s, e);
    }
  }

  /**
   Over whole runs: the server has panicked exactly when a replay sent something to a client that had
   been removed by then.
   */
  lemma {:induction false} PanicsExactlyOnLateReplay(states: seq<System>, events: seq<Event>, i: nat)
    requires IsLooseRun(states, events) && i < |states|
    ensures states[i].core.panicked || Lifecycle(states[i])
    ensures states[i].core.panicked <==> exists j :: 0 <= j < i && LateReplay(states[j], events[j])
  {
    if i > 0 {
      PanicsExactlyOnLateReplay(states, events, i - 1);
      LooseStep(states[i - 1], events[i - 1]);
    }
  }

  lemma RemovalKeepsRest(s: System, c: Client)
    requires Lifecycle(s) && s.task.todo == {} && c in s.core.clients && c in s.taken
    ensures var s' := Next(s, Unregister(c));
            && Connected(s'.core) && s'.core.clients == s.core.clients - {c} && s'.readers == s.readers
            && s'.taken == s.taken && s'.joined == s.joined && s'.core.queues.Keys == s.core.queues.Keys
            && s'.task.todo == s'.core.clients && !s'.task.Messages?
            && s'.core.queues[c].send.closed && s'.core.queues[c].files.closed && s'.core.queues[c].online.closed
  {
    RemoveConnected(s.core, c);
  }

  lemma ClosedPanics(s: System, r: nat, c: Client)
    requires r in s.readers && c in s.core.queues
    requires s.core.queues[c].send.closed && s.core.queues[c].files.closed && s.core.queues[c].online.closed
    ensures RangeClient(s, r, c).core.panicked
  {
  }

  /**
   Without the lock: removing a client while other goroutines range over the clients leaves their work
   sound exactly when none of them still has that client before it. Otherwise the next of them to reach
   it sends on a closed channel.
   */
  lemma RemovalNeedsTheLockIff(s: System, c: Client)
    requires Lifecycle(s) && s.task.todo == {} && c in s.core.clients && c in s.taken
    ensures Lifecycle(Next(s, Unregister(c))) <==> forall r | r in s.readers :: c !in s.readers[r].todo
    ensures forall r | r in s.readers && c in s.readers[r].todo ::
              var s' := Next(s, Unregister(c));
              r in s'.readers && c in s'.core.queues && RangeClient(s', r, c).core.panicked
  {
    RemovalKeepsRest(s, c);
    var s' := Next(s, Unregister(c));
    forall r | r in s.readers && c in s.readers[r].todo ensures RangeClient(s', r, c).core.panicked {
      ClosedPanics(s', r, c);
    }
  }

  /** Registering keeps the lifecycle exactly for a client that was never registered before. */
  lemma RegisterOnceIff(s: System, c: Client)
    requires Lifecycle(s)
    ensures Connected(Next(s, Register(c)).core) <==> c !in s.core.queues
  {
    AddConnected(s.core, c);
  }

  /**
   The refresh of either gauge is harmless exactly when the number it writes, sampled earlier, still is the
   number there is.
   */
  lemma RefreshHarmlessIff(s: System, sampled: nat)
    requires Lifecycle(s) && Registry(s.core)
    ensures Lifecycle(Next(s, RefreshGauge(sampled))) <==> sampled == |s.core.clients|
    ensures Registry(Next(s, RefreshOnline(sampled)).core) <==> sampled == |s.core.online|
  {
  }

  // ---------- runs that show it ----------

  predicate Follows(s: System, e: Event, s': System) {
    Enabled(s, e) && s' == Next(s, e)
  }

  lemma StepOfGrown(states: seq<System>, events: seq<Event>, e: Event, s': System, i: nat)
    requires |states| == |events| + 1 && i <= |events| && Follows(states[|events|], e, s')
    requires i < |events| ==> Follows(states[i], events[i], states[i + 1])
    ensures Follows((states + [s'])[i], (events + [e])[i], (states + [s'])[i + 1])
  {
    assert i < |events| ==> (states + [s'])[i + 1] == states[i + 1] && (events + [e])[i] == events[i];
    assert (states + [s'])[i] == states[i] && (states + [s'])[|states|] == s';
  }

  lemma RunGrows(states: seq<System>, events: seq<Event>, e: Event)
    requires IsRun(states, events) && Enabled(states[|events|], e)
    ensures IsRun(states + [Next(states[|events|], e)], events + [e])
  {
    var s' := Next(states[|events|], e);
    forall i | 0 <= i < |events + [e]| ensures Follows((states + [s'])[i], (events + [e])[i], (states + [s'])[i + 1]) {
      assert i < |events| ==> Follows(states[i], events[i], states[i + 1]);
      StepOfGrown(states, events, e, s', i);
    }
  }

  /** One client comes and is shown the list. */
  lemma OneConnects(c: Client) returns (states: seq<System>, events: seq<Event>)
    ensures IsRun(states, events) && |events| == 2
    ensures var s := states[2];
            && s.core.clients == {c} && s.core.online == map[c.Username := c] && s.task.todo == {} && s.readers == map[]
            && c in s.core.queues && c in s.taken && s.core.queues.Keys == {c} && s.taken.Keys == {c}
  {
    states, events := [START], [];
    var s1 := Next(START, Register(c));
    assert s1.core.clients == {c};
    RunGrows(states, events, Register(c));
    states, events := states + [s1], events + [Register(c)];
    var s2 := Next(s1, Visit(c));
    RunGrows(states, events, Visit(c));
    states, events := states + [s2], events + [Visit(c)];
    assert s2.task.todo == {};
  }

  lemma LeavesEmpty(s: System, c: Client)
    requires s.core.clients == {c} && c in s.core.queues && c in s.taken
    ensures Next(s, Unregister(c)).core.clients == {} && Next(s, Unregister(c)).core.queues[c].send.closed
    ensures Next(s, Unregister(c)).taken == s.taken && c in Next(s, Unregister(c)).core.queues
  {
  }

  lemma LateSendPanics(s: System, c: Client, m: Message)
    requires c in s.core.queues && c in s.taken && s.core.queues[c].send.closed
    ensures Admissible(s, History(c, m)) && Next(s, History(c, m)).core.panicked
  {
  }

  /** A replay that outlives its client: it comes, it goes, and the replay sends on. */
  lemma LateReplayRun(c: Client, m: Message) returns (states: seq<System>, events: seq<Event>)
    ensures IsLooseRun(states, events) && states[|states| - 1].core.panicked
  {
    states, events := OneConnects(c);
    var s2 := states[2];
    LeavesEmpty(s2, c);
    RunGrows(states, events, Unregister(c));
    var s3 := Next(s2, Unregister(c));
    states, events := states + [s3], events + [Unregister(c)];
    LateSendPanics(s3, c, m);
    RunThenOne(states, events, History(c, m));
    states, events := states + [Next(s3, History(c, m))], events + [History(c, m)];
  }

  lemma RunThenOne(states: seq<System>, events: seq<Event>, e: Event)
    requires IsRun(states, events) && Admissible(states[|events|], e)
    ensures IsLooseRun(states + [Next(states[|events|], e)], events + [e])
  {
    var states', events' := states + [Next(states[|events|], e)], events + [e];
    forall i | 0 <= i < |events'| ensures Admissible(states'[i], events'[i]) && states'[i + 1] == Next(states'[i], events'[i]) {
      if i < |events| {
        assert states'[i] == states[i] && states'[i + 1] == states[i + 1] && events'[i] == events[i];
        assert Enabled(states[i], events[i]);
      }
    }
  }

  /**
   Gauges gone stale: the periodic goroutine samples when nobody is there, a client comes, and the old
   numbers are written. Both gauges then show nobody, with one client connected and online.
   */
  lemma StaleGaugesRun(c: Client) returns (states: seq<System>, events: seq<Event>)
    ensures IsRun(states, events) && |START.core.clients| == 0 == |START.core.online|
    ensures var s := Next(Next(states[|events|], RefreshOnline(0)), RefreshGauge(0)).core;
            s.onlineGauge == 0 == s.connections && |s.online| == 1 == |s.clients|
  {
    states, events := OneConnects(c);
  }

  /**
   Two connections of one user: when the first is closed, the user is still connected and no longer
   online.
   */
  lemma TwoConnectionsRun(c: Client, d: Client) returns (states: seq<System>, events: seq<Event>)
    requires c != d && c.Username == d.Username
    ensures IsRun(states, events)
    ensures var s := states[|events|].core; d in s.clients && d.Username !in s.online
  {
    states, events := OneConnects(c);
    var s2 := states[2];
    RunGrows(states, events, Register(d));
    var s3 := Next(s2, Register(d));
    states, events := states + [s3], events + [Register(d)];
    assert s3.core.clients == {c, d} && s3.task.todo == {c, d};
    RunGrows(states, events, Visit(c));
    var s4 := Next(s3, Visit(c));
    states, events := states + [s4], events + [Visit(c)];
    RunGrows(states, events, Visit(d));
    var s5 := Next(s4, Visit(d));
    states, events := states + [s5], events + [Visit(d)];
    assert s5.task.todo == {} && s5.core.clients == {c, d};
    RunGrows(states, events, Unregister(c));
    states, events := states + [Next(s5, Unregister(c))], events + [Unregister(c)];
  }

  // ---------- events in a row ----------

  /** The events can follow each other from s and end in s'. */
  ghost predicate Goes(s: System, events: seq<Event>, s': System)
    decreases |events|
  {
    if events == [] then s == s' else Enabled(s, events[0]) && Goes(Next(s, events[0]), events[1..], s')
  }

  lemma {:induction false} GoesOn(s: System, events: seq<Event>, s': System, more: seq<Event>, s'': System)
    requires Goes(s, events, s') && Goes(s', more, s'')
    ensures Goes(s, events + more, s'')
    decreases |events|
  {
    if events == [] {
      assert events + more == more;
    } else {
      GoesOn(Next(s, events[0]), events[1..], s', more, s'');
      assert (events + more)[1..] == events[1..] + more;
    }
  }
}
