/**
 What the branches of the event loop do to a manager and to the queue of each client, spelled out: who gets
 what, at which place of the queue, and what stays as it is.
 */
module Deliveries {
  import opened Types
  import opened Clients
  import opened Broadcasts
  import Spec = ManagerSpec

  /** The channel takes the value as its last one, if it has room, and is otherwise as it was. */
  predicate Takes<T(==)>(before: Channel<T>, after: Channel<T>, capacity: nat, x: T) {
    after.closed == before.closed && after.queue == if |before.queue| < capacity then before.queue + [x] else before.queue
  }

  /** Only queues and drop counters may differ. */
  ghost predicate SameManager(a: Spec.Core, b: Spec.Core) {
    && a.clients == b.clients && a.online == b.online && a.connections == b.connections && a.onlineGauge == b.onlineGauge
    && a.panicked == b.panicked && a.queues.Keys == b.queues.Keys
  }

  /** A chat message becomes the last one in the queue of every connected client that has room for it. */
  lemma MessageReachesEverybody(s: Spec.Core, m: Message, c: Client)
    requires Spec.Connected(s) && c in s.queues
    ensures var s' := Handled(s, Spec.Process(m));
            && SameManager(s, s') && s'.fileDrops == s.fileDrops
            && s'.sendDrops == s.sendDrops + |set d | d in s.clients && |s.queues[d].send.queue| >= 256|
            && s'.queues[c].files == s.queues[c].files && s'.queues[c].online == s.queues[c].online
            && if c in s.clients then Takes(s.queues[c].send, s'.queues[c].send, 256, m)
               else s'.queues[c].send == s.queues[c].send
  {
    assert FullSends(s.queues, s.clients) == set d | d in s.clients && |s.queues[d].send.queue| >= 256;
  }

  /** So does a file event, in a queue of its own. */
  lemma FileReachesEverybody(s: Spec.Core, e: FileEvent, c: Client)
    requires Spec.Connected(s) && c in s.queues
    ensures var s' := Handled(s, Spec.ProcessFile(e));
            && SameManager(s, s') && s'.sendDrops == s.sendDrops
            && s'.fileDrops == s.fileDrops + |set d | d in s.clients && |s.queues[d].files.queue| >= 32|
            && s'.queues[c].send == s.queues[c].send && s'.queues[c].online == s.queues[c].online
            && if c in s.clients then Takes(s.queues[c].files, s'.queues[c].files, 32, e)
               else s'.queues[c].files == s.queues[c].files
  {
    assert FullFiles(s.queues, s.clients) == set d | d in s.clients && |s.queues[d].files.queue| >= 32;
  }

  /** A list becomes the last one in the queue of every connected client that has room for it. */
  lemma ListReachesEverybody(s: Spec.Core, data: OnlineData, c: Client)
    requires Spec.Connected(s) && c in s.queues
    ensures Open(s, s.clients)
    ensures var s' := OnlineAll(s, s.clients, data);
            && SameManager(s, s') && s'.sendDrops == s.sendDrops && s'.fileDrops == s.fileDrops
            && s'.queues[c].send == s.queues[c].send && s'.queues[c].files == s.queues[c].files
            && if c in s.clients then Takes(s.queues[c].online, s'.queues[c].online, 8, data)
               else s'.queues[c].online == s.queues[c].online
  {
  }

  /**
   After a registration every connected client, the new one among them, has as the last list in its queue
   the names that lead to a connection now, and their number, if there was room for it.
   */
  lemma RegistrationReachesEverybody(s: Spec.Core, c: Client, d: Client)
    requires Spec.Connected(s) && c !in s.queues && (d in s.queues || d == c)
    ensures var s', names := Handled(s, Spec.Register(c)), s.online.Keys + {c.Username};
            && s'.clients == s.clients + {c} && s'.online == s.online[c.Username := c]
            && s'.connections == s.connections + 1 && s'.onlineGauge == |names|
            && s'.sendDrops == s.sendDrops && s'.fileDrops == s.fileDrops && !s'.panicked
            && s'.queues.Keys == s.queues.Keys + {c}
            && var q := if d == c then FRESH_QUEUES else s.queues[d];
               && s'.queues[d].send == q.send && s'.queues[d].files == q.files
               && if d in s.clients || d == c then Takes(q.online, s'.queues[d].online, 8, OnlineData(|names|, names))
                  else s'.queues[d].online == q.online
  {
    var added := Added(s, c, d);
    Spec.AddConnected(s, c);
    ListReachesEverybody(added, Spec.OnlineNow(added), d);
  }

  lemma OneMoreName(online: map<string, Client>, name: string, c: Client)
    ensures online[name := c].Keys == online.Keys + {name} && |online[name := c]| == |online.Keys + {name}|
  {
    assert online[name := c].Keys == online.Keys + {name};
    assert |online[name := c]| == |online[name := c].Keys|;
  }

  lemma OneNameLess(online: map<string, Client>, name: string)
    ensures (online - {name}).Keys == online.Keys - {name} && |online - {name}| == |online.Keys - {name}|
  {
    assert (online - {name}).Keys == online.Keys - {name};
    assert |online - {name}| == |(online - {name}).Keys|;
  }

  lemma Added(s: Spec.Core, c: Client, d: Client) returns (added: Spec.Core)
    requires !s.panicked && c !in s.queues && (d in s.queues || d == c)
    ensures added == Spec.AddClient(s, c)
    ensures added.clients == s.clients + {c} && added.online == s.online[c.Username := c]
    ensures added.connections == s.connections + 1
    ensures added.sendDrops == s.sendDrops && added.fileDrops == s.fileDrops && !added.panicked
    ensures added.queues.Keys == s.queues.Keys + {c} && added.queues[d] == (if d == c then FRESH_QUEUES else s.queues[d])
    ensures var names := s.online.Keys + {c.Username};
            added.onlineGauge == |names| && Spec.OnlineNow(added) == OnlineData(|names|, names)
  {
    OneMoreName(s.online, c.Username, c);
    added := Spec.AddClient(s, c);
  }

  lemma Removed(s: Spec.Core, c: Client, d: Client) returns (removed: Spec.Core)
    requires Spec.Connected(s) && c in s.queues && d in s.queues
    ensures removed == Spec.RemoveClient(s, c) && Spec.Connected(removed)
    ensures removed.clients == s.clients - {c} && removed.online == s.online - {c.Username}
    ensures removed.connections == s.connections - (if c in s.clients then 1 else 0)
    ensures removed.sendDrops == s.sendDrops && removed.fileDrops == s.fileDrops && removed.queues.Keys == s.queues.Keys
    ensures d != c ==> removed.queues[d] == s.queues[d]
    ensures d == c ==> removed.queues[d] == if c in s.clients then Spec.CloseAll(s.queues[c]) else s.queues[c]
    ensures var names := s.online.Keys - {c.Username};
            removed.onlineGauge == |names| && Spec.OnlineNow(removed) == OnlineData(|names|, names)
  {
    Spec.RemoveConnected(s, c);
    OneNameLess(s.online, c.Username);
    removed := Spec.RemoveClient(s, c);
    if c !in s.clients {
      assert s.clients - {c} == s.clients;
    }
  }

  /**
   After a removal the client's channels are closed with what is in them, and every client that is still
   connected has as the last list in its queue the names without that of the client, if there was room.
   */
  lemma RemovalReachesEverybody(s: Spec.Core, c: Client, d: Client)
    requires Spec.Connected(s) && c in s.queues && d in s.queues
    ensures var s', names := Handled(s, Spec.Unregister(c)), s.online.Keys - {c.Username};
            && s'.clients == s.clients - {c} && s'.online == s.online - {c.Username}
            && s'.connections == s.connections - (if c in s.clients then 1 else 0) && s'.onlineGauge == |names|
            && s'.sendDrops == s.sendDrops && s'.fileDrops == s.fileDrops && !s'.panicked
            && s'.queues.Keys == s.queues.Keys
            && s'.queues[d].send.queue == s.queues[d].send.queue && s'.queues[d].files.queue == s.queues[d].files.queue
            && (s'.queues[d].send.closed <==> d !in s'.clients) && (s'.queues[d].files.closed <==> d !in s'.clients)
            && (s'.queues[d].online.closed <==> d !in s'.clients)
            && if d in s'.clients then Takes(s.queues[d].online, s'.queues[d].online, 8, OnlineData(|names|, names))
               else s'.queues[d].online.queue == s.queues[d].online.queue
  {
    var removed := Removed(s, c, d);
    ListReachesEverybody(removed, Spec.OnlineNow(removed), d);
  }

  /** A message of a replay goes to one client. If it is dropped nobody counts it. */
  lemma ReplayReachesOne(s: Spec.System, c: Client, m: Message, d: Client)
    requires Spec.Lifecycle(s) && c in s.core.clients && d in s.core.queues
    ensures var s' := Spec.Next(s, Spec.History(c, m));
            && SameManager(s.core, s'.core) && s'.core.sendDrops == s.core.sendDrops && s'.core.fileDrops == s.core.fileDrops
            && s'.task == s.task && s'.readers == s.readers
            && if d == c then Takes(s.core.queues[c].send, s'.core.queues[c].send, 256, m)
               else s'.core.queues[d] == s.core.queues[d]
  {
  }

  /** Closing a channel twice is a panic: a removal panics exactly for a connected client of which one is closed. */
  lemma RemovalPanicsIff(s: Spec.Core, c: Client)
    requires c in s.queues && !s.panicked
    ensures Spec.RemoveClient(s, c).panicked
       <==> c in s.clients && (s.queues[c].send.closed || s.queues[c].files.closed || s.queues[c].online.closed)
  {
  }

  /** The reading ends take the oldest values and leave the others. */
  lemma OldestIsTaken(s: Spec.System, c: Client)
    requires c in s.core.queues && c in s.taken
    ensures var a, b := s.core.queues[c].send.queue, Spec.Next(s, Spec.Take(c)).core.queues[c].send.queue;
            b == if a == [] then [] else a[1..]
    ensures var a, b := s.core.queues[c].files.queue, Spec.Next(s, Spec.TakeFile(c)).core.queues[c].files.queue;
            b == if a == [] then [] else a[1..]
    ensures var a, b := s.core.queues[c].online.queue, Spec.Next(s, Spec.TakeOnline(c)).core.queues[c].online.queue;
            b == if a == [] then [] else a[1..]
  {
  }

  /** The names of the connections, if nobody has two, are as many as there are connections. */
  lemma {:induction false} AsManyNames(clients: set<Client>)
    requires Spec.DistinctNames(clients)
    ensures |Spec.Names(clients)| == |clients|
  {
    if clients != {} {
      var c :| c in clients;
      AsManyNames(clients - {c});
      assert Spec.Names(clients) == Spec.Names(clients - {c}) + {c.Username};
    }
  }

  /**
   In every run in which no user has two connections: what the clients are told after a client has come or
   gone are exactly the names of the connections there are then, and their number.
   */
  lemma ListIsTheConnections(states: seq<Spec.System>, events: seq<Spec.Event>, e: Spec.Event, d: Client)
    requires Spec.IsRun(states, events) && Spec.Enabled(states[|events|], e) && (e.Register? || e.Unregister?)
    requires forall j | 0 <= j < |events| :: Spec.OneConnectionEach(states[j], events[j])
    requires Spec.OneConnectionEach(states[|events|], e)
    requires var s := states[|events|].core;
             Spec.DistinctNames(if e.Register? then s.clients + {e.client} else s.clients - {e.client})
    ensures var s := states[|events|].core;
            && Spec.Connected(s) && TakenByLoop(s, e)
            && var s' := Handled(s, e);
               d in s'.clients && d in s'.queues && (d in s.queues ==> |s.queues[d].online.queue| < 8) ==>
                 var q := s'.queues[d].online.queue;
                 && q != [] && q[|q| - 1].count == |s'.clients|
                 && q[|q| - 1].users == set x | x in s'.clients :: x.Username
  {
    var s := states[|events|].core;
    Spec.EveryStateIsSound(states, events, |events|);
    Spec.OnlineIsExact(states, events, |events|);
    var s' := Handled(s, e);
    if d in s'.clients && d in s'.queues && (d in s.queues ==> |s.queues[d].online.queue| < 8) {
      TheList(s, e, d);
    }
  }

  lemma TheList(s: Spec.Core, e: Spec.Event, d: Client)
    requires Spec.Connected(s) && TakenByLoop(s, e) && (e.Register? || e.Unregister?)
    requires Spec.DistinctNames(s.clients) && Spec.NamesExact(s) && (e.Unregister? ==> e.client in s.clients)
    requires Spec.DistinctNames(if e.Register? then s.clients + {e.client} else s.clients - {e.client})
    requires var s' := Handled(s, e); d in s'.clients && d in s'.queues && (d in s.queues ==> |s.queues[d].online.queue| < 8)
    ensures var s' := Handled(s, e);
            var q := s'.queues[d].online.queue;
            && q != [] && q[|q| - 1].count == |s'.clients|
            && q[|q| - 1].users == set x | x in s'.clients :: x.Username
  {
    if e.Register? {
      ListAfterRegistration(s, e.client, d);
    } else {
      ListAfterRemoval(s, e.client, d);
    }
    AsManyNames(Handled(s, e).clients);
  }

  lemma OneMoreClient(clients: set<Client>, c: Client)
    ensures Spec.Names(clients + {c}) == Spec.Names(clients) + {c.Username}
  {
  }

  lemma ListAfterRegistration(s: Spec.Core, c: Client, d: Client)
    requires Spec.Connected(s) && c !in s.queues && (d in s.clients || d == c) && Spec.NamesExact(s)
    requires d in s.queues ==> |s.queues[d].online.queue| < 8
    ensures var s', names := Handled(s, Spec.Register(c)), Spec.Names(s.clients + {c});
            && s'.clients == s.clients + {c} && d in s'.queues
            && var q := s'.queues[d].online.queue; q != [] && q[|q| - 1] == OnlineData(|names|, names)
  {
    RegistrationReachesEverybody(s, c, d);
    OneMoreClient(s.clients, c);
  }

  lemma ListAfterRemoval(s: Spec.Core, c: Client, d: Client)
    requires Spec.Connected(s) && c in s.clients && d in s.clients && d != c && Spec.NamesExact(s) && Spec.DistinctNames(s.clients)
    requires |s.queues[d].online.queue| < 8
    ensures var s', names := Handled(s, Spec.Unregister(c)), Spec.Names(s.clients - {c});
            && s'.clients == s.clients - {c} && d in s'.queues
            && var q := s'.queues[d].online.queue; q != [] && q[|q| - 1] == OnlineData(|names|, names)
  {
    RemovalReachesEverybody(s, c, d);
    Spec.UnregisterKeepsNamesIff(s, c);
    assert Spec.Names(s.clients - {c}) == s.online.Keys - {c.Username};
  }
}
