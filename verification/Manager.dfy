/**
 The connection manager itself. Every method is one branch of its event loop, or the body of one of
 the goroutines it starts; what each does to clients, queues and metrics is stated in the terms of the
 state machine, and what it does to the cache and the table in the terms of the serial system.
 */
module Managers {
  import opened Types
  import opened Clients
  import opened CacheSpec
  import opened MemoryCaches
  import opened MessageRepo
  import opened History
  import opened Broadcasts
  import Spec = ManagerSpec
  import Serial = CacheRefinement
  import Wire
  import Utf8

  /**
   offered is what is shown of the source: its presentable messages in the order of time, and in the
   source's own order if that is already the order of time.
   */
  ghost predicate IsShown(offered: seq<Message>, source: seq<Message>, now: Time) {
    var all := Presentable(source, now);
    Ascending(offered) && multiset(offered) == multiset(all) && (Ascending(all) ==> offered == all)
  }

  /** The list a replay starts from: the cached messages, or the newest rows in reading order. */
  ghost function HistorySource(s: Serial.System, found: seq<Row>, ttl: Duration): seq<Message> {
    match ReadWindow(s.window, s.now, ttl)
    case Some(ms) => ms
    case None => FromRows(Reverse(found))
  }

  /** What is offered is exactly what may be shown of the source, with missing names and times filled in. */
  lemma OfferedIsExact(offered: seq<Message>, source: seq<Message>, now: Time)
    requires IsShown(offered, source, now)
    ensures forall p :: p in offered <==> exists m | m in source :: SeenAs(m, p, now)
  {
    PresentableIsExact(source, now);
    forall p ensures p in offered <==> p in Presentable(source, now) {
      assert p in offered <==> p in multiset(offered);
      assert p in Presentable(source, now) <==> p in multiset(Presentable(source, now));
    }
  }

  class Manager {
    var Clients: set<Client>
    var OnlineUsers: map<string, Client>
    const Cache: MemoryCache
    const MsgRepo: MessageRepository
    const ServerID: string
    const redisEnabled: bool
    var published: seq<Wire.Envelope>
    var activeConnections: int
    var onlineGauge: nat
    var sendQueueFull: nat
    var fileQueueFull: nat
    ghost var Known: set<Client>

    constructor (cache: MemoryCache, repo: MessageRepository, serverID: string, redisEnabled: bool)
      ensures State() == Spec.EMPTY_CORE && Known == {} && published == []
      ensures Cache == cache && MsgRepo == repo && ServerID == serverID && this.redisEnabled == redisEnabled
    {
      Clients, OnlineUsers, Known, published := {}, map[], {}, [];
      activeConnections, onlineGauge, sendQueueFull, fileQueueFull := 0, 0, 0, 0;
      Cache, MsgRepo, ServerID, this.redisEnabled := cache, repo, serverID, redisEnabled;
    }

    /** The manager, its metrics and the queues of all clients it has met. */
    ghost function State(): Spec.Core
      reads this, Known
    {
      Spec.Core(Clients, OnlineUsers, QueuesNow(), activeConnections, onlineGauge, sendQueueFull, fileQueueFull, false)
    }

    ghost function QueuesNow(): map<Client, Queues>
      reads this`Known, Known
    {
      map c | c in Known :: c.State()
    }

    /** Changing the queues of one client changes one entry. */
    twostate lemma OneChanged(c: Client)
      requires Known == old(Known) && c in Known
      requires forall d | d in Known && d != c :: d.State() == old(d.State())
      ensures QueuesNow() == old(QueuesNow())[c := c.State()]
    {
    }

    /** A new client adds one entry. */
    twostate lemma OneAdded(c: Client)
      requires c !in old(Known) && Known == old(Known) + {c}
      requires forall d | d in Known :: d.State() == old(d.State())
      ensures QueuesNow() == old(QueuesNow())[c := c.State()] && c !in old(QueuesNow())
    {
    }

    ghost predicate Valid()
      reads this, Known
    {
      Spec.Connected(State())
    }

    /** One non-blocking send, as broadcastToLocalClients does it. */
    method OfferMessage(client: Client, message: Message)
      requires Valid() && client in Clients
      modifies this`sendQueueFull, client`Send
      ensures State() == Spec.SendTo(old(State()), client, message, true) && Valid()
    {
      Spec.SendConnected(State(), client, message, true);
      assert client.State() == State().queues[client];
      if |client.Send.queue| < 256 {
        client.Send := client.Send.(queue := client.Send.queue + [message]);
      } else {
        sendQueueFull := sendQueueFull + 1;
      }
      OneChanged(client);
    }

    method BroadcastToLocalClients(message: Message)
      requires Valid()
      modifies this`sendQueueFull, Known
      ensures Open(old(State()), Clients)
      ensures State() == SendAll(old(State()), Clients, message) && Valid()
    {
      ghost var before := State();
      var todo := Clients;
      while todo != {}
        invariant todo <= Clients && Valid() && Open(State(), todo)
        invariant SendAll(State(), todo, message) == SendAll(before, Clients, message)
      {
        var client :| client in todo;
        SendOneThenRest(State(), todo, client, message);
        OfferMessage(client, message);
        todo := todo - {client};
      }
      NobodyLeft(State(), message, FileEvent("", "", "", "", "", 0), OnlineData(0, {}));
    }

    /** One non-blocking send of a file event. */
    method OfferFile(client: Client, event: FileEvent)
      requires Valid() && client in Clients
      modifies this`fileQueueFull, client`SendFileEvent
      ensures State() == Spec.FileTo(old(State()), client, event) && Valid()
    {
      Spec.FileConnected(State(), client, event);
      assert client.State() == State().queues[client];
      if |client.SendFileEvent.queue| < 32 {
        client.SendFileEvent := client.SendFileEvent.(queue := client.SendFileEvent.queue + [event]);
      } else {
        fileQueueFull := fileQueueFull + 1;
      }
      OneChanged(client);
    }

    method BroadcastFileEventToLocalClients(event: FileEvent)
      requires Valid()
      modifies this`fileQueueFull, Known
      ensures Open(old(State()), Clients)
      ensures State() == FileAll(old(State()), Clients, event) && Valid()
    {
      ghost var before := State();
      var todo := Clients;
      while todo != {}
        invariant todo <= Clients && Valid() && Open(State(), todo)
        invariant FileAll(State(), todo, event) == FileAll(before, Clients, event)
      {
        var client :| client in todo;
        FileOneThenRest(State(), todo, client, event);
        OfferFile(client, event);
        todo := todo - {client};
      }
      NobodyLeft(State(), Message(0, "", "", 0, false), event, OnlineData(0, {}));
    }

    /** One non-blocking send of the online list; a full queue only logs. */
    method OfferOnline(client: Client, data: OnlineData)
      requires Valid() && client in Clients
      modifies client`SendOnline
      ensures State() == Spec.OnlineTo(old(State()), client, data) && Valid()
    {
      Spec.OnlineConnected(State(), client, data);
      assert client.State() == State().queues[client];
      if |client.SendOnline.queue| < 8 {
        client.SendOnline := client.SendOnline.(queue := client.SendOnline.queue + [data]);
      }
      OneChanged(client);
    }

    method BroadcastOnlineUsers()
      requires Valid()
      modifies Known
      ensures Open(old(State()), Clients)
      ensures State() == OnlineAll(old(State()), Clients, OnlineData(|OnlineUsers.Keys|, OnlineUsers.Keys)) && Valid()
      ensures Spec.OnlineNow(old(State())) == OnlineData(|OnlineUsers.Keys|, OnlineUsers.Keys)
    {
      ghost var before := State();
      var users := OnlineUsers.Keys;
      var data := OnlineData(|users|, users);
      assert |OnlineUsers| == |users|;
      var todo := Clients;
      while todo != {}
        invariant todo <= Clients && Valid() && Open(State(), todo)
        invariant OnlineAll(State(), todo, data) == OnlineAll(before, Clients, data)
      {
        var client :| client in todo;
        OnlineOneThenRest(State(), todo, client, data);
        OfferOnline(client, data);
        todo := todo - {client};
      }
      NobodyLeft(State(), Message(0, "", "", 0, false), FileEvent("", "", "", "", "", 0), data);
    }

    /** The first half of a registration: the maps and the gauges. */
    method Enter(client: Client)
      requires client !in Known && client.State() == FRESH_QUEUES
      modifies this`Clients, this`OnlineUsers, this`activeConnections, this`onlineGauge, this`Known
      ensures Known == old(Known) + {client}
      ensures State() == Spec.AddClient(old(State()), client)
    {
      activeConnections := activeConnections + 1;
      Clients := Clients + {client};
      OnlineUsers := OnlineUsers[client.Username := client];
      onlineGauge := |OnlineUsers|;
      Known := Known + {client};
      OneAdded(client);
    }

    method Register(client: Client)
      requires Valid() && client !in Known && client.State() == FRESH_QUEUES
      modifies this, Known, client
      ensures Valid() && Known == old(Known) + {client} && published == old(published)
      ensures client !in old(State()).queues && State() == Handled(old(State()), Spec.Register(client))
    {
      Spec.AddConnected(State(), client);
      assert client !in State().queues;
      Enter(client);
      BroadcastOnlineUsers();
    }

    /** A registered client leaves the set and its channels are closed. */
    method Disconnect(client: Client)
      requires client in Known && (client in Clients ==> !Spec.AnyClosed(client.State()))
      modifies this`Clients, this`activeConnections, client
      ensures client in old(State()).queues && State() == Spec.CloseClient(old(State()), client)
    {
      assert QueuesNow()[client] == client.State();
      if client in Clients {
        Clients := Clients - {client};
        Close(client);
        OneChanged(client);
        activeConnections := activeConnections - 1;
      }
    }

    method Forget(name: string)
      modifies this`OnlineUsers, this`onlineGauge
      ensures State() == old(State()).(online := old(OnlineUsers) - {name}, onlineGauge := |old(OnlineUsers) - {name}|)
    {
      OnlineUsers := OnlineUsers - {name};
      onlineGauge := |OnlineUsers|;
    }

    /** The first half of a removal. */
    method Leave(client: Client)
      requires client in Known && (client in Clients ==> !Spec.AnyClosed(client.State()))
      modifies this`Clients, this`OnlineUsers, this`activeConnections, this`onlineGauge, client
      ensures client in old(State()).queues && State() == Spec.RemoveClient(old(State()), client)
    {
      Disconnect(client);
      Forget(client.Username);
    }

    method Close(client: Client)
      modifies client
      ensures client.State() == Spec.CloseAll(old(client.State()))
    {
      client.Send := client.Send.(closed := true);
      client.SendFileEvent := client.SendFileEvent.(closed := true);
      client.SendOnline := client.SendOnline.(closed := true);
    }

    method Unregister(client: Client)
      requires Valid() && client in Known
      modifies this, Known
      ensures Valid() && Known == old(Known) && published == old(published)
      ensures client in old(State()).queues && State() == Handled(old(State()), Spec.Unregister(client))
    {
      assert client in State().queues && State().queues[client] == client.State();
      Spec.RemoveConnected(State(), client);
      Leave(client);
      BroadcastOnlineUsers();
    }

    // ---------- messages ----------

    /** What a handled message puts on the Redis channel. */
    ghost function Publishes(p: Wire.Payload): seq<Wire.Envelope> {
      if redisEnabled then [Wire.Envelope(ServerID, Wire.Wrap(Wire.AsBytes, p))] else []
    }

    method PublishToRedis(p: Wire.Payload)
      modifies this`published
      ensures published == old(published) + Publishes(p)
      ensures published == old(published)
                           + if redisEnabled then [Wire.Envelope(ServerID, Wire.JBase64(Wire.PayloadJson(p)))] else []
    {
      if redisEnabled {
        published := published + [Wire.Envelope(ServerID, Wire.JBase64(Wire.PayloadJson(p)))];
      }
    }

    /**
     The broadcast branch of the loop. The result is the message that the saving and the caching
     goroutine are started with, if any.
     */
    method HandleBroadcast(raw: Message, now: Time) returns (started: Option<Message>)
      requires Valid()
      modifies this`sendQueueFull, this`published, Known
      ensures Valid() && started == Serial.Effective(raw, now)
      ensures started == if raw.text == "" then None
                         else Some(Message(raw.id, if raw.username == "" then "system" else raw.username, raw.text,
                                           if raw.timestamp == 0 then now else raw.timestamp, raw.edited))
      ensures State() == if started.None? then old(State()) else Handled(old(State()), Spec.Process(started.value))
      ensures published == old(published) + if started.None? then [] else Publishes(Wire.Chat(started.value))
    {
      var message := raw;
      if message.text == "" {
        return None;
      }
      if message.username == "" {
        message := message.(username := "system");
      }
      if message.timestamp == ZERO_TIME {
        message := message.(timestamp := now);
      }
      Share(message);
      return Some(message);
    }

    /** The other servers first, then the local clients. */
    method Share(message: Message)
      requires Valid()
      modifies this`sendQueueFull, this`published, Known
      ensures Valid() && State() == Handled(old(State()), Spec.Process(message))
      ensures published == old(published) + Publishes(Wire.Chat(message))
    {
      PublishToRedis(Wire.Chat(message));
      BroadcastToLocalClients(message);
    }

    method HandleFileEvent(event: FileEvent)
      requires Valid()
      modifies this`fileQueueFull, this`published, Known
      ensures Valid() && State() == Handled(old(State()), Spec.ProcessFile(event))
      ensures published == old(published) + Publishes(Wire.Notice(event))
    {
      PublishToRedis(Wire.Notice(event));
      BroadcastFileEventToLocalClients(event);
    }

    /** A publication of another server goes to the local clients and nowhere else. */
    method HandleRedis(envelope: Wire.Envelope)
      requires Valid()
      modifies this`sendQueueFull, this`fileQueueFull, Known
      ensures Valid() && Open(old(State()), Clients)
      ensures match Wire.React(ServerID, envelope)
              case ShowMessage(m) => State() == SendAll(old(State()), Clients, m)
              case ShowEvent(e) => State() == FileAll(old(State()), Clients, e)
              case _ => State() == old(State())
    {
      assert Open(State(), Clients);
      if envelope.serverID == ServerID {
        return;
      }
      var message := Wire.DecodeMessage(envelope.data);
      if message.Some? {
        BroadcastToLocalClients(message.value);
        return;
      }
      var event := Wire.DecodeEvent(envelope.data);
      if event.Some? {
        BroadcastFileEventToLocalClients(event.value);
      }
    }

    // ---------- cache and table ----------

    /** The cache and the table as the serial system sees them. */
    ghost function Serially(now: Time): Serial.System
      reads Cache, MsgRepo
    {
      Serial.System(MsgRepo.State(), Cache.State().window, now)
    }

    /** written says whether the database takes what is written to it. A failure is only logged. */
    method SaveMessageToDB(message: Message, written: bool)
      modifies MsgRepo`rows
      ensures MsgRepo.State() == Insert(old(MsgRepo.State()), message, written)
    {
      var saved := MsgRepo.Create(message, written);
    }

    method UpdateCache(message: Message, now: Time)
      modifies Cache`messages, Cache`messagesTime, Cache`hits, Cache`misses
      ensures Cache.State().window
           == Window(Serial.Updated(ReadWindow(old(Cache.State().window), now, Cache.ttl), message), now)
    {
      var cached := Cache.GetRecentMessages(now);
      if cached.Some? {
        var updated := cached.value + [message];
        if |updated| > 100 {
          updated := updated[|updated| - 100..];
        }
        Cache.SetRecentMessages(updated, now);
      } else {
        Cache.SetRecentMessages([message], now);
      }
    }

    /** A broadcast whose two goroutines run to completion is one step of the serial system. */
    method BroadcastSerially(raw: Message, written: bool, now: Time)
      requires Valid()
      modifies this`sendQueueFull, this`published, Known
      modifies MsgRepo`rows, Cache`messages, Cache`messagesTime, Cache`hits, Cache`misses
      ensures Valid()
      ensures Serially(now) == Serial.Next(old(Serially(now)), Serial.Broadcast(raw, written), Cache.ttl)
    {
      var started := HandleBroadcast(raw, now);
      if started.Some? {
        SaveMessageToDB(started.value, written);
        UpdateCache(started.value, now);
      }
    }

    /**
     The edit branch of the loop. An edit of a row by its author, with a text the table takes, is shown to
     everybody with the number, the author, the new text, the time of the edit and the flag; no other is.
     */
    method HandleEdit(id: nat, newText: string, username: string, written: bool, now: Time)
      requires Valid()
      modifies this`sendQueueFull, Known, MsgRepo`rows, Cache`messages, Cache`messagesTime
      ensures Valid()
      ensures !written ==> State() == old(State()) && Serially(now) == old(Serially(now))
      ensures written ==> Serially(now) == Serial.Next(old(Serially(now)), Serial.EditBy(id, newText, username), Cache.ttl)
      ensures written ==>
                match Serial.Rebroadcast(old(Serially(now)), id, newText, username)
                case None => State() == old(State())
                case Some(m) => State() == Handled(old(State()), Spec.Process(m))
      ensures State() == if written && 0 < id <= |old(MsgRepo.rows)| && old(MsgRepo.rows)[id - 1].username == username
                            && Utf8.Storable(newText)
                         then Handled(old(State()), Spec.Process(Message(id, username, newText, now, true)))
                         else old(State())
    {
      var updated := MsgRepo.UpdateMessage(id, newText, username, written);
      if updated.Err? {
        return;
      }
      Announce(Message(id, username, newText, now, true), now);
    }

    /** An honoured edit empties the cache and is shown to everybody here. */
    method Announce(edited: Message, now: Time)
      requires Valid()
      modifies this`sendQueueFull, Known, Cache`messages, Cache`messagesTime
      ensures Valid() && State() == Handled(old(State()), Spec.Process(edited))
      ensures Cache.State().window == EMPTY_WINDOW
    {
      Cache.InvalidateMessages();
      assert Cache.State() == Apply(old(Cache.State()), InvalidateMessages, now);
      BroadcastToLocalClients(edited);
    }

    /** The first half of a replay: what to show, from the cache or, failing that, from the table. */
    method LoadHistory(found: array<Row>, now: Time) returns (messages: seq<Message>)
      requires IsNewest(MsgRepo.rows, HISTORY_LIMIT, found[..])
      modifies found, Cache`messages, Cache`messagesTime, Cache`hits, Cache`misses
      ensures messages == HistorySource(old(Serially(now)), old(found[..]), Cache.ttl)
      ensures Serially(now) == Serial.Next(old(Serially(now)), Serial.Load(old(found[..])), Cache.ttl)
    {
      messages := [];
      var cached := Cache.GetRecentMessages(now);
      if cached.Some? {
        messages := cached.value;
      }
      if |messages| == 0 {
        MsgRepo.GetRecent(100, found);
        for i := 0 to found.Length
          invariant messages == FromRows(found[..i])
        {
          messages := messages + [FromRow(found[i])];
        }
        assert found[..found.Length] == found[..];
        if |messages| > 0 {
          Cache.SetRecentMessages(messages, now);
        }
      }
    }

    method OfferHistory(client: Client, message: Message)
      requires Valid() && client in Clients
      modifies client`Send
      ensures State() == Spec.SendTo(old(State()), client, message, false) && Valid()
    {
      Spec.SendConnected(State(), client, message, false);
      assert client.State() == State().queues[client];
      if |client.Send.queue| < 256 {
        client.Send := client.Send.(queue := client.Send.queue + [message]);
      }
      OneChanged(client);
    }

    /** The second part: filtering and sorting. */
    method PrepareHistory(messages: seq<Message>, now: Time) returns (offered: seq<Message>)
      ensures IsShown(offered, messages, now)
      ensures forall p :: p in offered <==> exists m | m in messages :: SeenAs(m, p, now)
    {
      var valid := Filter(messages, now);
      var a := new Message[|valid|](i requires 0 <= i < |valid| => valid[i]);
      assert a[..] == valid;
      SortByTime(a);
      offered := a[..];
      OfferedIsExact(offered, messages, now);
    }

    method ChooseHistory(found: array<Row>, now: Time) returns (offered: seq<Message>)
      requires IsNewest(MsgRepo.rows, HISTORY_LIMIT, found[..])
      modifies found, Cache`messages, Cache`messagesTime, Cache`hits, Cache`misses
      ensures Serially(now) == Serial.Next(old(Serially(now)), Serial.Load(old(found[..])), Cache.ttl)
      ensures IsShown(offered, HistorySource(old(Serially(now)), old(found[..]), Cache.ttl), now)
    {
      var messages := LoadHistory(found, now);
      offered := PrepareHistory(messages, now);
    }

    /** The third part: one non-blocking send for each message. */
    method Replay(client: Client, offered: seq<Message>)
      requires Valid() && client in Clients
      modifies client`Send
      ensures Valid() && client in old(State()).queues && State() == Replayed(old(State()), client, offered)
    {
      ghost var before := State();
      assert client in before.queues;
      for i := 0 to |offered|
        invariant Valid() && State() == Replayed(before, client, offered[..i])
      {
        OfferHistory(client, offered[i]);
        assert offered[..i + 1][..i] == offered[..i];
      }
      assert offered[..|offered|] == offered;
    }

    /**
     The history replay of a client that is still registered: it is offered the presentable messages
     of the source in time order, in the source's own order if that is already the order of time.
     */
    method SendMessageHistory(client: Client, found: array<Row>, now: Time) returns (offered: seq<Message>)
      requires Valid() && client in Clients
      requires IsNewest(MsgRepo.rows, HISTORY_LIMIT, found[..])
      modifies client`Send, found, Cache`messages, Cache`messagesTime, Cache`hits, Cache`misses
      ensures Valid() && Serially(now) == Serial.Next(old(Serially(now)), Serial.Load(old(found[..])), Cache.ttl)
      ensures IsShown(offered, HistorySource(old(Serially(now)), old(found[..]), Cache.ttl), now)
      ensures forall p :: p in offered <==> exists m | m in HistorySource(old(Serially(now)), old(found[..]), Cache.ttl) :: SeenAs(m, p, now)
      ensures client in old(State()).queues && State() == Replayed(old(State()), client, offered)
    {
      ghost var source := HistorySource(Serially(now), found[..], Cache.ttl);
      offered := ChooseHistory(found, now);
      OfferedIsExact(offered, source, now);
      Replay(client, offered);
    }

    method GetStats() returns (clients: nat, online: nat)
      ensures clients == |State().clients| && online == |State().online|
    {
      return |Clients|, |OnlineUsers|;
    }
  }

  // ---------- what a new client is shown ----------

  lemma TailIsAscending(rows: seq<Row>)
    requires StrictlyOrdered(rows) && forall r | r in rows :: r.timestamp != ZERO_TIME
    ensures Ascending(FromRows(LastN(rows, HISTORY_LIMIT)))
    ensures forall m | m in FromRows(LastN(rows, HISTORY_LIMIT)) :: m.timestamp != ZERO_TIME
  {
    var tail := LastN(rows, HISTORY_LIMIT);
    assert forall i | 0 <= i < |tail| :: tail[i] == rows[|rows| - |tail| + i] && tail[i] in rows;
  }

  /**
   On a cache miss, with growing timestamps, what a replay offers is, in order, the presentable ones
   among the last min(100, n) rows.
   */
  lemma MissShowsTheTail(rows: seq<Row>, found: seq<Row>, now: Time)
    requires StrictlyOrdered(rows) && IsNewest(rows, HISTORY_LIMIT, found)
    requires forall r | r in rows :: r.timestamp != ZERO_TIME
    ensures FromRows(Reverse(found)) == FromRows(LastN(rows, HISTORY_LIMIT))
    ensures var shown := Presentable(FromRows(Reverse(found)), now); Ascending(shown) && |shown| <= HISTORY_LIMIT
  {
    NewestIsTheTail(rows, HISTORY_LIMIT, found);
    TailIsAscending(rows);
    PresentableIsAscending(FromRows(LastN(rows, HISTORY_LIMIT)), now);
  }

  /** Nothing is to be hidden or filled in. */
  predicate AllComplete(ms: seq<Message>) {
    forall m | m in ms :: m.text !in {"", "null", "undefined"} && m.username != "" && m.timestamp != 0
  }

  predicate AllRowsComplete(rows: seq<Row>) {
    forall r | r in rows :: r.content !in {"", "null", "undefined"} && r.username != "" && r.timestamp != 0
  }

  /**
   When the cache is cold or expired, a replay offers the last min(100, n) rows as they are, if none of them
   is to be hidden and they have names: number, author, text, time and flag.
   */
  lemma MissReplaysTheRows(s: Serial.System, found: seq<Row>, offered: seq<Message>, ttl: Duration, i: nat)
    requires ttl < MAX_DURATION && (s.window.messages == [] || s.now - s.window.time > ttl)
    requires StrictlyOrdered(s.tables.rows) && IsNewest(s.tables.rows, HISTORY_LIMIT, found)
    requires AllRowsComplete(s.tables.rows)
    requires IsShown(offered, HistorySource(s, found, ttl), s.now)
    ensures |offered| == if |s.tables.rows| < 100 then |s.tables.rows| else 100
    ensures i < |offered| ==>
              var r := s.tables.rows[|s.tables.rows| - |offered| + i];
              offered[i] == Message(r.id, r.username, r.content, r.timestamp, r.edited)
  {
    SourceOnMiss(s, found, ttl);
    RowsAreReplayed(s.tables.rows, found, HistorySource(s, found, ttl), offered, s.now, i);
  }

  lemma RowsAreReplayed(rows: seq<Row>, found: seq<Row>, source: seq<Message>, offered: seq<Message>, now: Time, i: nat)
    requires StrictlyOrdered(rows) && IsNewest(rows, HISTORY_LIMIT, found) && AllRowsComplete(rows)
    requires source == FromRows(Reverse(found)) && IsShown(offered, source, now)
    ensures |offered| == if |rows| < 100 then |rows| else 100
    ensures i < |offered| ==>
              var r := rows[|rows| - |offered| + i];
              offered[i] == Message(r.id, r.username, r.content, r.timestamp, r.edited)
  {
    TailIsReplayed(rows, found, offered, now);
    TailAt(rows, offered, i);
  }

  lemma SourceOnMiss(s: Serial.System, found: seq<Row>, ttl: Duration)
    requires ttl < MAX_DURATION && (s.window.messages == [] || s.now - s.window.time > ttl)
    ensures HistorySource(s, found, ttl) == FromRows(Reverse(found))
  {
  }

  lemma TailAt(rows: seq<Row>, offered: seq<Message>, i: nat)
    requires offered == FromRows(LastN(rows, HISTORY_LIMIT))
    ensures |offered| == if |rows| < 100 then |rows| else 100
    ensures i < |offered| ==>
              var r := rows[|rows| - |offered| + i];
              offered[i] == Message(r.id, r.username, r.content, r.timestamp, r.edited)
  {
  }

  lemma TailIsReplayed(rows: seq<Row>, found: seq<Row>, offered: seq<Message>, now: Time)
    requires StrictlyOrdered(rows) && IsNewest(rows, HISTORY_LIMIT, found) && IsShown(offered, FromRows(Reverse(found)), now)
    requires AllRowsComplete(rows)
    ensures offered == FromRows(LastN(rows, HISTORY_LIMIT))
  {
    MissShowsTheTail(rows, found, now);
    TailIsComplete(rows, LastN(rows, HISTORY_LIMIT));
    CompleteIsUnchanged(FromRows(LastN(rows, HISTORY_LIMIT)), now);
  }

  /** When the cache is warm, a replay offers what is in it and nothing else: as it is, if it is fit and in order. */
  lemma HitReplaysTheCache(s: Serial.System, found: seq<Row>, offered: seq<Message>, ttl: Duration)
    requires ttl < MAX_DURATION && s.window.messages != [] && s.now - s.window.time <= ttl
    requires IsShown(offered, HistorySource(s, found, ttl), s.now)
    ensures forall p :: p in offered <==> exists m | m in s.window.messages :: SeenAs(m, p, s.now)
    ensures AllComplete(s.window.messages) && Ascending(s.window.messages) ==> offered == s.window.messages
  {
    OfferedIsExact(offered, s.window.messages, s.now);
    if AllComplete(s.window.messages) {
      CompleteIsUnchanged(s.window.messages, s.now);
    }
  }

  lemma TailIsComplete(rows: seq<Row>, tail: seq<Row>)
    requires tail == LastN(rows, HISTORY_LIMIT)
    requires AllRowsComplete(rows)
    ensures forall m | m in FromRows(tail) :: m.text !in {"", "null", "undefined"} && m.username != "" && m.timestamp != 0
  {
    forall m | m in FromRows(tail) ensures m.text !in {"", "null", "undefined"} && m.username != "" && m.timestamp != 0 {
      var j :| 0 <= j < |tail| && FromRows(tail)[j] == m;
      assert tail[j] == rows[|rows| - |tail| + j] && tail[j] in rows;
    }
  }
}
