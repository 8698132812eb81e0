# Pigeongram: a verified model

Pigeongram is a chat server. Its state lives in five places: the WebSocket manager with its clients and
their bounded queues, the cache of recent messages in front of the message table, the exchange between
servers through Redis, the session cache in front of the session table, and the object keys under which
files are stored. This project models these in Dafny and proves what holds of them over whole runs.

Check it with `dafny verify dfyconfig.toml`.

## How it is built

Code that changes state step by step is a class or a loop here as well (`MemoryCache`, `RedisCache`,
`MessageRepository`, `SessionRepository`, `Handlers`, `Manager`, `Client`, `Bucket`, the in-place reversal
and sort, the chains of replacements). Each method is proved equal to a function of the old state. Those
functions make up state machines, and the properties of runs are lemmas about the machines.

| file | content |
|---|---|
| `Types.dfy` | messages, time, saturating differences of times, the expiry test |
| `Utf8.dfy`, `CodePoints.dfy` | texts as bytes: well-formed UTF-8, what JSON makes of other bytes, cutting, trimming, and what all this is in characters |
| `CacheSpec.dfy`, `MemoryCache.dfy` | the in-memory cache: window of 100 messages, tables with lifetimes, cleanup |
| `RedisCache.dfy` | the Redis cache over a store of expiring keys, and when the two caches agree |
| `MessageRepo.dfy`, `History.dfy` | the message table and what a new client is shown of it |
| `CacheRefinement.dfy` | cache against table when every broadcast, edit and load is one step |
| `CacheInterleaving.dfy` | the same cache when reads and writes of all goroutines interleave |
| `CacheAndTable.dfy` | that cache beside a table that is saved to and edited by the same goroutines |
| `Clients.dfy`, `ManagerSpec.dfy` | clients, queues and the event loop as a machine whose broadcasts visit one client at a time while the other goroutines run |
| `Broadcasts.dfy`, `Deliveries.dfy`, `Manager.dfy` | whole broadcasts and replays, what they put into each queue, and the manager's methods |
| `Wire.dfy`, `Cluster.dfy` | the envelope between servers, and N servers over a lossy ordered channel |
| `ReadPump.dfy` | from a client's frame to a chat message or an edit request |
| `Sessions.dfy` | login, registration, requests, logout, expiry |
| `Locks.dfy`, `Deadlocks.dfy` | the locks of cache and manager, with read-write locks that prefer writers, and exactly who can deadlock |
| `Strings.dfy`, `FileNames.dfy`, `Storage.dfy` | path and string functions, file names, object keys, the bucket |

## What the code does not do

These follow from the code as it is. The lemmas named say when the promised behaviour holds, most of them
exactly when.

- Other servers never show anything. The README of the repository (lines 211-213) says that events received
  from another server are broadcast to local clients. The publisher marshals the payload as a byte slice,
  which JSON writes as a base64 string (section 4 of RFC 4648), and the receiver decodes that string as an
  object and fails: `Cluster.NothingCrossesAsBytes`, `Wire.MessageArrivesIff`. With raw embedding, file
  events would be taken for chat messages: `Wire.EventsReadAsMessages`.
- A broadcast that finds the cache cold or expired stores that one message, and clients that connect later
  get it as the whole history: `CacheRefinement.BroadcastCompleteIff`, `ColdBroadcastHidesHistory`.
- A message is cached and shown whether or not it can be saved: `CacheRefinement.BroadcastRefinesIff`. Of what
  registered clients send, PostgreSQL refuses texts with U+0000 and texts that the limit of 10000 bytes cuts
  inside a character: `ChatIsSavedIff`, `NulIsCachedButNotSaved`, `BrokenIsCachedButNotSaved`.
- Two cache updates can lose a message, and an update or a history load can undo an edit's invalidation:
  `CacheInterleaving.LaterWriteKeepsIff`, `OldVersionReturnsIff`; runs that do: `LostUpdateRun`, `TwoRunsBack`.
- A history replay panics if its client is removed meanwhile: `ManagerSpec.PanicsExactlyOnLateReplay`,
  `LateReplayRun`.
- A user with two connections disappears from the online list when either is closed:
  `ManagerSpec.UnregisterKeepsNamesIff`, `TwoConnectionsRun`.
- The periodic refresh writes both gauges, connections and online users, after it has given back the lock
  under which it counted or without any, and can leave wrong numbers in both: `ManagerSpec.RefreshHarmlessIff`,
  `StaleGaugesRun`.
- `MemoryCache.AddMessage` renews an expired list where `RedisCache.AddMessage` starts afresh:
  `RedisCaches.AddsAgreeIff`. Nothing in the repository calls either `AddMessage`.
- `MemoryCache.GetStats` takes two locks in the opposite order of the readers and can deadlock:
  `Deadlocks.DeadlockIff`, `Locks.StatisticsCanDeadlock`. Nothing in the repository calls it; nor does anything
  call `SessionRepository.Cleanup`, whose effect `Sessions.MaintenanceIsInvisible` states.
- A registration ignores a failed session insertion, and a slow request can revive a session after its
  logout: `Sessions.RegistrationBackedIff`, `AcceptedAfterLogoutIff`, `LateWriteRevives`.
- A file name whose extension is longer than 200 bytes makes the upload request panic:
  `FileNames.UploadPanicsIff`, `LongExtensionPanics`. A shorter one can be cut inside a character:
  `TruncatedIsWellFormedIff`. A user name with a slash is not read back from its keys:
  `Storage.UserReadBackIff`.

## Model

| member | source | states |
|---|---|---|
| `Types.StaleIsArithmetic` | repository/cache/memory.go:66-69 | saturation of the 64-bit time difference is never visible in the expiry test, except for the largest representable lifetime |
| `Utf8.RepairIff` | internal/websocket/manager.go:490-499 | what JSON makes of a string is always well-formed UTF-8, and is the string itself exactly when that was well-formed |
| `Utf8.PrefixIff` | internal/websocket/client.go:170-171 | a prefix of a well-formed text is well-formed exactly when the next byte does not continue a character |
| `CodePoints.WellFormedIff` | repository/postgres/message_repo.go:33-35 | a byte string is well-formed exactly when it is the encoding of some sequence of code points other than surrogates (section 3 of RFC 3629) |
| `CodePoints.StorableIff` | repository/postgres/message_repo.go:33-35 | a text column takes exactly the encodings of code points other than U+0000 |
| `CodePoints.RepairIsExact` | internal/websocket/manager.go:490-499 | in JSON encoded characters stay as they are and each byte with which no character starts becomes U+FFFD |
| `CodePoints.TrimIsExact` | internal/websocket/client.go:163-163 | white space, in the sense of the Unicode property, around a text that neither starts nor ends with it is trimmed, and nothing else |
| `CacheSpec.WindowOverRun` | repository/cache/memory.go:99-123 | over any run of `AddMessage` from a duplicate-free list of at most 100, the list stays duplicate-free on (username, text, time) and is exactly the newest 100 of the starting list followed by the admitted arrivals |
| `CacheSpec.NewestIsHeld` | repository/cache/memory.go:104-119 | after any run of `AddMessage` the last message offered is in the list, whether it was appended or already there |
| `CacheSpec.AdditionIsSpelled` | repository/cache/memory.go:99-123 | a message with the author, text and time of one that is there changes nothing; any other goes to the end of the list, which is cut to 100 and renewed |
| `CacheSpec.UserIsTheLastStored` | repository/cache/memory.go:138-170 | over any sequence of calls: the answer about a user is what was stored last, until its lifetime is over or it is invalidated |
| `CacheSpec.SessionIsTheLastStored` | repository/cache/memory.go:174-206 | the same for sessions |
| `CacheSpec.MessagesAreTheLastStored` | repository/cache/memory.go:62-134 | the same for the messages, an empty list being as good as none |
| `CacheSpec.CleanupIsSpelled` | repository/cache/memory.go:246-275 | a pass leaves exactly the users, sessions and messages that have not outlived their lifetime |
| `CacheSpec.CleanupIsInvisible` | repository/cache/memory.go:246-275 | a cleanup pass changes no answer of any later sequence of get, set and invalidate calls on messages, users and sessions |
| `CacheSpec.SplitCleanupOnlyMisses` | repository/cache/memory.go:246-275 | the two sweeps, the age check and the clearing of a pass may fall anywhere between later calls: every answer on users and sessions is as without the pass, every answer on messages the same or a miss |
| `CacheSpec.PiecesAreThePass` | repository/cache/memory.go:246-275 | the pieces with nothing in between are the whole pass |
| `CacheSpec.AddMessageSeesCleanup` | repository/cache/memory.go:113-121 | adding a message right after a pass shows the same list as without the pass exactly when there were no expired messages to discard (or the lifetime is negative): `AddMessage` renews an expired list |
| `MemoryCaches.MemoryCache.UpdateStats` | repository/cache/memory.go:210-219 | counts one hit or one miss |
| `MemoryCaches.MemoryCache.GetRecentMessages` | repository/cache/memory.go:62-82 | a miss for an expired or an empty list, otherwise the whole list; exactly one hit or miss is counted, and a hit exactly for an answer |
| `MemoryCaches.MemoryCache.SetRecentMessages` | repository/cache/memory.go:85-96 | replaces the list and its time and nothing else |
| `MemoryCaches.MemoryCache.AddMessage` | repository/cache/memory.go:99-123 | the search loop finds a duplicate exactly when there is one, and then nothing changes; otherwise the message is appended, the list cut to its last 100 and its time renewed |
| `MemoryCaches.MemoryCache.InvalidateMessages` | repository/cache/memory.go:125-134 | empties the list and resets its time to the zero time |
| `MemoryCaches.MemoryCache.GetUser` | repository/cache/memory.go:138-150 | a miss for an absent or expired user, otherwise the stored one, with one hit or miss counted |
| `MemoryCaches.MemoryCache.SetUser` | repository/cache/memory.go:152-162 | stores the user with the current time |
| `MemoryCaches.MemoryCache.InvalidateUser` | repository/cache/memory.go:164-170 | removes the user and no other |
| `MemoryCaches.MemoryCache.GetSession` | repository/cache/memory.go:174-186 | a miss for an absent or expired session, otherwise its username, with one hit or miss counted |
| `MemoryCaches.MemoryCache.SetSession` | repository/cache/memory.go:188-198 | stores the session with the current time |
| `MemoryCaches.MemoryCache.InvalidateSession` | repository/cache/memory.go:200-206 | removes the session and no other |
| `MemoryCaches.MemoryCache.Cleanup` | repository/cache/memory.go:246-275 | deleting while iterating leaves exactly the fresh users and sessions, and the messages are cleared exactly when they are expired |
| `RedisCaches.RenderIsInjective` | repository/cache/redis.go:64-74 | the message key, user keys and session keys never coincide, whatever the prefix, names and identifiers |
| `RedisCaches.RedisUserIsTheLastStored` | repository/cache/redis.go:151-179 | over any sequence of calls: the answer about a user is the name stored last without the password, until it expires, if it ever does, or is invalidated |
| `RedisCaches.RedisSessionIsTheLastStored` | repository/cache/redis.go:183-211 | the same for sessions |
| `RedisCaches.RedisMessagesAreTheLastStored` | repository/cache/redis.go:78-147 | the same for the messages |
| `RedisCaches.RedisCache.GetRecentMessages` | repository/cache/redis.go:78-94 | the stored list, a miss when the key is absent or expired, a failure when the value is not a message list |
| `RedisCaches.RedisCache.SetRecentMessages` | repository/cache/redis.go:96-108 | stores the list under its key with a fresh expiry time |
| `RedisCaches.RedisCache.AddMessage` | repository/cache/redis.go:111-143 | after expiry the list starts afresh with the message; a duplicate changes nothing; otherwise the message is appended, the list cut to its last 100 and stored again; a failed read changes nothing |
| `RedisCaches.RedisCache.InvalidateMessages` | repository/cache/redis.go:145-147 | removes the message key only |
| `RedisCaches.RedisCache.GetUser` | repository/cache/redis.go:151-166 | the stored user without a password, or a miss, or a failure |
| `RedisCaches.RedisCache.SetUser` | repository/cache/redis.go:168-175 | stores the user without the password, with a fresh expiry time |
| `RedisCaches.RedisCache.InvalidateUser` | repository/cache/redis.go:177-179 | removes the user key only |
| `RedisCaches.RedisCache.GetSession` | repository/cache/redis.go:183-198 | the stored session, or a miss, or a failure |
| `RedisCaches.RedisCache.SetSession` | repository/cache/redis.go:200-207 | stores the session with a fresh expiry time |
| `RedisCaches.RedisCache.InvalidateSession` | repository/cache/redis.go:209-211 | removes the session key only |
| `RedisCaches.CachesAgree` | repository/cache/redis.go:78-211 | from matching contents, for every sequence of calls on messages, users without password and sessions whose strings are well-formed UTF-8, that stores no empty list, reads nothing at the exact expiry instant and adds nothing to an expired list, both caches give the same answers |
| `RedisCaches.FreshCachesAgree` | repository/cache/redis.go:78-211 | the same for two caches that start empty |
| `RedisCaches.ReadsAgreeIff` | repository/cache/memory.go:66-74 | two matching message lists are read alike exactly when the list is empty or the read is not at the very instant of expiry |
| `RedisCaches.SetsAgreeIff` | repository/cache/memory.go:85-96 | after storing a list both caches answer alike exactly when the list is not empty and all its authors and texts are well-formed UTF-8, which is what JSON keeps |
| `RedisCaches.AddsAgreeIff` | repository/cache/memory.go:113-121 | adding a message keeps the caches matching exactly when its author and text are well-formed UTF-8 and the stored list is empty or has not expired |
| `MessageRepo.MessageRepository.Create` | repository/postgres/message_repo.go:23-37 | a message becomes the last row, unedited, with the next number, exactly when its author is registered, its text is well-formed UTF-8 without U+0000 and the database does not fail; otherwise nothing changes and the call fails |
| `MessageRepo.MessageRepository.UpdateMessage` | repository/postgres/message_repo.go:40-55 | succeeds exactly for an existing row of the requester, a new text that is well-formed UTF-8 without U+0000 and a database in order, and then changes the text and the edited flag of that row and nothing else |
| `MessageRepo.MessageRepository.GetRecent` | repository/postgres/message_repo.go:58-77 | turns the newest rows round in place into time order; with strictly growing times the result is exactly the last rows of the table |
| `MessageRepo.ReverseInPlace` | repository/postgres/message_repo.go:71-74 | the two-index loop reverses the slice |
| `MessageRepo.ReversedIsOldestFirst` | repository/postgres/message_repo.go:61-74 | every answer of the descending query, reversed, is in time order and has the same rows |
| `MessageRepo.NewestIsTheTail` | repository/postgres/message_repo.go:61-74 | when times grow strictly the query has one possible answer, and reversed it is the last rows of the table in their order |
| `History.Filter` | internal/websocket/manager.go:274-286 | keeps the messages whose text is not empty, "null" or "undefined", in their order, with missing names and times filled in |
| `History.SortByTime` | internal/websocket/manager.go:288-295 | the exchange sort yields the same messages in time order, and leaves a list that is already in time order exactly as it is |
| `History.PresentableIsAscending` | internal/websocket/manager.go:274-286 | filtering keeps a list in time order, and whatever it shows may be shown and has a name and a time |
| `History.PresentableIsExact` | internal/websocket/manager.go:274-286 | what is presented are exactly the messages whose text is none of the three, each with its number, text and flag unchanged and missing names and times filled in |
| `History.PresentableOfOne` | internal/websocket/manager.go:274-286 | one message is hidden exactly for the texts "", "null" and "undefined", and otherwise shown with its number, text and flag, its name or "system", and its time or the present one |
| `History.PresentableOfSum` | internal/websocket/manager.go:274-286 | a list is presented message by message, in its order |
| `History.CompleteIsUnchanged` | internal/websocket/manager.go:274-286 | a list in which nothing is to be hidden or filled in is shown as it is |
| `CacheRefinement.CacheRefinesTable` | internal/websocket/manager.go:333-357 | after any serial run of broadcasts, edits, history loads, cleanups and passing time, a read of the cache then or later misses or yields exactly the last k <= 100 rows with their current authors, texts, times and edited flags |
| `CacheRefinement.RunKeeps` | internal/websocket/manager.go:333-357 | every state of a serial run keeps the rows numbered and in time order and the cache a window on their end |
| `CacheRefinement.LoadShowsTheTail` | internal/websocket/manager.go:253-272 | what a history load stores in the cache is the end of the table |
| `CacheRefinement.BroadcastRefinesIff` | internal/websocket/manager.go:310-330 | a broadcast keeps the cache a window on the table exactly when its insertion goes through: author registered, text well-formed UTF-8 without U+0000, no failure of the database |
| `CacheRefinement.ChatIsSavedIff` | internal/websocket/client.go:163-172 | what a registered client sends is saved, by a database in order, exactly when its text has no U+0000 and the limit of 10000 bytes does not cut it inside a character |
| `CacheRefinement.NulIsCachedButNotSaved` | repository/postgres/message_repo.go:33-35 | a frame any client can send, with U+0000 in its text: it passes validation, is broadcast and cached, and no row is written |
| `CacheRefinement.BrokenIsCachedButNotSaved` | repository/postgres/message_repo.go:33-35 | likewise a frame of 4000 bytes that are no characters: JSON turns them into 12000 bytes, the limit cuts inside a character, the result is broadcast and cached, and no row is written |
| `CacheRefinement.BroadcastCompleteIff` | internal/websocket/manager.go:345-356 | after a broadcast the cache holds the whole recent history exactly when the table was empty, or the cache was warm and held all rows or at least 99 |
| `CacheRefinement.ColdBroadcastHidesHistory` | internal/websocket/manager.go:353-356 | a broadcast that finds the cache cold leaves it with that one message, and a history load right after it uses just that |
| `CacheRefinement.TableIsSavedAndEdited` | repository/postgres/message_repo.go:23-55 | over every run, whether or not insertions succeed: row i has the author and time of the i-th saved message, the text of the last edit its author made (or the original), and the edited flag exactly when there was such an edit |
| `CacheRefinement.RebroadcastMatchesRow` | internal/websocket/manager.go:205-225 | the message sent after an edit is the row as stored by then except that its time is the time of the edit, and the cache then misses; a refused edit changes nothing |
| `CacheInterleaving.InterleavedSafety` | internal/websocket/manager.go:345-356 | with any number of cache updates, history loads and cleanups split into their reads and writes and interleaved with edits, the cache never exceeds 100 messages and each was broadcast or loaded |
| `CacheInterleaving.UndisturbedUpdateIsAtomic` | internal/websocket/manager.go:333-357 | an update since whose read nothing wrote to the window, and whose list has not expired, writes what a read just before its write would have it write |
| `CacheInterleaving.UndisturbedMoveIsSerial` | internal/websocket/manager.go:213-270 | so for loads, cleanups and edits: an undisturbed move does to window and clock what the step of the serial system does |
| `CacheInterleaving.UndisturbedRunIsSerial` | internal/websocket/manager.go:177-357 | an interleaved run in which nothing writes to the window between any update's read and write, load's query and store, and cleanup's check and clearing leaves the window of a serial run |
| `CacheInterleaving.WindowIsBuiltOn` | internal/websocket/manager.go:345-356 | in any run, as long as only updates that had read it wrote after a move, the window is what that move wrote with their messages appended, cut to the last 100 |
| `CacheInterleaving.WriteKeepsWhatItRead` | internal/websocket/manager.go:345-351 | in any run, after a write the window holds exactly its own message and the newest 99 of what was there when it read; whatever was written in between is gone |
| `CacheInterleaving.LaterWriteKeepsIff` | internal/websocket/manager.go:180-180 | two updates whose writes follow each other, with any other moves around and between: the second keeps the first one's message exactly when it read after the first write and before the list expired |
| `CacheInterleaving.LostUpdateRun` | internal/websocket/manager.go:180-180 | from any state, two updates that both read before either writes: the message of the first write is in the cache and gone after the second |
| `CacheInterleaving.OldVersionReturnsIff` | internal/websocket/manager.go:205-272 | in any run, after an edit's clearing the window holds the old version exactly when an update that had read it before, a load that had queried before, or the message's own update wrote it after, only updates that had read it wrote since, and they did not push it out |
| `CacheInterleaving.ClearingIsFinalIff` | internal/websocket/manager.go:213-215 | whatever happens afterwards the old version never returns, exactly when no update and no load under way carries it |
| `CacheInterleaving.WaysBack` | internal/websocket/manager.go:254-268 | from any state with such an update or load under way, moves that bring the old version back: a store, a write, or a read and a write |
| `CacheInterleaving.TwoRunsBack` | internal/websocket/manager.go:254-268 | a load that queries before an edit and stores after it leaves its whole answer in the cache, and an update that reads before and writes after leaves what it had read and its message |
| `CacheAndTable.UndisturbedRunShowsTheTable` | internal/websocket/manager.go:177-357 | with a table of its own, to which every broadcast is saved before or after its cache update and which every edit changes before it clears the cache: in every undisturbed run whose saves are in the order of the cache writes, whenever nothing is half done a read misses or shows exactly the end of that table |
| `Clients.Client.constructor` | internal/websocket/client.go:26-37 | a client starts with three open, empty queues |
| `Clients.Client.TakeMessage` | internal/websocket/client.go:204-211 | the write pump takes the oldest queued message and leaves the rest in order |
| `ManagerSpec.RunsAreSafe` | internal/websocket/manager.go:115-157 | in every state of every run: queues are closed exactly for removed clients, no send or close panicked, neither of the loop nor of a goroutine ranging over the clients under the read lock, both gauges count what they are named after, every online name leads to a connected client of that name, names are no more than connections, and the drop counter is the number of broadcast sends that met a full queue |
| `ManagerSpec.ClientsAreExact` | internal/websocket/manager.go:115-145 | in every state of every run, the clients are exactly those the run registered and has not unregistered, and only registered ones were unregistered |
| `ManagerSpec.ProcessedIsExact` | internal/websocket/manager.go:159-186 | in every state of every run the messages processed are those the events handed to the loop, unchanged and in order |
| `ManagerSpec.ReadersKept` | internal/websocket/manager.go:437-481 | nobody ranges over a client that has left, as removing one needs the lock that everybody who ranges holds |
| `ManagerSpec.RemovalNeedsTheLockIff` | internal/websocket/manager.go:136-145 | without the lock: a removal leaves the work of the other goroutines sound exactly when none of them still has the client before it, and otherwise the one that reaches it sends on a closed channel |
| `ManagerSpec.Conservation` | internal/websocket/manager.go:451-463 | in every state of every run, what a write pump took followed by what is queued is exactly what was accepted, in order; each send is taken, queued or dropped, exactly one of them |
| `ManagerSpec.OrderOfDelivery` | internal/websocket/manager.go:159-186 | the loop's own messages a client gets are a subsequence of what it gets, numbered increasingly in the order of processing, all processed after it joined; while it is connected and no broadcast is under way it has been offered every one of them once |
| `ManagerSpec.SameOrderForAll` | internal/websocket/manager.go:451-463 | no two clients get two messages of the loop in opposite orders |
| `ManagerSpec.NothingDroppedMeanwhile` | internal/websocket/client.go:31-31 | between any two states of a run, if what is sent to a client plus what was waiting is at most 256, nothing sent to it is dropped; so a replay of 100 has room for 156 other messages |
| `ManagerSpec.OnlineIsExact` | internal/websocket/manager.go:122-150 | in runs where no user has two connections at once and only connected clients are unregistered, the online names are exactly those of the connections |
| `ManagerSpec.UnregisterKeepsNamesIff` | internal/websocket/manager.go:147-150 | from an exact registry, a removal keeps it exact exactly when no other connection has the same name |
| `ManagerSpec.TwoConnectionsRun` | internal/websocket/manager.go:147-150 | a run in which a user has two connections and one is closed: the other is connected and the online list is empty |
| `ManagerSpec.OnlineIsSmaller` | internal/websocket/manager.go:418-430 | if every entry leads to a connected client of that name, there are at most as many names as connections |
| `ManagerSpec.EveryStateIsSound` | internal/websocket/manager.go:113-228 | the lifecycle, registry, queue, offer and counter invariants hold in every state of every run |
| `ManagerSpec.PanicsExactlyOnLateReplay` | internal/websocket/manager.go:300-306 | in every run in which replays may outlive their client: the server has panicked exactly when a replay sent something to a client that had been removed by then |
| `ManagerSpec.LateReplayRun` | internal/websocket/manager.go:133-133 | a run of four events that ends in this panic |
| `ManagerSpec.HistoryPanicsIff` | internal/websocket/manager.go:300-306 | a history send panics exactly when the client was removed in the meantime |
| `ManagerSpec.RegisterOnceIff` | web/websocket.go:44-51 | a registration keeps the lifecycle sound exactly when the client was never registered before |
| `ManagerSpec.RefreshHarmlessIff` | internal/websocket/manager.go:375-376 | the periodic refresh of either gauge keeps the invariants exactly when the number it writes, sampled earlier, is still the right one: of clients for one gauge, of online names for the other |
| `ManagerSpec.StaleGaugesRun` | internal/websocket/manager.go:371-376 | a run in which the numbers are sampled while nobody is there and written after a client has come: both gauges then show nobody, with one client connected and online |
| `Broadcasts.AnyOrderIsTheWholeTask` | internal/websocket/manager.go:455-462 | serving the clients one by one in any order, whatever is broadcast and whoever does it, ends in the same queues and counters as the broadcast done at once |
| `Broadcasts.EventThenVisits` | internal/websocket/manager.go:113-228 | after an event taken by the loop, the visits to the clients it concerns are each enabled one after the other, in any order, and lead to a state that is done with the event and whose clients, queues and metrics are those after the manager's method for that event |
| `Broadcasts.ReaderThenRange` | internal/websocket/manager.go:566-592 | taking the read lock, ranging over the clients in any order and giving the lock back are each enabled one after the other, leave the loop and the other readers as they were, and are together the whole broadcast to the clients there were |
| `Broadcasts.SendOneThenRest` | internal/websocket/manager.go:455-462 | one visit followed by the broadcast to the others is the broadcast to all, drops included |
| `Broadcasts.FileOneThenRest` | internal/websocket/manager.go:475-481 | the same for file events |
| `Broadcasts.OnlineOneThenRest` | internal/websocket/manager.go:440-447 | the same for the online list |
| `Broadcasts.ReplayFits` | internal/websocket/manager.go:300-306 | a replay into an open queue appends all its messages in order when they fit, and otherwise fills the queue to 256 |
| `Deliveries.MessageReachesEverybody` | internal/websocket/manager.go:451-463 | a handled message is the last one in the queue of every connected client that had less than 256 waiting; the others are counted, and nothing else changes |
| `Deliveries.FileReachesEverybody` | internal/websocket/manager.go:466-482 | the same for a file event and 32 |
| `Deliveries.RegistrationReachesEverybody` | internal/websocket/manager.go:115-131 | after a registration the last list in the queue of every connected client that had less than 8 waiting are the keys of the registry, the new name among them, and their number; both maps and gauges are as they should be |
| `Deliveries.RemovalReachesEverybody` | internal/websocket/manager.go:134-157 | after a removal the same without the name, for those who remain; the channels of the client are closed with what is in them |
| `Deliveries.ListIsTheConnections` | internal/websocket/manager.go:418-448 | in every run in which no user has two connections, the list sent after a client came or left are exactly the names of the connections and their number |
| `Deliveries.ReplayReachesOne` | internal/websocket/manager.go:300-306 | a message of a replay goes to its client only, and is not counted when dropped |
| `Deliveries.RemovalPanicsIff` | internal/websocket/manager.go:139-141 | a removal panics exactly for a connected client of which a channel is closed already |
| `Deliveries.OldestIsTaken` | internal/websocket/client.go:204-225 | the write pump takes the oldest value of each of the three queues |
| `Managers.Manager.constructor` | internal/websocket/manager.go:75-97 | a new manager has no clients, no online users and zero metrics |
| `Managers.Manager.OfferMessage` | internal/websocket/manager.go:456-461 | one non-blocking send: appended if there is room, otherwise dropped and counted |
| `Managers.Manager.BroadcastToLocalClients` | internal/websocket/manager.go:451-463 | every registered client is offered the message, full queues drop it and are counted one by one, no other queue changes |
| `Managers.Manager.OfferFile` | internal/websocket/manager.go:476-480 | one non-blocking send of a file event, with its own counter |
| `Managers.Manager.BroadcastFileEventToLocalClients` | internal/websocket/manager.go:466-482 | every registered client is offered the file event, full queues are counted |
| `Managers.Manager.OfferOnline` | internal/websocket/manager.go:441-446 | one non-blocking send of the online list, with no counter |
| `Managers.Manager.BroadcastOnlineUsers` | internal/websocket/manager.go:419-448 | every registered client is offered the keys of the registry and their number |
| `Managers.Manager.Enter` | internal/websocket/manager.go:116-127 | the client enters both maps, replacing an earlier connection in the registry, and both gauges follow |
| `Managers.Manager.Register` | internal/websocket/manager.go:115-132 | entering, then the new online list to everybody including the new client |
| `Managers.Manager.Disconnect` | internal/websocket/manager.go:136-145 | a registered client leaves the set, its three channels are closed and the gauge drops; an unregistered one changes nothing |
| `Managers.Manager.Leave` | internal/websocket/manager.go:136-152 | disconnecting, and in any case the name leaves the registry |
| `Managers.Manager.Close` | internal/websocket/manager.go:139-141 | all three channels are closed and keep what is queued |
| `Managers.Manager.Unregister` | internal/websocket/manager.go:135-157 | leaving, then the new online list to those who remain; never a panic |
| `Managers.Manager.PublishToRedis` | internal/websocket/manager.go:485-510 | one envelope with the own server ID and the payload as base64 bytes, if Redis is there |
| `Managers.Manager.HandleBroadcast` | internal/websocket/manager.go:159-186 | empty texts are ignored; otherwise the message with its number, text and flag, its name or "system" and its time or the present one is published, every client is offered it, and that same message is handed to saving and caching |
| `Managers.Manager.Share` | internal/websocket/manager.go:182-186 | publication and local broadcast of one message |
| `Managers.Manager.HandleFileEvent` | internal/websocket/manager.go:188-203 | publication and local broadcast of one file event |
| `Managers.Manager.HandleRedis` | internal/websocket/manager.go:566-592 | own publications are ignored; a message, or else a file event, goes to the local clients and nowhere else; anything else is thrown away |
| `Managers.Manager.SaveMessageToDB` | internal/websocket/manager.go:310-330 | the table gets the row, or nothing if the insertion fails |
| `Managers.Manager.UpdateCache` | internal/websocket/manager.go:333-357 | a hit is extended and cut to 100, a miss is replaced by the one message |
| `Managers.Manager.BroadcastSerially` | internal/websocket/manager.go:177-180 | with both goroutines run to completion, the broadcast branch is one broadcast step of the serial system |
| `Managers.Manager.HandleEdit` | internal/websocket/manager.go:205-225 | the edit branch is one edit step of the serial system; every client is offered the number, the author, the new text, the time of the edit and the flag exactly when the row exists, is the requester's, the text can be stored and the database does not fail |
| `Managers.Manager.Announce` | internal/websocket/manager.go:213-225 | the cache is emptied and every client here is offered the new version |
| `Managers.Manager.LoadHistory` | internal/websocket/manager.go:241-272 | the source is the cache, or on a miss the newest rows, which are then cached: one load step of the serial system |
| `Managers.Manager.PrepareHistory` | internal/websocket/manager.go:274-295 | what is offered is, in time order, exactly the messages that may be shown, unchanged but for missing names and times |
| `Managers.Manager.ChooseHistory` | internal/websocket/manager.go:231-295 | loading, filtering and sorting together |
| `Managers.Manager.OfferHistory` | internal/websocket/manager.go:301-305 | one non-blocking send whose drop is not counted |
| `Managers.Manager.Replay` | internal/websocket/manager.go:300-306 | one send for each message, in order |
| `Managers.Manager.SendMessageHistory` | internal/websocket/manager.go:231-307 | a registered client is offered exactly the messages of cache or table whose text is none of the three hidden ones, with number, text and flag unchanged, in time order, and the cache is as after a load step |
| `Managers.MissShowsTheTail` | internal/websocket/manager.go:253-306 | on a cache miss with growing times, the source is the last min(100, n) rows, and what is shown of them is in order and needs no sorting |
| `Managers.MissReplaysTheRows` | internal/websocket/manager.go:253-306 | when the cache is cold or expired, a replay offers the last min(100, n) rows with their numbers, authors, texts, times and flags, if none is to be hidden |
| `Managers.HitReplaysTheCache` | internal/websocket/manager.go:241-251 | when the cache is warm, a replay offers what may be shown of it and nothing else, and all of it as it is if it is complete and in order |
| `Wire.MessageRoundTrip` | internal/websocket/manager.go:581-582 | a message marshalled as an object decodes to itself, left-out zero fields included, exactly when its author and text are well-formed UTF-8; otherwise to the message JSON makes of it |
| `Wire.MessageIsSpelled` | internal/websocket/manager.go:490-490 | the names of the fields under which a message is sent, zero numbers and flags left out |
| `Wire.EventIsSpelled` | internal/websocket/manager.go:513-540 | the names of the fields under which a file event is sent |
| `Wire.EventRoundTrip` | internal/websocket/manager.go:586-588 | a file event decodes to itself exactly when all its texts are well-formed UTF-8 |
| `Wire.ReadsAsMessageIff` | internal/websocket/manager.go:580-584 | what is received from another server is taken for a message exactly when it is null or an object without a field of the wrong type |
| `Wire.ReadsAsEventIff` | internal/websocket/manager.go:586-590 | otherwise for a file event exactly when its fields have the types of one, and is thrown away if not |
| `Wire.MessageArrivesIff` | internal/websocket/manager.go:490-502 | a message sent to another server is shown there unchanged exactly when the envelope embeds it as raw JSON, not as bytes, and its author and text are well-formed UTF-8 |
| `Wire.BytesAreDiscarded` | internal/websocket/manager.go:581-591 | as the code embeds payloads, every other server throws every publication away |
| `Wire.EventsReadAsMessages` | internal/websocket/manager.go:581-590 | embedded raw, a file event would be taken for a chat message with the event's user, as JSON writes the name, and no text |
| `Cluster.RunSound` | internal/websocket/manager.go:485-593 | the channel and server invariants hold in every state of every schedule |
| `Cluster.FanOut` | internal/websocket/manager.go:182-186 | for any number of servers with distinct IDs and any schedule, each server broadcasts each payload it accepted exactly once in order, each publication at most once in the order of publication, and never its own |
| `Cluster.ReceivedInOrderOfOrigin` | internal/websocket/manager.go:561-593 | for each origin, a server broadcasts what it receives in the order the origin accepted it |
| `Cluster.NothingIsRepublished` | internal/websocket/manager.go:577-590 | a server never has more publications than payloads it accepted |
| `Cluster.HandledMessageIsShownIff` | internal/websocket/manager.go:569-584 | a chat message handled at another server is broadcast there as it was accepted exactly when envelopes embed raw JSON and its author and text are well-formed UTF-8 |
| `Cluster.NothingCrossesAsBytes` | internal/websocket/manager.go:496-502 | with the code's own encoding no server ever broadcasts anything it received |
| `ReadPumps.ReadFrame` | internal/websocket/client.go:63-182 | the cascade of formats yields the meaning of the frame, which the next four rows spell out; the fourth format never decides anything |
| `ReadPumps.EditIsRead` | internal/websocket/client.go:66-83 | a frame of type "edit" with a number and a new text in its data is a request to give the message of that number that text, under the client's own name |
| `ReadPumps.EditIsReadIff` | internal/websocket/client.go:66-88 | a frame of type "edit" is a request exactly when its data are null or an object without a field of the wrong type, and otherwise ignored |
| `ReadPumps.CarriedTextIsSent` | internal/websocket/client.go:94-182 | a string, a text field, data that are a string and data with a text field: the text is sent without the white space around it, under the client's name, and above 10000 bytes cut there and marked; nothing but white space is ignored |
| `ReadPumps.OnlyCarriedTextIsSent` | internal/websocket/client.go:94-160 | no other frame sends anything |
| `ReadPumps.NamedFormat` | internal/websocket/client.go:139-154 | the fourth format finds a text only where the second would have found the same |
| `ReadPumps.ChatIsTheClients` | internal/websocket/client.go:156-182 | a chat message bears the client's name and a text that neither starts nor ends with white space and has at most 10022 bytes, an edit request the client's name |
| `ReadPumps.TextIsWellFormedIff` | internal/websocket/client.go:163-172 | the text of a chat message is well-formed UTF-8 exactly when the limit of 10000 bytes does not cut it inside a character |
| `ReadPumps.BrokenFrameIsCut` | internal/websocket/client.go:170-171 | a frame below the read limit whose text comes out not well-formed: 4000 bytes that are no characters |
| `Sessions.StalenessBound` | web/handlers.go:40-60 | in every run in which the registration of this session, if any, did insert its row, also one that starts on the rows of an earlier server: a session accepted at time t had a live row of that user at some moment no more than one cache lifetime earlier, plus the longest time a request with it takes from table to cache, so t is at most that after its expiry |
| `Sessions.LoginLasts` | repository/postgres/session_repo.go:58-65 | in every run, for 24 hours after a login or an inserted registration the identifier is accepted as that user until it is logged out, through requests, sweeps, deletions of expired rows and late writes, and it is never taken for anybody else |
| `Sessions.LoginIsRemembered` | web/handlers.go:153-157 | for one cache lifetime after a login or registration the user is known from the cache |
| `Sessions.AtomicIsPrompt` | web/handlers.go:48-58 | requests handled in one go take no time from table to cache |
| `Sessions.RequestInTwo` | web/handlers.go:40-60 | a look into the table and a write to the cache with nothing in between are the request handled in one go |
| `Sessions.BoundIsTight` | web/handlers.go:49-58 | the bound is attained: a session remembered at the moment it expires is accepted for the whole lifetime |
| `Sessions.MaintenanceIsInvisible` | repository/postgres/session_repo.go:51-55 | deleting expired rows leaves exactly the live ones, and neither that nor the cache cleanup changes who any request is taken for after any further steps |
| `Sessions.AcceptedAfterLogoutIff` | web/handlers.go:244-254 | in every run with any number of requests under way: after a logout the session is accepted exactly while the write of a request that had found it before the logout is in the cache, no longer than one lifetime after that write and not beyond a later logout |
| `Sessions.LogoutIsFinal` | web/handlers.go:244-254 | in every run, after a logout with no request for that identifier between table and cache, no request with it is accepted again |
| `Sessions.LateWriteRevives` | web/handlers.go:49-58 | a run of three steps that revives it: found, logged out, remembered |
| `Sessions.RegistrationBackedIff` | web/handlers.go:216-228 | a registration is accepted at once in any case, and a row stands behind it exactly when the insertion succeeded |
| `Sessions.SessionRepository.CreateUserSession` | repository/postgres/session_repo.go:58-65 | inserts a row that expires after 24 hours, unless the identifier is taken or the database fails |
| `Sessions.SessionRepository.Delete` | repository/postgres/session_repo.go:44-48 | removes the row and no other |
| `Sessions.SessionRepository.Cleanup` | repository/postgres/session_repo.go:51-55 | removes exactly the rows whose expiry time has passed |
| `Sessions.Handlers.GetUserFromSession` | web/handlers.go:32-61 | answers with the cached user, else with the user of an unexpired row, which is then remembered, else with nobody: the request step of the machine |
| `Sessions.Handlers.LoginHandler` | web/handlers.go:108-171 | the login step exactly for a valid password, an existing user and an inserted session; otherwise refused with sessions unchanged |
| `Sessions.Handlers.RegisterHandler` | web/handlers.go:174-241 | the registration step exactly for a new name the user table takes and matching passwords, whether or not the session was inserted; otherwise refused with nothing changed |
| `Sessions.Handlers.LogoutHandler` | web/handlers.go:244-266 | the logout step for a request with a cookie, nothing otherwise |
| `Locks.CacheAndManagerNeverDeadlock` | repository/cache/memory.go:62-275 | any number of goroutines, each running any sequence of cache and manager operations except `MemoryCache.GetStats`: every schedule is finite and every unfinished state has an enabled step |
| `Locks.NoDeadlock` | repository/cache/memory.go:62-275 | whenever all goroutines take locks in increasing order, an unfinished state has an enabled step, under read-write locks that prefer writers |
| `Locks.AllFinish` | internal/websocket/manager.go:418-482 | and every schedule of them is finite |
| `Locks.DisciplineIff` | repository/cache/memory.go:222-234 | of all the operations exactly `MemoryCache.GetStats` takes its locks out of the order of the others |
| `Locks.StatisticsCanDeadlock` | repository/cache/memory.go:222-234 | one `GetStats`, one reader and one writer of the messages reach a state in which all three wait |
| `Deadlocks.StuckShape` | repository/cache/memory.go:210-233 | every stuck state goroutines can reach: one is in GetStats, holds the statistics and asks to read the messages, one reads the messages and asks to write the statistics, and a third has announced a write of the messages |
| `Deadlocks.DeadlockIff` | repository/cache/memory.go:62-275 | any goroutines with any operations can deadlock exactly when three different ones run GetStats, a read of the message cache, and a write to it |
| `Deadlocks.DangerousCanStick` | repository/cache/memory.go:222-234 | for any such goroutines, whatever else they and the others run, a schedule that gets stuck |
| `FileNames.CleanForUpload` | web/file_handlers.go:70-87 | the thirteen replacements are one character map on the base name |
| `FileNames.CleanForStorage` | internal/storage/minio.go:100-112 | the ten replacements are one character map on the base name |
| `FileNames.LimitLength` | web/file_handlers.go:89-94 | the truncated name, or the panic of a negative slice bound |
| `FileNames.RequestUpload` | web/file_handlers.go:60-94 | refused exactly without chat or file name; otherwise the name handed to storage, or the panic |
| `FileNames.UploadPanicsIff` | web/file_handlers.go:90-93 | the request panics exactly when the extension of the cleaned name is longer than 200 |
| `FileNames.LongExtensionPanics` | web/file_handlers.go:90-93 | a file name that makes it panic |
| `FileNames.TruncationKeepsExtension` | web/file_handlers.go:90-94 | a longer name is cut to exactly 200: a prefix of its stem followed by the same extension, which is still its extension |
| `FileNames.TruncatedIsWellFormedIff` | web/file_handlers.go:89-94 | a name over the limit that is well-formed UTF-8 stays so exactly when the cut does not fall inside a character |
| `FileNames.UploadNameShape` | web/file_handlers.go:70-94 | unless the request consists of slashes, the name is not empty, has at most 200 bytes, no slash, and nothing left to clean |
| `FileNames.UploadNameIsStable` | web/file_handlers.go:70-94 | sending the resulting name through the request again changes nothing |
| `FileNames.ChainsAreOneMap` | internal/storage/minio.go:102-112 | on a name the first chain left, the second chain is the union of both maps, and no unsafe character remains |
| `FileNames.StoredNameIsClean` | internal/storage/minio.go:98-114 | the name in the key is the uploaded name with all unsafe characters replaced, of the same length and without slash |
| `FileNames.NameIsSpelled` | web/file_handlers.go:70-94 | for a path that ends in a name of at most 200 bytes: the upload name is that name with an underscore for each of thirteen characters, the stored name with six more replaced |
| `Storage.TimestampIsRemoved` | internal/storage/minio.go:330-340 | reading the last part of a built key removes exactly the timestamp, even from names with dashes or leading digits |
| `Storage.OnlyTimestampsAreRemoved` | internal/storage/minio.go:330-342 | nothing is cut off a last part unless its first dash follows one or more digits and nothing else |
| `Storage.AnyKeyIsRead` | internal/storage/minio.go:320-347 | how the listing reads any key of one part, two parts, and more |
| `Storage.KeyRoundTrip` | internal/storage/minio.go:320-347 | for slash-free chat, user and name, reading a built key gives back exactly the user and the name, even if the name has dashes or leading digits |
| `Storage.KeyShownWithSpaces` | internal/storage/minio.go:374-398 | and the file information and the download show that name with spaces for underscores |
| `Storage.KeysAreDistinct` | internal/storage/minio.go:114-114 | building keys is injective in chat, user, time and name |
| `Storage.ReadersAgree` | web/file_handlers.go:529-535 | for every key: same user everywhere, the information shows the listing's name with spaces, and the download agrees unless the key ends in a slash |
| `Storage.UserReadBackIff` | internal/storage/minio.go:322-327 | for a slash-free chat and name, the user is read back exactly when it has no slash |
| `Storage.ListingsMeetIff` | internal/storage/minio.go:309-314 | two listings can share a key exactly when one chat's prefix begins with the other's |
| `Storage.ListingsAreDisjoint` | internal/storage/minio.go:309-314 | a key in the listing of one slash-free chat is in another's only if they are the same chat |
| `Storage.ScreenedIsOnlyMissing` | web/file_handlers.go:309-334 | what the handler's checks let through the storage layer refuses only if the object is missing |
| `Storage.NeverBadKey` | web/file_handlers.go:317-323 | the refusal of malformed keys never happens, as the prefix check comes first |
| `Storage.VerdictsAre` | internal/storage/minio.go:265-305 | each outcome of the storage layer exactly when: elsewhere, missing, somebody else's, deleted |
| `Storage.ScreeningIs` | web/file_handlers.go:275-328 | each outcome of the handler's own checks exactly when |
| `Storage.OnlyTheUploaderDeletes` | internal/storage/minio.go:284-295 | a file built for a slash-free user and chat is deleted for that user and refused to everybody else |
| `Storage.DeleteFrame` | internal/storage/minio.go:297-304 | a successful delete takes exactly the entry of the key, whose uploader is the requester, out of the listing of its chat, and leaves the listing of every other slash-free chat as it was |
| `Storage.UploadIsListedUnderItsName` | internal/storage/minio.go:308-362 | from the requested file name through both cleanings and the key to the listing: exactly one entry, with the stored name, the uploader, the chat and the size of the object |
| `Storage.ListingShows` | internal/storage/minio.go:308-362 | every listing has exactly one entry for a built key, with the name, the user, the chat and the size in the bucket |
| `Strings.JoinOfSplit` | internal/storage/minio.go:320-320 | the parts of a key, put together with slashes, are the key |
| `Strings.PiecesOfSplit` | internal/storage/minio.go:320-320 | no part of a key has a slash |
| `Strings.LastPiece` | web/file_handlers.go:529-529 | the last part of a key is what comes after its last slash |
| `Strings.BaseHasSlashIff` | web/file_handlers.go:72-72 | a base name has a slash exactly when the path consists of slashes only, and is never empty |
| `Strings.BaseOfPath` | web/file_handlers.go:72-72 | the last element of a path is the name after its last slash, whatever comes before and however many slashes end it; a dot or a slash if there is none |
| `Storage.Bucket.GenerateUploadKey` | internal/storage/minio.go:98-114 | the key made of chat, user, time and cleaned base name |
| `Storage.Bucket.ParseListed` | internal/storage/minio.go:322-347 | the nested branches read the key as the listing's reading says |
| `Storage.Bucket.ListFiles` | internal/storage/minio.go:308-362 | a listing: exactly one entry for each object of the chat, in the order of the object store, with its size, user and name |
| `Storage.Bucket.GetFileInfo` | internal/storage/minio.go:365-411 | the entry of an existing object with a readable name, nothing for a missing one |
| `Storage.Bucket.DownloadName` | web/file_handlers.go:529-535 | the name a download is offered under |
| `Storage.Bucket.DeleteFile` | internal/storage/minio.go:265-305 | the four refusals in the source's order; otherwise exactly that object goes, and its user is the requester |
| `Storage.Bucket.HandleDelete` | web/file_handlers.go:275-339 | the handler's refusals in order, then the storage layer's |

## Left out

Assumptions and limits of stated members:

- CacheRefinement.CacheRefinesTable: runs are those in which insertions succeed, each message is newer than all rows and arrives unedited, and every step is whole; `BroadcastRefinesIff` and the interleaved system say what happens otherwise.
- MessageRepo.MessageRepository.Create: times are stored exactly; PostgreSQL keeps microseconds, so the time in the cache and the stored one are equal only to that precision.
- MessageRepo.MessageRepository.UpdateMessage: one of the three schemas in the repository (docker_local/postgres/init.sql:42) also refuses texts of spaces only, which an edit can have and a chat message cannot.
- CacheRefinement.TableIsSavedAndEdited: the row number is the message's identifier, so identifiers are consecutive, which a failed insertion would disturb in PostgreSQL.
- CacheInterleaving.InterleavedSafety: the memory cache is meant, whose single reads and writes are atomic under its locks; the authors and texts of messages are not changed after they are handed over.
- CacheInterleaving.UndisturbedRunIsSerial: the serial run saves a message when its cache update writes; that insertions succeed, times grow and loads are answered as of their store is the hypothesis on the database. `CacheAndTable.UndisturbedRunShowsTheTable` does without it.
- CacheAndTable.UndisturbedRunShowsTheTable: the saves of broadcasts come in the order of their cache writes, as do edits and their clearings; times grow in that order; authors are registered and texts can be stored; a load that stores was queried when nothing was half done. What happens without the first two is said by `LaterWriteKeepsIff` and `OldVersionReturnsIff`.
- CacheInterleaving.OldVersionReturnsIff: from the edit on nobody broadcasts the old version again and no query returns it, as the edited row no longer holds it.
- ManagerSpec.RunsAreSafe: each client is registered once, replays reach registered clients, and nobody connects or leaves between the sampling and the writing of either gauge by the periodic refresh; `RegisterOnceIff`, `HistoryPanicsIff` and `RefreshHarmlessIff` show that each assumption is needed. The two maps change in one step, so states between the two locks of a registration are not seen.
- ManagerSpec.Conservation: order and counting are stated for the queue of chat messages; the queues of file events and online lists have their capacities, closing and drop counter in the model, but no record of their order.
- Managers.Manager.SendMessageHistory: the client is still registered; one reading of the clock stands for the several of a replay; the answer of the query is a parameter that satisfies the query, with ties in any order.
- Managers.Manager.UpdateCache: over the memory cache; with the Redis cache a failed read counts as a miss.
- Wire.EventRoundTrip: the file of an event is a text here; in the source it is any JSON value, in practice the entry of a listing or an object with a key.
- Wire.ReadsAsEventIff: likewise, only events without a file or with a text as their file.
- Managers.Manager.PublishToRedis: failures of the publication itself are only a parameter of the cluster machine.
- Cluster.FanOut: the subscription may lose publications but delivers them in order and not twice, as Redis does; both channels are one sequence.
- ReadPumps.ReadFrame: frames are JSON values whose strings are well-formed UTF-8, as decoding leaves them; the parser is not modelled and field names match exactly.
- Sessions.StalenessBound: if the session was made by a registration, its row was inserted; without it the session is accepted with no row ever, as `RegistrationBackedIff` says.
- Sessions.AcceptedAfterLogoutIff: identifiers are fresh; logins, registrations and logouts are one step each, requests are two.
- Sessions.Handlers.LoginHandler: the password check and failures of the database are parameters; the cached user values are not read back by anything and not followed.
- RedisCaches.CachesAgree: an empty list means one that is not nil; the caches also agree on nil, which callers never store. Connection errors and the rounding of lifetimes to milliseconds are not modelled.
- RedisCaches.ReadsAgreeIff: the abstract store drops a key at the very instant of its expiry; the exception for that instant is one about this store, and a Redis server that is a moment late would agree there and disagree a moment later.
- Storage.Bucket.ListFiles: the object store enumerates every key with the prefix once, in an order that is a parameter; its times and content types are not modelled.
- Storage.Bucket.HandleDelete: the key is the decoded one; URL decoding and the JSON request are not modelled.
- Deadlocks.DeadlockIff: goroutines wait for locks only; channels, the database and Redis are assumed to answer. Readers and writers compete freely once nobody holds the lock, which allows every schedule of the Go runtime and more.

Not modelled at all:

- The `Broadcast`, `EditMessage` and `FileEvents` channels of capacity 100 in front of the loop, which drop when full: what is modelled begins when the loop takes an event.
- The order in which a write pump chooses between its three queues, pings, deadlines and the closing handshake.
- HTTP routing, cookies, templates, bcrypt, session ID generation, server IDs, the server registry and its heartbeat.
- PostgreSQL, Redis and MinIO themselves: tables with the stated meaning of the queries, a store of expiring keys, and a map of objects stand for them.
- Metrics other than the two gauges and the two drop counters; the periodic database statistics.
- A manager without cache or message repository: both are always there.
