/**
 The cache kept in Redis, over an abstract store of keys with expiry times, and the comparison of
 the two caches that stand behind one interface.
 */
module RedisCaches {
  import opened Types
  import opened CacheSpec
  import opened Utf8
  import Wire

  /** The values the cache serialises under its keys. A user is serialised without the password. */
  datatype Stored =
    | StoredMessages(messages: seq<Message>)
    | StoredUser(username: string)
    | StoredSession(session: string)

  datatype Entry = Entry(value: Stored, expires: Option<Time>)

  /** The keys the cache uses. */
  datatype Key = MessagesKey | UserKey(username: string) | SessionKey(sessionID: string)

  /** The string under which a key is sent to Redis. */
  function Render(prefix: string, key: Key): string {
    match key
    case MessagesKey => prefix + ":recent:messages"
    case UserKey(username) => prefix + ":user:" + username
    case SessionKey(sessionID) => prefix + ":session:" + sessionID
  }

  /** Different keys are sent as different strings, so the store may be indexed by keys. */
  lemma RenderIsInjective(prefix: string, a: Key, b: Key)
    ensures Render(prefix, a) == Render(prefix, b) <==> a == b
    ensures Render("cache", MessagesKey) == "cache:recent:messages"
    ensures Render("cache", UserKey("ann")) == "cache:user:ann" && Render("cache", SessionKey("1f")) == "cache:session:1f"
  {
    var n := |prefix| + 1;
    var x, y := Render(prefix, a), Render(prefix, b);
    assert x[n] == (match a case MessagesKey => 'r' case UserKey(_) => 'u' case SessionKey(_) => 's');
    assert y[n] == (match b case MessagesKey => 'r' case UserKey(_) => 'u' case SessionKey(_) => 's');
    assert a.UserKey? ==> x[n + 5..] == a.username;
    assert b.UserKey? ==> y[n + 5..] == b.username;
    assert a.SessionKey? ==> x[n + 8..] == a.sessionID;
    assert b.SessionKey? ==> y[n + 8..] == b.sessionID;
  }

  type Store = map<Key, Entry>

  /** What a list is read back as: values are serialised as JSON. */
  function RepairAll(ms: seq<Message>): (r: seq<Message>)
    ensures |r| == |ms| && forall i | 0 <= i < |ms| :: r[i] == Wire.Repaired(ms[i])
  {
    seq(|ms|, i requires 0 <= i < |ms| => Wire.Repaired(ms[i]))
  }

  predicate AllIntact(ms: seq<Message>) {
    forall m | m in ms :: Wire.Intact(m)
  }

  lemma RepairAllIff(ms: seq<Message>)
    ensures RepairAll(ms) == ms <==> AllIntact(ms)
  {
    forall i | 0 <= i < |ms| ensures RepairAll(ms)[i] == ms[i] <==> Wire.Intact(ms[i]) {
      Wire.RepairedIff(ms[i]);
    }
    if RepairAll(ms) == ms {
      forall m | m in ms ensures Wire.Intact(m) {
        var i :| 0 <= i < |ms| && ms[i] == m;
        assert RepairAll(ms)[i] == ms[i];
      }
    }
  }

  /** A read never returns a key whose expiry time has come. */
  function Fetch(s: Store, key: Key, now: Time): Option<Stored> {
    if key in s && (s[key].expires.None? || now < s[key].expires.value) then Some(s[key].value) else None
  }

  /** A write with a positive lifetime expires; any other never does. */
  function Put(s: Store, key: Key, value: Stored, now: Time, ttl: Duration): Store {
    s[key := Entry(value, if ttl > 0 then Some(now + ttl) else None)]
  }

  // ---------- the operations on values ----------

  function AskMessages(s: Store, now: Time): Answer {
    match Fetch(s, MessagesKey, now)
    case None => Messages(None)
    case Some(StoredMessages(ms)) => Messages(Some(ms))
    case _ => Failed
  }

  function RedisAsk(s: Store, op: Op, now: Time): Answer {
    match op
    case GetMessages => AskMessages(s, now)
    case AddMessage(_) => if AskMessages(s, now).Failed? then Failed else Done
    case GetUser(k) =>
      (match Fetch(s, UserKey(k), now)
       case None => UserIs(None)
       case Some(StoredUser(u)) => UserIs(Some(User(u, "")))
       case _ => Failed)
    case GetSession(k) =>
      (match Fetch(s, SessionKey(k), now)
       case None => SessionIs(None)
       case Some(StoredSession(u)) => SessionIs(Some(u))
       case _ => Failed)
    case _ => Done
  }

  function RedisApply(s: Store, ttl: Duration, op: Op, now: Time): Store {
    match op
    case SetMessages(ms) => Put(s, MessagesKey, StoredMessages(RepairAll(ms)), now, ttl)
    case AddMessage(m) =>
      (match AskMessages(s, now)
       case Messages(None) => Put(s, MessagesKey, StoredMessages(RepairAll([m])), now, ttl)
       case Messages(Some(ms)) =>
         if Contains(ms, m) then s
         else Put(s, MessagesKey, StoredMessages(RepairAll(Admit(ms, m))), now, ttl)
       case _ => s)
    case InvalidateMessages => s - {MessagesKey}
    case SetUser(k, u) => Put(s, UserKey(k), StoredUser(Repair(u.username)), now, ttl)
    case InvalidateUser(k) => s - {UserKey(k)}
    case SetSession(k, u) => Put(s, SessionKey(k), StoredSession(Repair(u)), now, ttl)
    case InvalidateSession(k) => s - {SessionKey(k)}
    case _ => s
  }

  function RedisAnswers(s: Store, ttl: Duration, calls: seq<Call>): seq<Answer>
    decreases |calls|
  {
    if calls == [] then []
    else [RedisAsk(s, calls[0].op, calls[0].now)]
         + RedisAnswers(RedisApply(s, ttl, calls[0].op, calls[0].now), ttl, calls[1..])
  }

  // ---------- what is answered ----------

  function RedisPerformed(s: Store, ttl: Duration, calls: seq<Call>): Store {
    if calls == [] then s
    else RedisApply(RedisPerformed(s, ttl, calls[..|calls| - 1]), ttl, calls[|calls| - 1].op, calls[|calls| - 1].now)
  }

  /** Whether what was written at one time is still there at another: for ever if no lifetime was given. */
  predicate Lasts(written: Time, now: Time, ttl: Duration) {
    ttl <= 0 || now < written + ttl
  }

  predicate SameEntry(a: Store, b: Store, key: Key) {
    if key in a then key in b && a[key] == b[key] else key !in b
  }

  lemma OthersKept(s: Store, ttl: Duration, op: Op, t: Time, k: string)
    ensures !ChangesUser(op, k) ==> SameEntry(s, RedisApply(s, ttl, op, t), UserKey(k))
    ensures !ChangesSession(op, k) ==> SameEntry(s, RedisApply(s, ttl, op, t), SessionKey(k))
    ensures !ChangesMessages(op) ==> SameEntry(s, RedisApply(s, ttl, op, t), MessagesKey)
  {
  }

  /** The answer about a user is the name stored last, without the password, as long as it lasts. */
  lemma {:induction false} RedisUserIsTheLastStored(s: Store, ttl: Duration, calls: seq<Call>, w: nat, k: string, u: User, now: Time)
    requires w < |calls| && forall j | w < j < |calls| :: !ChangesUser(calls[j].op, k)
    ensures var s' := RedisPerformed(s, ttl, calls);
            && (calls[w].op == SetUser(k, u) ==>
                  RedisAsk(s', GetUser(k), now)
                  == UserIs(if Lasts(calls[w].now, now, ttl) then Some(User(Repair(u.username), "")) else None))
            && (calls[w].op == InvalidateUser(k) ==> RedisAsk(s', GetUser(k), now) == UserIs(None))
    decreases |calls|
  {
    if w + 1 < |calls| {
      RedisUserIsTheLastStored(s, ttl, calls[..|calls| - 1], w, k, u, now);
      var last := calls[|calls| - 1];
      OthersKept(RedisPerformed(s, ttl, calls[..|calls| - 1]), ttl, last.op, last.now, k);
    }
  }

  lemma {:induction false} RedisSessionIsTheLastStored(s: Store, ttl: Duration, calls: seq<Call>, w: nat, k: string, u: string,
                                                       now: Time)
    requires w < |calls| && forall j | w < j < |calls| :: !ChangesSession(calls[j].op, k)
    ensures var s' := RedisPerformed(s, ttl, calls);
            && (calls[w].op == SetSession(k, u) ==>
                  RedisAsk(s', GetSession(k), now)
                  == SessionIs(if Lasts(calls[w].now, now, ttl) then Some(Repair(u)) else None))
            && (calls[w].op == InvalidateSession(k) ==> RedisAsk(s', GetSession(k), now) == SessionIs(None))
    decreases |calls|
  {
    if w + 1 < |calls| {
      RedisSessionIsTheLastStored(s, ttl, calls[..|calls| - 1], w, k, u, now);
      var last := calls[|calls| - 1];
      OthersKept(RedisPerformed(s, ttl, calls[..|calls| - 1]), ttl, last.op, last.now, k);
    }
  }

  lemma {:induction false} RedisMessagesAreTheLastStored(s: Store, ttl: Duration, calls: seq<Call>, w: nat, ms: seq<Message>,
                                                         now: Time)
    requires w < |calls| && forall j | w < j < |calls| :: !ChangesMessages(calls[j].op)
    ensures var s' := RedisPerformed(s, ttl, calls);
            && (calls[w].op == SetMessages(ms) && AllIntact(ms) ==>
                  RedisAsk(s', GetMessages, now) == Messages(if Lasts(calls[w].now, now, ttl) then Some(ms) else None))
            && (calls[w].op == InvalidateMessages ==> RedisAsk(s', GetMessages, now) == Messages(None))
    decreases |calls|
  {
    if w + 1 < |calls| {
      RedisMessagesAreTheLastStored(s, ttl, calls[..|calls| - 1], w, ms, now);
      var last := calls[|calls| - 1];
      OthersKept(RedisPerformed(s, ttl, calls[..|calls| - 1]), ttl, last.op, last.now, "");
    } else {
      RepairAllIff(ms);
    }
  }

  // ---------- the class ----------

  class RedisCache {
    var store: Store
    const ttl: Duration

    constructor (ttl: Duration)
      ensures store == map[] && this.ttl == ttl
    {
      this.ttl := ttl;
      store := map[];
    }

    method GetRecentMessages(now: Time) returns (r: Answer)
      ensures r == RedisAsk(store, GetMessages, now)
    {
      var data := Fetch(store, MessagesKey, now);
      if data.None? {
        return Messages(None);
      }
      if !data.value.StoredMessages? {
        return Failed;
      }
      return Messages(Some(data.value.messages));
    }

    method SetRecentMessages(list: seq<Message>, now: Time)
      modifies this
      ensures store == RedisApply(old(store), ttl, SetMessages(list), now)
    {
      store := Put(store, MessagesKey, StoredMessages(RepairAll(list)), now, ttl);
    }

    method AddMessage(message: Message, now: Time) returns (r: Answer)
      modifies this
      ensures store == RedisApply(old(store), ttl, Op.AddMessage(message), now)
      ensures r == RedisAsk(old(store), Op.AddMessage(message), now)
    {
      var found := GetRecentMessages(now);
      if found.Failed? {
        return Failed;
      }
      var list: seq<Message>;
      if found.list.None? {
        list := [message];
      } else {
        list := found.list.value;
        for i := 0 to |list|
          invariant forall j | 0 <= j < i :: !Same(list[j], message)
        {
          if list[i].username == message.username && list[i].text == message.text
             && list[i].timestamp == message.timestamp {
            assert Same(list[i], message);
            return Done;
          }
        }
        list := list + [message];
        if |list| > 100 {
          list := list[|list| - 100..];
        }
      }
      SetRecentMessages(list, now);
      return Done;
    }

    method InvalidateMessages()
      modifies this
      ensures forall now :: store == RedisApply(old(store), ttl, Op.InvalidateMessages, now)
    {
      store := store - {MessagesKey};
    }

    method GetUser(username: string, now: Time) returns (r: Answer)
      ensures r == RedisAsk(store, Op.GetUser(username), now)
    {
      var data := Fetch(store, UserKey(username), now);
      if data.None? {
        return UserIs(None);
      }
      if !data.value.StoredUser? {
        return Failed;
      }
      return UserIs(Some(User(data.value.username, "")));
    }

    method SetUser(username: string, user: User, now: Time)
      modifies this
      ensures store == RedisApply(old(store), ttl, Op.SetUser(username, user), now)
    {
      store := Put(store, UserKey(username), StoredUser(Repair(user.username)), now, ttl);
    }

    method InvalidateUser(username: string)
      modifies this
      ensures forall now :: store == RedisApply(old(store), ttl, Op.InvalidateUser(username), now)
    {
      store := store - {UserKey(username)};
    }

    method GetSession(sessionID: string, now: Time) returns (r: Answer)
      ensures r == RedisAsk(store, Op.GetSession(sessionID), now)
    {
      var data := Fetch(store, SessionKey(sessionID), now);
      if data.None? {
        return SessionIs(None);
      }
      if !data.value.StoredSession? {
        return Failed;
      }
      return SessionIs(Some(data.value.session));
    }

    method SetSession(sessionID: string, username: string, now: Time)
      modifies this
      ensures store == RedisApply(old(store), ttl, Op.SetSession(sessionID, username), now)
    {
      store := Put(store, SessionKey(sessionID), StoredSession(Repair(username)), now, ttl);
    }

    method InvalidateSession(sessionID: string)
      modifies this
      ensures forall now :: store == RedisApply(old(store), ttl, Op.InvalidateSession(sessionID), now)
    {
      store := store - {SessionKey(sessionID)};
    }
  }

  // ---------- the two caches agree ----------

  ghost predicate WindowMirrors(w: Window, s: Store, ttl: Duration) {
    && (MessagesKey in s <==> w.messages != []) && AllIntact(w.messages)
    && (MessagesKey in s ==> s[MessagesKey] == Entry(StoredMessages(w.messages), Some(w.time + ttl)))
  }

  ghost predicate UsersMirror(t: Table<User>, s: Store, ttl: Duration) {
    && (forall k :: UserKey(k) in s <==> k in t)
    && (forall k | k in t :: t[k].value.password == ""
                             && s[UserKey(k)] == Entry(StoredUser(t[k].value.username), Some(t[k].time + ttl)))
  }

  ghost predicate SessionsMirror(t: Table<string>, s: Store, ttl: Duration) {
    && (forall k :: SessionKey(k) in s <==> k in t)
    && (forall k | k in t :: s[SessionKey(k)] == Entry(StoredSession(t[k].value), Some(t[k].time + ttl)))
  }

  /** The Redis store holds exactly what the memory cache holds, with matching expiry times. */
  ghost predicate Mirrors(c: Contents, s: Store, ttl: Duration) {
    WindowMirrors(c.window, s, ttl) && UsersMirror(c.users, s, ttl) && SessionsMirror(c.sessions, s, ttl)
  }

  /**
   The calls on which the caches are promised to agree: no list is stored empty, no user is stored with a
   password, texts and names are well-formed, no read falls on the very instant of expiry, and no message is
   added to a list that has expired.
   */
  ghost predicate Comfortable(c: Contents, call: Call, ttl: Duration) {
    match call.op
    case GetMessages => c.window.messages != [] ==> call.now != c.window.time + ttl
    case SetMessages(ms) => ms != [] && AllIntact(ms)
    case AddMessage(m) => Wire.Intact(m) && (c.window.messages != [] ==> call.now < c.window.time + ttl)
    case GetUser(k) => k in c.users ==> call.now != c.users[k].time + ttl
    case SetUser(_, u) => u.password == "" && WellFormed(u.username)
    case GetSession(k) => k in c.sessions ==> call.now != c.sessions[k].time + ttl
    case SetSession(_, u) => WellFormed(u)
    case _ => true
  }

  ghost predicate AllComfortable(c: Contents, calls: seq<Call>, ttl: Duration)
    decreases |calls|
  {
    calls == [] || (Comfortable(c, calls[0], ttl) && AllComfortable(Apply(c, calls[0].op, calls[0].now), calls[1..], ttl))
  }

  lemma MirrorsAnswer(c: Contents, s: Store, ttl: Duration, call: Call)
    requires 0 < ttl < MAX_DURATION && Mirrors(c, s, ttl) && Comfortable(c, call, ttl)
    ensures Ask(c, call.op, call.now, ttl) == RedisAsk(s, call.op, call.now)
  {
  }

  lemma AddMirrors(c: Contents, s: Store, ttl: Duration, m: Message, now: Time)
    requires 0 < ttl < MAX_DURATION && Mirrors(c, s, ttl)
    requires Wire.Intact(m) && (c.window.messages != [] ==> now < c.window.time + ttl)
    ensures Mirrors(Apply(c, Op.AddMessage(m), now), RedisApply(s, ttl, Op.AddMessage(m), now), ttl)
  {
    assert Admit([], m) == [m];
    var ms := Admit(c.window.messages, m);
    assert AllIntact(ms);
    RepairAllIff(ms);
    PutWindowMirrors(c, s, ttl, ms, now);
  }

  lemma PutWindowMirrors(c: Contents, s: Store, ttl: Duration, ms: seq<Message>, now: Time)
    requires Mirrors(c, s, ttl)
    ensures ms != [] && AllIntact(ms) ==> Mirrors(c.(window := Window(ms, now)),
                                 s[MessagesKey := Entry(StoredMessages(ms), Some(now + ttl))], ttl)
    ensures Mirrors(c.(window := EMPTY_WINDOW), s - {MessagesKey}, ttl)
  {
  }

  lemma PutUserMirrors(c: Contents, s: Store, ttl: Duration, k: string, username: string, now: Time)
    requires Mirrors(c, s, ttl)
    ensures Mirrors(c.(users := c.users[k := Stamped(User(username, ""), now)]),
                    s[UserKey(k) := Entry(StoredUser(username), Some(now + ttl))], ttl)
    ensures Mirrors(c.(users := c.users - {k}), s - {UserKey(k)}, ttl)
  {
  }

  lemma PutSessionMirrors(c: Contents, s: Store, ttl: Duration, k: string, username: string, now: Time)
    requires Mirrors(c, s, ttl)
    ensures Mirrors(c.(sessions := c.sessions[k := Stamped(username, now)]),
                    s[SessionKey(k) := Entry(StoredSession(username), Some(now + ttl))], ttl)
    ensures Mirrors(c.(sessions := c.sessions - {k}), s - {SessionKey(k)}, ttl)
  {
  }

  predicate OnMessages(op: Op) {
    op.GetMessages? || op.SetMessages? || op.AddMessage? || op.InvalidateMessages?
  }

  predicate OnUsers(op: Op) {
    op.GetUser? || op.SetUser? || op.InvalidateUser?
  }

  lemma MessageOpMirrors(c: Contents, s: Store, ttl: Duration, call: Call)
    requires 0 < ttl < MAX_DURATION && Mirrors(c, s, ttl) && Comfortable(c, call, ttl) && OnMessages(call.op)
    ensures Mirrors(Apply(c, call.op, call.now), RedisApply(s, ttl, call.op, call.now), ttl)
  {
    match call.op
    case AddMessage(m) => AddMirrors(c, s, ttl, m, call.now);
    case SetMessages(ms) =>
      RepairAllIff(ms);
      PutWindowMirrors(c, s, ttl, ms, call.now);
    case InvalidateMessages => PutWindowMirrors(c, s, ttl, [], call.now);
    case GetMessages =>
  }

  lemma UserOpMirrors(c: Contents, s: Store, ttl: Duration, call: Call)
    requires 0 < ttl < MAX_DURATION && Mirrors(c, s, ttl) && Comfortable(c, call, ttl) && OnUsers(call.op)
    ensures Mirrors(Apply(c, call.op, call.now), RedisApply(s, ttl, call.op, call.now), ttl)
  {
    match call.op
    case SetUser(k, u) =>
      RepairIff(u.username);
      PutUserMirrors(c, s, ttl, k, u.username, call.now);
    case InvalidateUser(k) => PutUserMirrors(c, s, ttl, k, "", call.now);
    case GetUser(_) =>
  }

  lemma SessionOpMirrors(c: Contents, s: Store, ttl: Duration, call: Call)
    requires 0 < ttl < MAX_DURATION && Mirrors(c, s, ttl) && Comfortable(c, call, ttl) && !OnMessages(call.op) && !OnUsers(call.op)
    ensures Mirrors(Apply(c, call.op, call.now), RedisApply(s, ttl, call.op, call.now), ttl)
  {
    match call.op
    case SetSession(k, u) =>
      RepairIff(u);
      PutSessionMirrors(c, s, ttl, k, u, call.now);
    case InvalidateSession(k) => PutSessionMirrors(c, s, ttl, k, "", call.now);
    case GetSession(_) =>
  }

  /**
   For every sequence of operations on which they are promised to agree, a caller cannot tell the
   cache in memory from the cache in Redis.
   */
  lemma {:induction false} CachesAgree(c: Contents, s: Store, ttl: Duration, calls: seq<Call>)
    requires 0 < ttl < MAX_DURATION && Mirrors(c, s, ttl)
    requires AllComfortable(c, calls, ttl)
    ensures Answers(c, calls, ttl) == RedisAnswers(s, ttl, calls)
    decreases |calls|
  {
    if calls != [] {
      MirrorsAnswer(c, s, ttl, calls[0]);
      if OnMessages(calls[0].op) {
        MessageOpMirrors(c, s, ttl, calls[0]);
      } else if OnUsers(calls[0].op) {
        UserOpMirrors(c, s, ttl, calls[0]);
      } else {
        SessionOpMirrors(c, s, ttl, calls[0]);
      }
      CachesAgree(Apply(c, calls[0].op, calls[0].now), RedisApply(s, ttl, calls[0].op, calls[0].now), ttl, calls[1..]);
    }
  }

  lemma EmptyCachesMirror(ttl: Duration)
    ensures Mirrors(EMPTY_CONTENTS, map[], ttl)
  {
  }

  /** Starting empty, on every comfortable run. */
  lemma FreshCachesAgree(ttl: Duration, calls: seq<Call>)
    requires 0 < ttl < MAX_DURATION && AllComfortable(EMPTY_CONTENTS, calls, ttl)
    ensures Answers(EMPTY_CONTENTS, calls, ttl) == RedisAnswers(map[], ttl, calls)
  {
    EmptyCachesMirror(ttl);
    CachesAgree(EMPTY_CONTENTS, map[], ttl, calls);
  }

  // ---------- and exactly when they do not ----------

  /** A read of mirrored lists agrees except at the very instant of expiry. */
  lemma ReadsAgreeIff(c: Contents, s: Store, ttl: Duration, now: Time)
    requires 0 < ttl < MAX_DURATION && Mirrors(c, s, ttl)
    ensures Ask(c, GetMessages, now, ttl) == RedisAsk(s, GetMessages, now)
       <==> (c.window.messages == [] || now != c.window.time + ttl)
  {
  }

  /** Storing a list keeps the caches alike exactly when the list is not empty and its messages well-formed. */
  lemma SetsAgreeIff(c: Contents, s: Store, ttl: Duration, ms: seq<Message>, now: Time)
    requires 0 < ttl < MAX_DURATION && Mirrors(c, s, ttl)
    ensures Ask(Apply(c, SetMessages(ms), now), GetMessages, now, ttl)
         == RedisAsk(RedisApply(s, ttl, SetMessages(ms), now), GetMessages, now)
       <==> ms != [] && AllIntact(ms)
  {
    RepairAllIff(ms);
  }

  /**
   Adding a message keeps the caches alike exactly when the message is well-formed and the stored list has
   not expired.
   */
  lemma AddsAgreeIff(c: Contents, s: Store, ttl: Duration, m: Message, now: Time)
    requires 0 < ttl < MAX_DURATION && Mirrors(c, s, ttl)
    ensures Mirrors(Apply(c, Op.AddMessage(m), now), RedisApply(s, ttl, Op.AddMessage(m), now), ttl)
       <==> Wire.Intact(m) && (c.window.messages == [] || now < c.window.time + ttl)
  {
    if Wire.Intact(m) && (c.window.messages == [] || now < c.window.time + ttl) {
      AddMirrors(c, s, ttl, m, now);
    } else if !Contains(c.window.messages, m) {
      var ms := Admit(c.window.messages, m);
      assert ms[|ms| - 1] == m;
      assert c.window.messages != [] ==> |ms| >= 2;
    } else {
      var i :| 0 <= i < |c.window.messages| && Same(c.window.messages[i], m);
      assert c.window.messages[i] in c.window.messages;
    }
  }
}
