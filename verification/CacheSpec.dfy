/**
 The meaning of the in-memory cache, as functions on values, and what can be observed of it:
 the deduplicating window of recent messages, the time-stamped tables and the cleanup pass.
 */
module CacheSpec {
  import opened Types

  const CACHE_LIMIT: nat := 100

  // ---------- the deduplicating window ----------

  /** Two messages the cache takes for the same one: the identifier plays no part. */
  predicate Same(a: Message, b: Message) {
    a.username == b.username && a.text == b.text && a.timestamp == b.timestamp
  }

  predicate Contains(ms: seq<Message>, m: Message) {
    exists i | 0 <= i < |ms| :: Same(ms[i], m)
  }

  ghost predicate DuplicateFree(ms: seq<Message>) {
    forall i, j | 0 <= i < j < |ms| :: !Same(ms[i], ms[j])
  }

  /** The window after a message was offered to it. */
  function Admit(ms: seq<Message>, m: Message): seq<Message> {
    if Contains(ms, m) then ms else LastN(ms + [m], CACHE_LIMIT)
  }

  function AdmitAll(ms: seq<Message>, arrivals: seq<Message>): seq<Message> {
    if arrivals == [] then ms
    else Admit(AdmitAll(ms, arrivals[..|arrivals| - 1]), arrivals[|arrivals| - 1])
  }

  /** The arrivals that were not duplicates of the window they met, in arrival order. */
  function Admitted(ms: seq<Message>, arrivals: seq<Message>): seq<Message> {
    if arrivals == [] then []
    else
      var before := arrivals[..|arrivals| - 1];
      var m := arrivals[|arrivals| - 1];
      Admitted(ms, before) + (if Contains(AdmitAll(ms, before), m) then [] else [m])
  }

  /**
   Over any run of arrivals the window stays free of duplicates, never exceeds the limit, and is
   exactly the newest part of the starting window followed by the admitted arrivals.
   */
  lemma {:induction false} WindowOverRun(ms: seq<Message>, arrivals: seq<Message>)
    requires DuplicateFree(ms) && |ms| <= CACHE_LIMIT
    ensures DuplicateFree(AdmitAll(ms, arrivals))
    ensures AdmitAll(ms, arrivals) == LastN(ms + Admitted(ms, arrivals), CACHE_LIMIT)
  {
    if arrivals != [] {
      var before := arrivals[..|arrivals| - 1];
      var m := arrivals[|arrivals| - 1];
      WindowOverRun(ms, before);
      var w := AdmitAll(ms, before);
      if Contains(w, m) {
        assert Admitted(ms, arrivals) == Admitted(ms, before);
      } else {
        assert ms + Admitted(ms, arrivals) == (ms + Admitted(ms, before)) + [m];
        LastNAppend(ms + Admitted(ms, before), [m], CACHE_LIMIT);
        assert DuplicateFree(w + [m]);
      }
    }
  }

  /** A message is admitted at the end of a run exactly when the window did not hold it already. */
  lemma NewestIsHeld(ms: seq<Message>, arrivals: seq<Message>)
    requires arrivals != []
    ensures Contains(AdmitAll(ms, arrivals), arrivals[|arrivals| - 1])
    ensures |Admitted(ms, arrivals)| <= |arrivals|
  {
    var m := arrivals[|arrivals| - 1];
    var w := AdmitAll(ms, arrivals[..|arrivals| - 1]);
    if !Contains(w, m) {
      var r := LastN(w + [m], CACHE_LIMIT);
      assert r[|r| - 1] == m;
    }
    AdmittedLength(ms, arrivals);
  }

  lemma AdmittedLength(ms: seq<Message>, arrivals: seq<Message>)
    ensures |Admitted(ms, arrivals)| <= |arrivals|
  {
  }

  // ---------- cache contents ----------

  /** The recent messages and the moment they were stored. */
  datatype Window = Window(messages: seq<Message>, time: Time)

  const EMPTY_WINDOW := Window([], ZERO_TIME)

  function ReadWindow(w: Window, now: Time, ttl: Duration): Option<seq<Message>> {
    if Stale(now, w.time, ttl) || w.messages == [] then None else Some(w.messages)
  }

  /** The age of the window is not looked at before the message is added. */
  function AddToWindow(w: Window, m: Message, now: Time): Window {
    if Contains(w.messages, m) then w else Window(Admit(w.messages, m), now)
  }

  /** A cached value and the moment it was stored. */
  datatype Stamped<+V> = Stamped(value: V, time: Time)

  type Table<V> = map<string, Stamped<V>>

  function Lookup<V>(t: Table<V>, key: string, now: Time, ttl: Duration): Option<V> {
    if key !in t || Stale(now, t[key].time, ttl) then None else Some(t[key].value)
  }

  function Sweep<V>(t: Table<V>, now: Time, ttl: Duration): Table<V> {
    map key | key in t && !Stale(now, t[key].time, ttl) :: t[key]
  }

  datatype User = User(username: string, password: string)

  /** Everything the cache holds, apart from its hit and miss counters. Sessions map to usernames. */
  datatype Contents = Contents(window: Window, users: Table<User>, sessions: Table<string>)

  const EMPTY_CONTENTS := Contents(EMPTY_WINDOW, map[], map[])

  function SweepWindow(w: Window, now: Time, ttl: Duration): Window {
    if Stale(now, w.time, ttl) then EMPTY_WINDOW else w
  }

  function Cleanup(c: Contents, now: Time, ttl: Duration): Contents {
    Contents(SweepWindow(c.window, now, ttl), Sweep(c.users, now, ttl), Sweep(c.sessions, now, ttl))
  }

  // ---------- operations and what a caller sees ----------

  datatype Op =
    | GetMessages
    | SetMessages(messages: seq<Message>)
    | AddMessage(message: Message)
    | InvalidateMessages
    | GetUser(key: string)
    | SetUser(key: string, user: User)
    | InvalidateUser(key: string)
    | GetSession(key: string)
    | SetSession(key: string, username: string)
    | InvalidateSession(key: string)

  datatype Answer =
    | Done
    | Messages(list: Option<seq<Message>>)
    | UserIs(user: Option<User>)
    | SessionIs(username: Option<string>)
    | Failed

  function Apply(c: Contents, op: Op, now: Time): Contents {
    match op
    case SetMessages(ms) => c.(window := Window(ms, now))
    case AddMessage(m) => c.(window := AddToWindow(c.window, m, now))
    case InvalidateMessages => c.(window := EMPTY_WINDOW)
    case SetUser(k, u) => c.(users := c.users[k := Stamped(u, now)])
    case InvalidateUser(k) => c.(users := c.users - {k})
    case SetSession(k, u) => c.(sessions := c.sessions[k := Stamped(u, now)])
    case InvalidateSession(k) => c.(sessions := c.sessions - {k})
    case _ => c
  }

  function Ask(c: Contents, op: Op, now: Time, ttl: Duration): Answer {
    match op
    case GetMessages => Messages(ReadWindow(c.window, now, ttl))
    case GetUser(k) => UserIs(Lookup(c.users, k, now, ttl))
    case GetSession(k) => SessionIs(Lookup(c.sessions, k, now, ttl))
    case _ => Done
  }

  datatype Call = Call(op: Op, now: Time)

  /** What the callers of a sequence of operations see. */
  function Answers(c: Contents, calls: seq<Call>, ttl: Duration): seq<Answer>
    decreases |calls|
  {
    if calls == [] then []
    else [Ask(c, calls[0].op, calls[0].now, ttl)] + Answers(Apply(c, calls[0].op, calls[0].now), calls[1..], ttl)
  }

  // ---------- what is answered ----------

  /** The contents after these calls. */
  function Performed(c: Contents, calls: seq<Call>): Contents {
    if calls == [] then c else Apply(Performed(c, calls[..|calls| - 1]), calls[|calls| - 1].op, calls[|calls| - 1].now)
  }

  predicate ChangesUser(op: Op, k: string) {
    (op.SetUser? || op.InvalidateUser?) && op.key == k
  }

  predicate ChangesSession(op: Op, k: string) {
    (op.SetSession? || op.InvalidateSession?) && op.key == k
  }

  predicate ChangesMessages(op: Op) {
    op.SetMessages? || op.AddMessage? || op.InvalidateMessages?
  }

  /**
   What is answered about a user is what was stored last, until its lifetime is over or the user is
   invalidated, whatever else is called in between.
   */
  lemma {:induction false} UserIsTheLastStored(c: Contents, calls: seq<Call>, w: nat, k: string, u: User, now: Time, ttl: Duration)
    requires w < |calls| && ttl < MAX_DURATION
    requires forall j | w < j < |calls| :: !ChangesUser(calls[j].op, k)
    ensures calls[w].op == SetUser(k, u) ==>
              Ask(Performed(c, calls), GetUser(k), now, ttl) == UserIs(if now - calls[w].now > ttl then None else Some(u))
    ensures calls[w].op == InvalidateUser(k) ==> Ask(Performed(c, calls), GetUser(k), now, ttl) == UserIs(None)
    decreases |calls|
  {
    if w + 1 < |calls| {
      UserIsTheLastStored(c, calls[..|calls| - 1], w, k, u, now, ttl);
    }
  }

  /** So for sessions. */
  lemma {:induction false} SessionIsTheLastStored(c: Contents, calls: seq<Call>, w: nat, k: string, u: string,
                                                  now: Time, ttl: Duration)
    requires w < |calls| && ttl < MAX_DURATION
    requires forall j | w < j < |calls| :: !ChangesSession(calls[j].op, k)
    ensures calls[w].op == SetSession(k, u) ==>
              Ask(Performed(c, calls), GetSession(k), now, ttl) == SessionIs(if now - calls[w].now > ttl then None else Some(u))
    ensures calls[w].op == InvalidateSession(k) ==> Ask(Performed(c, calls), GetSession(k), now, ttl) == SessionIs(None)
    decreases |calls|
  {
    if w + 1 < |calls| {
      SessionIsTheLastStored(c, calls[..|calls| - 1], w, k, u, now, ttl);
    }
  }

  /** And for the messages, where an empty list is as good as none. */
  lemma {:induction false} MessagesAreTheLastStored(c: Contents, calls: seq<Call>, w: nat, ms: seq<Message>, now: Time, ttl: Duration)
    requires w < |calls| && ttl < MAX_DURATION
    requires forall j | w < j < |calls| :: !ChangesMessages(calls[j].op)
    ensures calls[w].op == SetMessages(ms) ==>
              Ask(Performed(c, calls), GetMessages, now, ttl)
              == Messages(if ms == [] || now - calls[w].now > ttl then None else Some(ms))
    ensures calls[w].op == InvalidateMessages ==> Ask(Performed(c, calls), GetMessages, now, ttl) == Messages(None)
    decreases |calls|
  {
    if w + 1 < |calls| {
      MessagesAreTheLastStored(c, calls[..|calls| - 1], w, ms, now, ttl);
    }
  }

  /**
   Adding a message, spelled out: one with the same author, text and time as one that is there changes
   nothing; any other goes to the end, renews the list, and pushes the oldest out of a full one.
   */
  lemma AdditionIsSpelled(c: Contents, m: Message, now: Time)
    ensures var ms, c' := c.window.messages, Apply(c, AddMessage(m), now);
            && c'.users == c.users && c'.sessions == c.sessions
            && if exists x | x in ms :: x.username == m.username && x.text == m.text && x.timestamp == m.timestamp
               then c'.window == c.window
               else c'.window == Window(if |ms| < 100 then ms + [m] else ms[|ms| - 99..] + [m], now)
  {
    var ms := c.window.messages;
    if x :| x in ms && x.username == m.username && x.text == m.text && x.timestamp == m.timestamp {
      var i :| 0 <= i < |ms| && ms[i] == x;
      assert Same(ms[i], m);
    }
    if Contains(ms, m) {
      var i :| 0 <= i < |ms| && Same(ms[i], m);
      assert ms[i] in ms;
    }
  }

  /** A cleanup pass, spelled out: exactly what has outlived its lifetime goes. */
  lemma CleanupIsSpelled(c: Contents, now: Time, ttl: Duration, k: string)
    requires ttl < MAX_DURATION
    ensures var c' := Cleanup(c, now, ttl);
            && (k in c'.users <==> k in c.users && now - c.users[k].time <= ttl)
            && (k in c'.users ==> c'.users[k] == c.users[k])
            && (k in c'.sessions <==> k in c.sessions && now - c.sessions[k].time <= ttl)
            && (k in c'.sessions ==> c'.sessions[k] == c.sessions[k])
            && c'.window == if now - c.window.time > ttl then Window([], 0) else c.window
  {
  }

  // ---------- cleanup cannot be observed ----------

  /** What was stale stays stale as time passes. */
  lemma StaleIsMonotone(now: Time, later: Time, since: Time, ttl: Duration)
    requires now <= later && Stale(now, since, ttl)
    ensures Stale(later, since, ttl)
  {
  }

  /** a differs from b only by entries of b that were already stale at time now. */
  ghost predicate SweptTable<V>(a: Table<V>, b: Table<V>, now: Time, ttl: Duration) {
    && a.Keys <= b.Keys
    && (forall k | k in b :: if k in a then a[k] == b[k] else Stale(now, b[k].time, ttl))
  }

  ghost predicate Swept(a: Contents, b: Contents, now: Time, ttl: Duration) {
    && (a.window == b.window || (a.window.messages == [] && Stale(now, b.window.time, ttl)))
    && SweptTable(a.users, b.users, now, ttl)
    && SweptTable(a.sessions, b.sessions, now, ttl)
  }

  lemma SweptLookup<V>(a: Table<V>, b: Table<V>, k: string, now: Time, t: Time, ttl: Duration)
    requires SweptTable(a, b, now, ttl) && now <= t
    ensures Lookup(a, k, t, ttl) == Lookup(b, k, t, ttl)
  {
  }

  /** One operation at a later time neither sees the difference nor enlarges it. */
  lemma SweptStep(a: Contents, b: Contents, op: Op, t: Time, now: Time, ttl: Duration)
    requires Swept(a, b, now, ttl) && now <= t && !op.AddMessage?
    ensures Ask(a, op, t, ttl) == Ask(b, op, t, ttl)
    ensures Swept(Apply(a, op, t), Apply(b, op, t), now, ttl)
  {
    match op
    case GetMessages =>
      if Stale(now, b.window.time, ttl) {
        StaleIsMonotone(now, t, b.window.time, ttl);
      }
    case GetUser(k) => SweptLookup(a.users, b.users, k, now, t, ttl);
    case GetSession(k) => SweptLookup(a.sessions, b.sessions, k, now, t, ttl);
    case _ =>
  }

  lemma {:induction false} SweptAnswersAgree(a: Contents, b: Contents, calls: seq<Call>, now: Time, ttl: Duration)
    requires Swept(a, b, now, ttl)
    requires forall i | 0 <= i < |calls| :: now <= calls[i].now && !calls[i].op.AddMessage?
    ensures Answers(a, calls, ttl) == Answers(b, calls, ttl)
    decreases |calls|
  {
    if calls != [] {
      SweptStep(a, b, calls[0].op, calls[0].now, now, ttl);
      SweptAnswersAgree(Apply(a, calls[0].op, calls[0].now), Apply(b, calls[0].op, calls[0].now), calls[1..], now, ttl);
    }
  }

  /**
   A cleanup pass at time now changes no answer of any later sequence of get, set and invalidate
   operations on messages, users and sessions.
   */
  lemma {:induction false} CleanupIsInvisible(c: Contents, now: Time, calls: seq<Call>, ttl: Duration)
    requires forall i | 0 <= i < |calls| :: now <= calls[i].now && !calls[i].op.AddMessage?
    ensures Answers(Cleanup(c, now, ttl), calls, ttl) == Answers(c, calls, ttl)
  {
    SweptAnswersAgree(Cleanup(c, now, ttl), c, calls, now, ttl);
  }

  // ---------- a pass in pieces ----------

  /**
   The pass takes each lock on its own: it sweeps the users, then the sessions, reads the age of the
   messages under one lock and clears them under another. Calls run in between.
   */
  datatype Act = Perform(call: Call) | SweepUsers | SweepSessions | Check | Clear

  /** The contents, and whether the pass found the messages stale. */
  datatype Passing = Passing(contents: Contents, stale: bool)

  function AfterAct(p: Passing, act: Act, now: Time, ttl: Duration): Passing {
    match act
    case Perform(call) => p.(contents := Apply(p.contents, call.op, call.now))
    case SweepUsers => p.(contents := p.contents.(users := Sweep(p.contents.users, now, ttl)))
    case SweepSessions => p.(contents := p.contents.(sessions := Sweep(p.contents.sessions, now, ttl)))
    case Check => p.(stale := Stale(now, p.contents.window.time, ttl))
    case Clear => if p.stale then p.(contents := p.contents.(window := EMPTY_WINDOW)) else p
  }

  /** What the callers see while the pieces of a pass run between their calls. */
  function AnswersAmid(p: Passing, acts: seq<Act>, now: Time, ttl: Duration): seq<Answer>
    decreases |acts|
  {
    if acts == [] then []
    else
      (if acts[0].Perform? then [Ask(p.contents, acts[0].call.op, acts[0].call.now, ttl)] else [])
      + AnswersAmid(AfterAct(p, acts[0], now, ttl), acts[1..], now, ttl)
  }

  function CallsOf(acts: seq<Act>): seq<Call>
    decreases |acts|
  {
    if acts == [] then [] else (if acts[0].Perform? then [acts[0].call] else []) + CallsOf(acts[1..])
  }

  /** a is b without entries that were stale at time now, and perhaps without its messages. */
  ghost predicate Lacks(a: Contents, b: Contents, now: Time, ttl: Duration) {
    && (a.window == b.window || a.window.messages == [])
    && SweptTable(a.users, b.users, now, ttl)
    && SweptTable(a.sessions, b.sessions, now, ttl)
  }

  ghost predicate SameOrMiss(x: Answer, y: Answer) {
    x == y || (x == Messages(None) && y.Messages?)
  }

  /** One call at a later time sees the same or a miss, and does not enlarge the difference. */
  lemma LacksCall(a: Contents, b: Contents, call: Call, now: Time, ttl: Duration)
    requires Lacks(a, b, now, ttl) && now <= call.now && !call.op.AddMessage?
    ensures SameOrMiss(Ask(a, call.op, call.now, ttl), Ask(b, call.op, call.now, ttl))
    ensures Lacks(Apply(a, call.op, call.now), Apply(b, call.op, call.now), now, ttl)
  {
    match call.op
    case GetUser(k) => SweptLookup(a.users, b.users, k, now, call.now, ttl);
    case GetSession(k) => SweptLookup(a.sessions, b.sessions, k, now, call.now, ttl);
    case _ =>
  }

  lemma LacksPiece(p: Passing, b: Contents, act: Act, now: Time, ttl: Duration)
    requires Lacks(p.contents, b, now, ttl) && !act.Perform?
    ensures Lacks(AfterAct(p, act, now, ttl).contents, b, now, ttl)
  {
  }

  /**
   The pieces of a pass may fall anywhere between the calls, in any order and any number: each answer on
   users and sessions is as without the pass, and each answer on messages is the same or a miss.
   */
  lemma {:induction false} SplitCleanupOnlyMisses(p: Passing, b: Contents, acts: seq<Act>, now: Time, ttl: Duration)
    requires Lacks(p.contents, b, now, ttl)
    requires forall i | 0 <= i < |acts| && acts[i].Perform? :: now <= acts[i].call.now && !acts[i].call.op.AddMessage?
    ensures |AnswersAmid(p, acts, now, ttl)| == |Answers(b, CallsOf(acts), ttl)|
    ensures forall i | 0 <= i < |AnswersAmid(p, acts, now, ttl)| ::
              SameOrMiss(AnswersAmid(p, acts, now, ttl)[i], Answers(b, CallsOf(acts), ttl)[i])
    decreases |acts|
  {
    if acts != [] {
      var rest, p' := acts[1..], AfterAct(p, acts[0], now, ttl);
      if acts[0].Perform? {
        var call := acts[0].call;
        LacksCall(p.contents, b, call, now, ttl);
        SplitCleanupOnlyMisses(p', Apply(b, call.op, call.now), rest, now, ttl);
        assert CallsOf(acts)[0] == call && CallsOf(acts)[1..] == CallsOf(rest);
      } else {
        LacksPiece(p, b, acts[0], now, ttl);
        SplitCleanupOnlyMisses(p', b, rest, now, ttl);
        assert CallsOf(acts) == CallsOf(rest);
        assert AnswersAmid(p, acts, now, ttl) == AnswersAmid(p', rest, now, ttl);
      }
    }
  }

  /** In one go, the pieces are the pass. */
  lemma PiecesAreThePass(c: Contents, now: Time, ttl: Duration)
    ensures AfterAct(AfterAct(AfterAct(AfterAct(Passing(c, false), SweepUsers, now, ttl), SweepSessions, now, ttl), Check, now, ttl),
                     Clear, now, ttl).contents == Cleanup(c, now, ttl)
  {
  }

  /**
   Adding a message does not look at the age of the window, so it is the one operation that can tell
   whether cleanup ran: it can, right after the pass, exactly when there were stale messages to discard.
   */
  lemma AddMessageSeesCleanup(w: Window, m: Message, now: Time, ttl: Duration)
    ensures ReadWindow(AddToWindow(SweepWindow(w, now, ttl), m, now), now, ttl)
         == ReadWindow(AddToWindow(w, m, now), now, ttl)
       <==> !(Stale(now, w.time, ttl) && w.messages != []) || ttl < 0
  {
    if Stale(now, w.time, ttl) && w.messages != [] && ttl >= 0 {
      var swept := AddToWindow(EMPTY_WINDOW, m, now);
      assert swept == Window([m], now);
      if !Contains(w.messages, m) {
        assert |AddToWindow(w, m, now).messages| >= 2;
      }
    }
  }
}
