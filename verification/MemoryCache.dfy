/**
 The cache kept in the server's memory. Each method is one critical section of the original; the
 current time is a parameter.
 */
module MemoryCaches {
  import opened Types
  import opened CacheSpec

  class MemoryCache {
    var messages: seq<Message>
    var messagesTime: Time
    var users: Table<User>
    var sessions: Table<string>
    var hits: nat
    var misses: nat
    const ttl: Duration

    ghost function State(): Contents
      reads this
    {
      Contents(Window(messages, messagesTime), users, sessions)
    }

    constructor (ttl: Duration)
      ensures State() == EMPTY_CONTENTS && hits == misses == 0 && this.ttl == ttl
    {
      this.ttl := ttl;
      messages, messagesTime := [], ZERO_TIME;
      users, sessions := map[], map[];
      hits, misses := 0, 0;
    }

    method UpdateStats(hit: bool)
      modifies this`hits, this`misses
      ensures hits == old(hits) + if hit then 1 else 0
      ensures misses == old(misses) + if hit then 0 else 1
    {
      if hit {
        hits := hits + 1;
      } else {
        misses := misses + 1;
      }
    }

    method GetRecentMessages(now: Time) returns (r: Option<seq<Message>>)
      modifies this`hits, this`misses
      ensures Messages(r) == Ask(State(), GetMessages, now, ttl)
      ensures hits + misses == old(hits + misses) + 1 && (hits > old(hits) <==> r.Some?)
    {
      if Stale(now, messagesTime, ttl) {
        UpdateStats(false);
        return None;
      }
      if |messages| == 0 {
        UpdateStats(false);
        return None;
      }
      UpdateStats(true);
      return Some(messages);
    }

    method SetRecentMessages(list: seq<Message>, now: Time)
      modifies this`messages, this`messagesTime
      ensures State() == Apply(old(State()), SetMessages(list), now)
    {
      messages := list;
      messagesTime := now;
    }

    method AddMessage(message: Message, now: Time)
      modifies this`messages, this`messagesTime
      ensures State() == Apply(old(State()), Op.AddMessage(message), now)
    {
      for i := 0 to |messages|
        invariant forall j | 0 <= j < i :: !Same(messages[j], message)
        invariant State() == old(State())
      {
        if messages[i].username == message.username && messages[i].text == message.text
           && messages[i].timestamp == message.timestamp {
          assert Same(messages[i], message);
          return;
        }
      }
      messages := messages + [message];
      if |messages| > 100 {
        messages := messages[|messages| - 100..];
      }
      messagesTime := now;
    }

    method InvalidateMessages()
      modifies this`messages, this`messagesTime
      ensures forall now :: State() == Apply(old(State()), Op.InvalidateMessages, now)
    {
      messages := [];
      messagesTime := ZERO_TIME;
    }

    method GetUser(username: string, now: Time) returns (r: Option<User>)
      modifies this`hits, this`misses
      ensures UserIs(r) == Ask(State(), Op.GetUser(username), now, ttl)
      ensures hits + misses == old(hits + misses) + 1 && (hits > old(hits) <==> r.Some?)
    {
      if username !in users || Stale(now, users[username].time, ttl) {
        UpdateStats(false);
        return None;
      }
      UpdateStats(true);
      return Some(users[username].value);
    }

    method SetUser(username: string, user: User, now: Time)
      modifies this`users
      ensures State() == Apply(old(State()), Op.SetUser(username, user), now)
    {
      users := users[username := Stamped(user, now)];
    }

    method InvalidateUser(username: string)
      modifies this`users
      ensures forall now :: State() == Apply(old(State()), Op.InvalidateUser(username), now)
    {
      users := users - {username};
    }

    method GetSession(sessionID: string, now: Time) returns (r: Option<string>)
      modifies this`hits, this`misses
      ensures SessionIs(r) == Ask(State(), Op.GetSession(sessionID), now, ttl)
      ensures hits + misses == old(hits + misses) + 1 && (hits > old(hits) <==> r.Some?)
    {
      if sessionID !in sessions || Stale(now, sessions[sessionID].time, ttl) {
        UpdateStats(false);
        return None;
      }
      UpdateStats(true);
      return Some(sessions[sessionID].value);
    }

    method SetSession(sessionID: string, username: string, now: Time)
      modifies this`sessions
      ensures State() == Apply(old(State()), Op.SetSession(sessionID, username), now)
    {
      sessions := sessions[sessionID := Stamped(username, now)];
    }

    method InvalidateSession(sessionID: string)
      modifies this`sessions
      ensures forall now :: State() == Apply(old(State()), Op.InvalidateSession(sessionID), now)
    {
      sessions := sessions - {sessionID};
    }

    /** Walks both tables, deleting while iterating, then drops the messages if they are stale. */
    method Cleanup(now: Time)
      modifies this`messages, this`messagesTime, this`users, this`sessions
      ensures State() == CacheSpec.Cleanup(old(State()), now, ttl)
    {
      var pending := users.Keys;
      while pending != {}
        modifies this`users
        invariant pending <= users.Keys <= old(users).Keys
        invariant forall k | k in users :: users[k] == old(users)[k] && (k in pending || !Stale(now, users[k].time, ttl))
        invariant forall k | k in old(users) && k !in users :: Stale(now, old(users)[k].time, ttl)
      {
        var username :| username in pending;
        if Stale(now, users[username].time, ttl) {
          users := users - {username};
        }
        pending := pending - {username};
      }
      assert users == Sweep(old(users), now, ttl);

      pending := sessions.Keys;
      while pending != {}
        modifies this`sessions
        invariant pending <= sessions.Keys <= old(sessions).Keys
        invariant forall k | k in sessions :: sessions[k] == old(sessions)[k] && (k in pending || !Stale(now, sessions[k].time, ttl))
        invariant forall k | k in old(sessions) && k !in sessions :: Stale(now, old(sessions)[k].time, ttl)
      {
        var sessionID :| sessionID in pending;
        if Stale(now, sessions[sessionID].time, ttl) {
          sessions := sessions - {sessionID};
        }
        pending := pending - {sessionID};
      }
      assert sessions == Sweep(old(sessions), now, ttl);

      var oldTime := messagesTime;
      if Stale(now, oldTime, ttl) {
        label Before:
        InvalidateMessages();
        assert State() == Apply(old@Before(State()), Op.InvalidateMessages, now);
      }
    }

    method GetStats() returns (h: nat, m: nat, size: nat)
      ensures h == hits && m == misses && size == |State().window.messages|
    {
      return hits, misses, |messages|;
    }
  }
}
