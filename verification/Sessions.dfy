/** Sessions: a table of rows with an expiry time, and a cache in front of it that trusts itself. */
module Sessions {
  import opened Types
  import opened CacheSpec
  import opened MemoryCaches
  import Utf8
  import CodePoints

  /** 24 hours. */
  const SESSION_LIFETIME: Time := 86_400_000_000_000

  /** The width of the column for names. */
  const NAME_LIMIT: nat := 50

  /** A name the column for it can hold. */
  predicate FitsName(name: string) {
    Utf8.Storable(name) && Utf8.Length(name) <= NAME_LIMIT
  }

  /** In characters: at most 50 of them, and none is U+0000. */
  lemma FitsNameIff(name: string)
    ensures FitsName(name) <==> exists cps: seq<CodePoints.Scalar> :: CodePoints.Encoded(cps) == name && 0 !in cps && |cps| <= 50
  {
    CodePoints.StorableIff(name);
    if FitsName(name) {
      var cps: seq<CodePoints.Scalar> :| CodePoints.Encoded(cps) == name && 0 !in cps;
      CodePoints.LengthOfEncoded(cps);
    }
    if cps: seq<CodePoints.Scalar> :| CodePoints.Encoded(cps) == name && 0 !in cps && |cps| <= 50 {
      CodePoints.LengthOfEncoded(cps);
    }
  }

  datatype SessionRow = SessionRow(username: string, expiresAt: Time)

  /** What a request found in the table, and has not written to the cache yet. */
  datatype Found = Found(id: string, username: string, time: Time)

  /**
   The table, the session cache, the clock, the identifiers ever handed out, and the requests between
   their look into the table and their write to the cache.
   */
  datatype Server = Server(rows: map<string, SessionRow>, cache: Table<string>, now: Time, issued: set<string>,
                           pending: map<nat, Found>)

  datatype Step =
    | Login(username: string, id: string)
    | Register(username: string, id: string, inserted: bool)
    | Request(id: string)
    | Find(request: nat, id: string)
    | Remember(request: nat)
    | Logout(id: string)
    | DeleteExpired
    | SweepCache
    | Tick(elapsed: nat)

  predicate LiveRow(s: Server, id: string, username: string) {
    id in s.rows && s.rows[id].username == username && s.now <= s.rows[id].expiresAt
  }

  /** The user a request with this identifier is taken to come from. */
  function Identify(s: Server, id: string, ttl: Duration): Option<string> {
    match Lookup(s.cache, id, s.now, ttl)
    case Some(username) => Some(username)
    case None =>
      if id in s.rows && s.now <= s.rows[id].expiresAt then Some(s.rows[id].username) else None
  }

  function NewRow(username: string, now: Time): SessionRow {
    SessionRow(username, now + SESSION_LIFETIME)
  }

  /** What a request does to the cache: a miss that finds a live row is remembered. */
  function AfterRequest(s: Server, id: string, ttl: Duration): Table<string> {
    if Lookup(s.cache, id, s.now, ttl).None? && Identify(s, id, ttl).Some?
    then s.cache[id := Stamped(Identify(s, id, ttl).value, s.now)]
    else s.cache
  }

  function WithoutExpired(rows: map<string, SessionRow>, now: Time): map<string, SessionRow> {
    map id | id in rows && !(rows[id].expiresAt < now) :: rows[id]
  }

  function Next(s: Server, step: Step, ttl: Duration): Server {
    match step
    case Login(username, id) =>
      s.(rows := s.rows[id := NewRow(username, s.now)], cache := s.cache[id := Stamped(username, s.now)], issued := s.issued + {id})
    case Register(username, id, inserted) =>
      s.(rows := if inserted then s.rows[id := NewRow(username, s.now)] else s.rows,
         cache := s.cache[id := Stamped(username, s.now)], issued := s.issued + {id})
    case Request(id) => s.(cache := AfterRequest(s, id, ttl))
    case Find(r, id) =>
      if r !in s.pending && Lookup(s.cache, id, s.now, ttl).None? && Identify(s, id, ttl).Some?
      then s.(pending := s.pending[r := Found(id, Identify(s, id, ttl).value, s.now)])
      else s
    case Remember(r) =>
      if r in s.pending
      then s.(cache := s.cache[s.pending[r].id := Stamped(s.pending[r].username, s.now)], pending := s.pending - {r})
      else s
    case Logout(id) => s.(rows := s.rows - {id}, cache := s.cache - {id})
    case DeleteExpired => s.(rows := WithoutExpired(s.rows, s.now))
    case SweepCache => s.(cache := Sweep(s.cache, s.now, ttl))
    case Tick(d) => s.(now := s.now + d)
  }

  /** Identifiers are fresh. */
  predicate Enabled(s: Server, step: Step) {
    match step
    case Login(_, id) => id !in s.issued
    case Register(_, id, _) => id !in s.issued
    case _ => true
  }

  /** A run may start on the rows of an earlier one; the cache is new, and no request is under way. */
  ghost predicate IsRun(states: seq<Server>, steps: seq<Step>, ttl: Duration) {
    && |states| == |steps| + 1
    && states[0].rows.Keys <= states[0].issued && states[0].cache == map[] && states[0].pending == map[]
    && forall i | 0 <= i < |steps| :: Enabled(states[i], steps[i]) && states[i + 1] == Next(states[i], steps[i], ttl)
  }

  /** A request may be handled in one go, or in two. */
  lemma RequestInTwo(s: Server, r: nat, id: string, ttl: Duration)
    requires r !in s.pending
    ensures Next(Next(s, Find(r, id), ttl), Remember(r), ttl) == Next(s, Request(id), ttl)
  {
    if Lookup(s.cache, id, s.now, ttl).None? && Identify(s, id, ttl).Some? {
      assert Next(s, Find(r, id), ttl).pending - {r} == s.pending;
    }
  }

  lemma {:induction false} TimeGoesOn(states: seq<Server>, steps: seq<Step>, r: nat, t: nat, ttl: Duration)
    requires IsRun(states, steps, ttl) && r <= t < |states|
    ensures states[r].now <= states[t].now
    decreases t
  {
    if r < t {
      TimeGoesOn(states, steps, r, t - 1, ttl);
      assert states[t] == Next(states[t - 1], steps[t - 1], ttl);
    }
  }

  // ---------- staleness ----------

  /** Some state up to t had a live row for the session no more than delay before the time given. */
  ghost predicate Backed(states: seq<Server>, t: nat, id: string, username: string, time: Time, delay: nat)
    requires t < |states|
  {
    exists r :: 0 <= r <= t && time - delay <= states[r].now <= time && LiveRow(states[r], id, username)
  }

  /** If the session was created by a registration before t, that one managed to insert it. */
  predicate Inserted(steps: seq<Step>, t: nat, id: string) {
    forall k | 0 <= k < t && k < |steps| && steps[k].Register? && steps[k].id == id :: steps[k].inserted
  }

  /** No request for the session, before t, takes longer than delay from the table to the cache. */
  ghost predicate Prompt(states: seq<Server>, steps: seq<Step>, t: nat, id: string, delay: nat) {
    forall k, r | 0 <= k < t && k < |steps| && k < |states| && steps[k] == Remember(r)
                  && r in states[k].pending && states[k].pending[r].id == id ::
      states[k].now - states[k].pending[r].time <= delay
  }

  /** What is pending was found at its time, and what is cached was found at most the delay before its. */
  ghost predicate AllBacked(states: seq<Server>, t: nat, id: string, delay: nat)
    requires t < |states|
  {
    && (id in states[t].cache ==> Backed(states, t, id, states[t].cache[id].value, states[t].cache[id].time, delay))
    && (forall r | r in states[t].pending && states[t].pending[r].id == id ::
          Backed(states, t, id, states[t].pending[r].username, states[t].pending[r].time, 0))
  }

  lemma BackedLater(states: seq<Server>, t: nat, id: string, username: string, time: Time, delay: nat, later: Time, more: nat)
    requires t + 1 < |states| && Backed(states, t, id, username, time, delay)
    requires time <= later && later - more <= time - delay
    ensures Backed(states, t + 1, id, username, later, more)
  {
    var r :| 0 <= r <= t && time - delay <= states[r].now <= time && LiveRow(states[r], id, username);
    assert LiveRow(states[r], id, username);
  }

  lemma CacheEntryBacked(states: seq<Server>, steps: seq<Step>, t: nat, id: string, ttl: Duration, delay: nat)
    requires IsRun(states, steps, ttl) && t < |steps| && Inserted(steps, t + 1, id) && Prompt(states, steps, t + 1, id, delay)
    requires AllBacked(states, t, id, delay) && id in states[t + 1].cache
    ensures Backed(states, t + 1, id, states[t + 1].cache[id].value, states[t + 1].cache[id].time, delay)
  {
    var s, step, entry := states[t], steps[t], states[t + 1].cache[id];
    assert states[t + 1] == Next(s, step, ttl) && Enabled(s, step);
    if id in s.cache && s.cache[id] == entry {
      BackedLater(states, t, id, entry.value, entry.time, delay, entry.time, delay);
    } else if step.Remember? {
      var found := s.pending[step.request];
      TimeFound(states, steps, t, step.request, ttl);
      BackedLater(states, t, id, found.username, found.time, 0, s.now, delay);
    } else if step.Request? {
      assert LiveRow(states[t], id, entry.value);
    } else {
      assert LiveRow(states[t + 1], id, entry.value);
    }
  }

  /** What is pending was found in the past. */
  lemma {:induction false} TimeFound(states: seq<Server>, steps: seq<Step>, t: nat, r: nat, ttl: Duration)
    requires IsRun(states, steps, ttl) && t < |states| && r in states[t].pending
    ensures states[t].pending[r].time <= states[t].now
  {
    if t > 0 {
      var s, step := states[t - 1], steps[t - 1];
      assert states[t] == Next(s, step, ttl);
      if r in s.pending && s.pending[r] == states[t].pending[r] {
        TimeFound(states, steps, t - 1, r, ttl);
      }
    }
  }

  /** What is pending was pending before the step, or the step found a live row. */
  lemma FoundNow(s: Server, step: Step, r: nat, ttl: Duration)
    requires r in Next(s, step, ttl).pending
    ensures var f := Next(s, step, ttl).pending[r];
            (r in s.pending && s.pending[r] == f) || (f.time == s.now && LiveRow(s, f.id, f.username))
  {
  }

  lemma PendingBacked(states: seq<Server>, steps: seq<Step>, t: nat, r: nat, id: string, ttl: Duration, delay: nat)
    requires IsRun(states, steps, ttl) && t < |steps| && AllBacked(states, t, id, delay)
    requires r in states[t + 1].pending && states[t + 1].pending[r].id == id
    ensures var f := states[t + 1].pending[r]; Backed(states, t + 1, id, f.username, f.time, 0)
  {
    var f := states[t + 1].pending[r];
    FoundNow(states[t], steps[t], r, ttl);
    if r in states[t].pending && states[t].pending[r] == f {
      BackedLater(states, t, id, f.username, f.time, 0, f.time, 0);
    } else {
      assert LiveRow(states[t], id, f.username);
    }
  }

  lemma {:induction false} EverythingIsBacked(states: seq<Server>, steps: seq<Step>, t: nat, id: string, ttl: Duration, delay: nat)
    requires IsRun(states, steps, ttl) && t < |states| && Inserted(steps, t, id) && Prompt(states, steps, t, id, delay)
    ensures AllBacked(states, t, id, delay)
  {
    if t > 0 {
      EverythingIsBacked(states, steps, t - 1, id, ttl, delay);
      if id in states[t].cache {
        CacheEntryBacked(states, steps, t - 1, id, ttl, delay);
      }
      forall r | r in states[t].pending && states[t].pending[r].id == id
        ensures Backed(states, t, id, states[t].pending[r].username, states[t].pending[r].time, 0) {
        PendingBacked(states, steps, t - 1, r, id, ttl, delay);
      }
    }
  }

  /**
   A session accepted at any moment of any run, whoever else's session failed to be inserted, had a live row
   of that user at some moment at most one cache lifetime earlier, plus what a request may dawdle between the
   table and the cache (nothing, if requests are handled in one go). It is therefore accepted no later than
   that after its expiry.
   */
  lemma StalenessBound(states: seq<Server>, steps: seq<Step>, t: nat, id: string, ttl: Duration, delay: nat)
    requires IsRun(states, steps, ttl) && t < |states| && 0 <= ttl < MAX_DURATION
    requires Inserted(steps, t, id) && Prompt(states, steps, t, id, delay)
    requires Identify(states[t], id, ttl).Some?
    ensures exists r ::
              && 0 <= r <= t && LiveRow(states[r], id, Identify(states[t], id, ttl).value)
              && states[t].now - ttl - delay <= states[r].now <= states[t].now
              && states[t].now <= states[r].rows[id].expiresAt + ttl + delay
  {
    var username := Identify(states[t], id, ttl).value;
    if Lookup(states[t].cache, id, states[t].now, ttl).Some? {
      EverythingIsBacked(states, steps, t, id, ttl, delay);
      var entry := states[t].cache[id];
      var r :| 0 <= r <= t && entry.time - delay <= states[r].now <= entry.time && LiveRow(states[r], id, entry.value);
      TimeGoesOn(states, steps, r, t, ttl);
      assert LiveRow(states[r], id, username);
    } else {
      assert LiveRow(states[t], id, username);
    }
  }

  /** Requests handled in one go never dawdle. */
  lemma AtomicIsPrompt(states: seq<Server>, steps: seq<Step>, t: nat, id: string, ttl: Duration)
    requires IsRun(states, steps, ttl) && forall k | 0 <= k < |steps| :: !steps[k].Find?
    ensures Prompt(states, steps, t, id, 0)
  {
    forall k, r | 0 <= k < |steps| && k < |states| && steps[k] == Remember(r) && r in states[k].pending ensures false {
      NothingPending(states, steps, k, ttl);
    }
  }

  lemma {:induction false} NothingPending(states: seq<Server>, steps: seq<Step>, t: nat, ttl: Duration)
    requires IsRun(states, steps, ttl) && t < |states| && forall k | 0 <= k < |steps| :: !steps[k].Find?
    ensures states[t].pending == map[]
  {
    if t > 0 {
      NothingPending(states, steps, t - 1, ttl);
      assert states[t] == Next(states[t - 1], steps[t - 1], ttl);
    }
  }

  /** The bound is attained: remembered at the moment it expires, a session is accepted for the whole lifetime. */
  lemma BoundIsTight(s: Server, id: string, ttl: Duration)
    requires 0 < ttl < MAX_DURATION && id in s.rows && s.now == s.rows[id].expiresAt
    requires Lookup(s.cache, id, s.now, ttl).None?
    ensures var late := Next(Next(s, Request(id), ttl), Tick(ttl), ttl);
            Identify(late, id, ttl) == Some(s.rows[id].username) && late.now == late.rows[id].expiresAt + ttl
  {
  }

  // ---------- maintenance ----------

  ghost predicate TrimmedRows(a: map<string, SessionRow>, b: map<string, SessionRow>, now: Time) {
    a.Keys <= b.Keys && forall id | id in b :: if id in a then a[id] == b[id] else b[id].expiresAt < now
  }

  /** a lacks only rows of b that have expired and cache entries of b that are stale. */
  ghost predicate Trimmed(a: Server, b: Server, ttl: Duration) {
    && a.now == b.now && a.issued == b.issued && a.pending == b.pending
    && TrimmedRows(a.rows, b.rows, b.now)
    && SweptTable(a.cache, b.cache, b.now, ttl)
  }

  lemma TrimmedIdentify(a: Server, b: Server, id: string, ttl: Duration)
    requires Trimmed(a, b, ttl)
    ensures Identify(a, id, ttl) == Identify(b, id, ttl)
    ensures Lookup(a.cache, id, a.now, ttl) == Lookup(b.cache, id, b.now, ttl)
  {
    SweptLookup(a.cache, b.cache, id, b.now, b.now, ttl);
  }

  lemma TrimmedRowsStep(a: Server, b: Server, step: Step, ttl: Duration)
    requires Trimmed(a, b, ttl)
    ensures TrimmedRows(Next(a, step, ttl).rows, Next(b, step, ttl).rows, Next(b, step, ttl).now)
  {
  }

  lemma SweptOnlyMore(a: Table<string>, b: Table<string>, now: Time, later: Time, ttl: Duration)
    requires SweptTable(a, b, now, ttl) && now <= later
    ensures SweptTable(a, b, later, ttl)
  {
  }

  lemma TrimmedStep(a: Server, b: Server, step: Step, ttl: Duration)
    requires Trimmed(a, b, ttl)
    ensures Trimmed(Next(a, step, ttl), Next(b, step, ttl), ttl)
  {
    TrimmedRowsStep(a, b, step, ttl);
    match step
    case Request(id) => TrimmedIdentify(a, b, id, ttl);
    case Find(_, id) => TrimmedIdentify(a, b, id, ttl);
    case Tick(d) => SweptOnlyMore(a.cache, b.cache, b.now, b.now + d, ttl);
    case _ =>
  }

  function After(s: Server, steps: seq<Step>, ttl: Duration): Server
    decreases |steps|
  {
    if steps == [] then s else After(Next(s, steps[0], ttl), steps[1..], ttl)
  }

  lemma {:induction false} TrimmedAfter(a: Server, b: Server, steps: seq<Step>, ttl: Duration)
    requires Trimmed(a, b, ttl)
    ensures Trimmed(After(a, steps, ttl), After(b, steps, ttl), ttl)
    decreases |steps|
  {
    if steps != [] {
      TrimmedStep(a, b, steps[0], ttl);
      TrimmedAfter(Next(a, steps[0], ttl), Next(b, steps[0], ttl), steps[1..], ttl);
    }
  }

  /**
   Deleting expired rows leaves exactly the live ones, and neither that nor sweeping the cache changes
   who any request is taken for, after any further steps.
   */
  lemma {:induction false} MaintenanceIsInvisible(s: Server, steps: seq<Step>, id: string, ttl: Duration)
    ensures id in Next(s, DeleteExpired, ttl).rows <==> id in s.rows && s.now <= s.rows[id].expiresAt
    ensures Identify(After(Next(s, DeleteExpired, ttl), steps, ttl), id, ttl) == Identify(After(s, steps, ttl), id, ttl)
    ensures Identify(After(Next(s, SweepCache, ttl), steps, ttl), id, ttl) == Identify(After(s, steps, ttl), id, ttl)
  {
    TrimmedAfter(Next(s, DeleteExpired, ttl), s, steps, ttl);
    TrimmedAfter(Next(s, SweepCache, ttl), s, steps, ttl);
    TrimmedIdentify(After(Next(s, DeleteExpired, ttl), steps, ttl), After(s, steps, ttl), id, ttl);
    TrimmedIdentify(After(Next(s, SweepCache, ttl), steps, ttl), After(s, steps, ttl), id, ttl);
  }

  // ---------- logout ----------

  /** No logout of the identifier among the steps from i on, before t. */
  ghost predicate NoLogout(steps: seq<Step>, i: nat, t: nat, id: string) {
    forall k | i <= k < t && k < |steps| :: steps[k] != Logout(id)
  }

  /** Step k is the late write of a request that found the session in the table before step i. */
  ghost predicate LateWrite(states: seq<Server>, steps: seq<Step>, i: nat, k: nat, id: string)
    requires i < |states| && k < |steps| < |states|
  {
    && i < k && steps[k].Remember? && steps[k].request in states[k].pending
    && states[k].pending[steps[k].request].id == id
    && steps[k].request in states[i].pending && states[i].pending[steps[k].request] == states[k].pending[steps[k].request]
  }

  /** What remains of a session after its logout: no row, and nothing pending but what was pending then. */
  ghost predicate LoggedOut(states: seq<Server>, i: nat, t: nat, id: string)
    requires i < |states| && t < |states|
  {
    && id !in states[t].rows && id in states[t].issued
    && forall r | r in states[t].pending && states[t].pending[r].id == id ::
         r in states[i].pending && states[i].pending[r] == states[t].pending[r]
  }

  lemma {:induction false} StaysLoggedOut(states: seq<Server>, steps: seq<Step>, i: nat, t: nat, id: string, ttl: Duration)
    requires IsRun(states, steps, ttl) && i < t < |states| && steps[i] == Logout(id) && id in states[i].issued
    ensures LoggedOut(states, i, t, id)
    decreases t
  {
    assert states[t] == Next(states[t - 1], steps[t - 1], ttl) && Enabled(states[t - 1], steps[t - 1]);
    if t > i + 1 {
      StaysLoggedOut(states, steps, i, t - 1, id, ttl);
      NoFindAfter(states[t - 1], steps[t - 1], id, ttl);
    }
  }

  /** Without a row, a look into the table finds nothing. */
  lemma NoFindAfter(s: Server, step: Step, id: string, ttl: Duration)
    requires id !in s.rows && id in s.issued && Enabled(s, step)
    ensures id !in Next(s, step, ttl).rows && id in Next(s, step, ttl).issued
    ensures forall r | r in Next(s, step, ttl).pending && Next(s, step, ttl).pending[r].id == id ::
              r in s.pending && s.pending[r] == Next(s, step, ttl).pending[r]
    ensures id in Next(s, step, ttl).cache ==>
              || (id in s.cache && Next(s, step, ttl).cache[id] == s.cache[id] && step != Logout(id))
              || (step.Remember? && step.request in s.pending && s.pending[step.request].id == id
                  && Next(s, step, ttl).cache[id] == Stamped(s.pending[step.request].username, s.now))
  {
  }

  /** Any entry in the cache after a logout is the trace of a late write that no later logout removed. */
  lemma {:induction false} EntryIsLate(states: seq<Server>, steps: seq<Step>, i: nat, t: nat, id: string, ttl: Duration) returns (k: nat)
    requires IsRun(states, steps, ttl) && i < t < |states| && steps[i] == Logout(id) && id in states[i].issued
    requires id in states[t].cache
    ensures i < k < t && LateWrite(states, steps, i, k, id) && NoLogout(steps, k, t, id)
    ensures states[t].cache[id].time == states[k].now
    decreases t
  {
    assert states[t] == Next(states[t - 1], steps[t - 1], ttl) && Enabled(states[t - 1], steps[t - 1]);
    if t == i + 1 {
      assert false;
    }
    StaysLoggedOut(states, steps, i, t - 1, id, ttl);
    NoFindAfter(states[t - 1], steps[t - 1], id, ttl);
    if id in states[t - 1].cache && states[t].cache[id] == states[t - 1].cache[id] && steps[t - 1] != Logout(id) {
      k := EntryIsLate(states, steps, i, t - 1, id, ttl);
    } else {
      k := t - 1;
    }
  }

  /** A late write leaves an entry at least as new, until it goes stale or a later logout removes it. */
  lemma {:induction false} LateEntryStays(states: seq<Server>, steps: seq<Step>, i: nat, k: nat, t: nat, id: string, ttl: Duration)
    requires IsRun(states, steps, ttl) && i < k < t < |states| && ttl < MAX_DURATION
    requires steps[i] == Logout(id) && id in states[i].issued
    requires LateWrite(states, steps, i, k, id) && NoLogout(steps, k, t, id)
    ensures states[t].now - states[k].now > ttl || (id in states[t].cache && states[t].cache[id].time >= states[k].now)
    decreases t
  {
    var s, step := states[t - 1], steps[t - 1];
    assert states[t] == Next(s, step, ttl) && Enabled(s, step);
    TimeGoesOn(states, steps, k, t - 1, ttl);
    if t - 1 > k {
      LateEntryStays(states, steps, i, k, t - 1, id, ttl);
      assert step != Logout(id);
      StaysLoggedOut(states, steps, i, t - 1, id, ttl);
    }
  }

  /**
   Whatever the run, and however many requests are under way: after a logout, the session is accepted
   exactly while the late write of a request that had found it before is still in the cache, that is for
   at most one cache lifetime after the write and until the next logout of it.
   */
  lemma AcceptedAfterLogoutIff(states: seq<Server>, steps: seq<Step>, i: nat, t: nat, id: string, ttl: Duration)
    requires IsRun(states, steps, ttl) && i < t < |states| && ttl < MAX_DURATION
    requires steps[i] == Logout(id) && id in states[i].issued
    ensures Identify(states[t], id, ttl).Some?
       <==> exists k :: i < k < t && LateWrite(states, steps, i, k, id) && NoLogout(steps, k, t, id)
                        && states[t].now - states[k].now <= ttl
  {
    StaysLoggedOut(states, steps, i, t, id, ttl);
    if Identify(states[t], id, ttl).Some? {
      var k := EntryIsLate(states, steps, i, t, id, ttl);
      assert states[t].now - states[k].now <= ttl;
    }
    if k :| i < k < t && LateWrite(states, steps, i, k, id) && NoLogout(steps, k, t, id) && states[t].now - states[k].now <= ttl {
      LateEntryStays(states, steps, i, k, t, id, ttl);
    }
  }

  /** So a logout is final if no request for the session is under way when it happens. */
  lemma LogoutIsFinal(states: seq<Server>, steps: seq<Step>, i: nat, t: nat, id: string, ttl: Duration)
    requires IsRun(states, steps, ttl) && i < t < |states| && ttl < MAX_DURATION
    requires steps[i] == Logout(id) && id in states[i].issued
    requires forall r | r in states[i].pending :: states[i].pending[r].id != id
    ensures Identify(states[t], id, ttl) == None
  {
    AcceptedAfterLogoutIff(states, steps, i, t, id, ttl);
  }

  /** A run in which it is not: found, logged out, remembered, and accepted without a row. */
  lemma LateWriteRevives(s: Server, r: nat, id: string, ttl: Duration)
    requires 0 <= ttl && r !in s.pending && Lookup(s.cache, id, s.now, ttl).None? && Identify(s, id, ttl).Some?
    ensures var late := Next(Next(Next(s, Find(r, id), ttl), Logout(id), ttl), Remember(r), ttl);
            id !in late.rows && Identify(late, id, ttl) == Identify(s, id, ttl)
  {
  }

  // ---------- a login lasts ----------

  /** Whatever the server holds about the identifier is this user's, and the row is there until it may expire. */
  ghost predicate LoggedIn(s: Server, id: string, username: string, since: Time) {
    && (s.now <= since + 86_400_000_000_000 ==> id in s.rows)
    && (id in s.rows ==> s.rows[id] == SessionRow(username, since + 86_400_000_000_000))
    && (id in s.cache ==> s.cache[id].value == username)
    && (forall r | r in s.pending && s.pending[r].id == id :: s.pending[r].username == username)
    && id in s.issued && since <= s.now
  }

  /** Nothing is known of an identifier that was never handed out. */
  ghost predicate OnlyIssued(s: Server) {
    s.rows.Keys <= s.issued && s.cache.Keys <= s.issued && forall r | r in s.pending :: s.pending[r].id in s.issued
  }

  lemma OnlyIssuedStep(s: Server, step: Step, ttl: Duration)
    requires OnlyIssued(s)
    ensures OnlyIssued(Next(s, step, ttl))
  {
  }

  lemma {:induction false} OnlyIssuedIsKnown(states: seq<Server>, steps: seq<Step>, t: nat, ttl: Duration)
    requires IsRun(states, steps, ttl) && t < |states|
    ensures OnlyIssued(states[t])
  {
    if t > 0 {
      OnlyIssuedIsKnown(states, steps, t - 1, ttl);
      assert states[t] == Next(states[t - 1], steps[t - 1], ttl);
      OnlyIssuedStep(states[t - 1], steps[t - 1], ttl);
    }
  }

  /** The step gives this user a session under this identifier, with a row behind it. */
  predicate LogsIn(step: Step, username: string, id: string) {
    step == Login(username, id) || step == Register(username, id, true)
  }

  lemma LoggedInStart(s: Server, step: Step, id: string, username: string, ttl: Duration)
    requires OnlyIssued(s) && Enabled(s, step) && LogsIn(step, username, id)
    ensures LoggedIn(Next(s, step, ttl), id, username, s.now)
  {
  }

  lemma LoggedInStep(s: Server, step: Step, id: string, username: string, since: Time, ttl: Duration)
    requires LoggedIn(s, id, username, since) && Enabled(s, step) && step != Logout(id)
    ensures LoggedIn(Next(s, step, ttl), id, username, since)
  {
  }

  lemma {:induction false} StaysLoggedIn(states: seq<Server>, steps: seq<Step>, i: nat, t: nat, id: string, username: string,
                                         ttl: Duration)
    requires IsRun(states, steps, ttl) && i < t < |states| && LogsIn(steps[i], username, id) && NoLogout(steps, i, t, id)
    ensures LoggedIn(states[t], id, username, states[i].now)
    decreases t
  {
    var s, step := states[t - 1], steps[t - 1];
    assert states[t] == Next(s, step, ttl) && Enabled(s, step);
    if t == i + 1 {
      OnlyIssuedIsKnown(states, steps, i, ttl);
      LoggedInStart(s, step, id, username, ttl);
    } else {
      StaysLoggedIn(states, steps, i, t - 1, id, username, ttl);
      assert step != Logout(id);
      LoggedInStep(s, step, id, username, states[i].now, ttl);
    }
  }

  /**
   In every run, for 24 hours after a login, or after a registration whose session was inserted, whoever
   shows the identifier is taken for that user, as long as it is not logged out: through all requests,
   sweeps, deletions of expired rows and late writes. It is never taken for anybody else.
   */
  lemma LoginLasts(states: seq<Server>, steps: seq<Step>, i: nat, t: nat, id: string, username: string, ttl: Duration)
    requires IsRun(states, steps, ttl) && i < t < |states| && LogsIn(steps[i], username, id) && NoLogout(steps, i, t, id)
    ensures states[t].now <= states[i].now + 86_400_000_000_000 ==> Identify(states[t], id, ttl) == Some(username)
    ensures Identify(states[t], id, ttl).Some? ==> Identify(states[t], id, ttl) == Some(username)
  {
    StaysLoggedIn(states, steps, i, t, id, username, ttl);
  }

  /** Nor does a login need the table: for one cache lifetime the user is known from the cache alone. */
  lemma LoginIsRemembered(s: Server, step: Step, id: string, username: string, inserted: bool, later: nat, ttl: Duration)
    requires ttl < MAX_DURATION && (step == Login(username, id) || step == Register(username, id, inserted))
    ensures Lookup(Next(s, step, ttl).cache, id, s.now + later, ttl) == if later <= ttl then Some(username) else None
  {
  }

  // ---------- exactly when a registration is sound ----------

  lemma {:induction false} RowsWereIssued(states: seq<Server>, steps: seq<Step>, t: nat, id: string, ttl: Duration)
    requires IsRun(states, steps, ttl) && t < |states|
    ensures states[t].rows.Keys <= states[t].issued
    ensures id !in states[t].issued ==> forall r | 0 <= r <= t :: id !in states[r].rows
  {
    if t > 0 {
      assert states[t] == Next(states[t - 1], steps[t - 1], ttl);
      RowsWereIssued(states, steps, t - 1, id, ttl);
    }
  }

  /**
   A registration is accepted at once whether or not its session was inserted. That some row stands
   behind it holds exactly when the insertion succeeded.
   */
  lemma RegistrationBackedIff(states: seq<Server>, steps: seq<Step>, username: string, id: string, inserted: bool, ttl: Duration)
    requires IsRun(states, steps, ttl) && 0 <= ttl && id !in states[|steps|].issued
    ensures var last := Next(states[|steps|], Register(username, id, inserted), ttl);
            && Identify(last, id, ttl) == Some(username)
            && ((exists r :: 0 <= r <= |steps| + 1 && LiveRow((states + [last])[r], id, username)) <==> inserted)
  {
    var last := Next(states[|steps|], Register(username, id, inserted), ttl);
    RowsWereIssued(states, steps, |steps|, id, ttl);
    var all := states + [last];
    assert all[|steps| + 1] == last;
    if inserted {
      assert LiveRow(all[|steps| + 1], id, username);
    } else {
      forall r | 0 <= r <= |steps| + 1 ensures id !in all[r].rows {
        assert r <= |steps| ==> all[r] == states[r];
      }
    }
  }

  // ---------- the repository and the handlers ----------

  class SessionRepository {
    var rows: map<string, SessionRow>

    constructor ()
      ensures rows == map[]
    {
      rows := map[];
    }

    method GetByID(id: string) returns (r: Option<SessionRow>)
      ensures r == if id in rows then Some(rows[id]) else None
    {
      if id !in rows {
        return None;
      }
      return Some(rows[id]);
    }

    /**
     The identifier is unique in the table, so a second insertion of it fails; written is false when the
     database fails for reasons of its own.
     */
    method CreateUserSession(username: string, id: string, written: bool, now: Time) returns (ok: bool)
      modifies this
      ensures ok <==> id !in old(rows) && written
      ensures rows == if ok then old(rows)[id := SessionRow(username, now + 86_400_000_000_000)] else old(rows)
    {
      ok := id !in rows && written;
      if ok {
        rows := rows[id := SessionRow(username, now + 86_400_000_000_000)];
      }
    }

    method Delete(id: string)
      modifies this
      ensures rows == old(rows) - {id}
    {
      rows := rows - {id};
    }

    method Cleanup(now: Time)
      modifies this
      ensures rows == WithoutExpired(old(rows), now)
    {
      var pending := rows.Keys;
      while pending != {}
        invariant pending <= rows.Keys <= old(rows).Keys
        invariant forall k | k in rows :: rows[k] == old(rows)[k] && (k in pending || !(rows[k].expiresAt < now))
        invariant forall k | k in old(rows) && k !in rows :: old(rows)[k].expiresAt < now
      {
        var id :| id in pending;
        if rows[id].expiresAt < now {
          rows := rows - {id};
        }
        pending := pending - {id};
      }
    }
  }

  datatype Outcome = Chat(cookie: string) | Refused

  class Handlers {
    const Cache: MemoryCache
    const Sessions: SessionRepository
    var Users: set<string>
    ghost var issued: set<string>

    constructor (cache: MemoryCache, sessions: SessionRepository, users: set<string>)
      ensures Cache == cache && Sessions == sessions && Users == users && issued == {}
    {
      Cache, Sessions, Users, issued := cache, sessions, users, {};
    }

    ghost function State(now: Time): Server
      reads this, Cache, Sessions
    {
      Server(Sessions.rows, Cache.sessions, now, issued, map[])
    }

    method GetUserFromSession(cookie: Option<string>, now: Time) returns (username: string)
      modifies Cache`sessions, Cache`hits, Cache`misses
      ensures cookie.None? ==> username == "" && State(now) == old(State(now))
      ensures cookie.Some? ==>
                && State(now) == Next(old(State(now)), Request(cookie.value), Cache.ttl)
                && username == match Identify(old(State(now)), cookie.value, Cache.ttl)
                               case Some(u) => u
                               case None => ""
    {
      if cookie.None? {
        return "";
      }
      var cached := Cache.GetSession(cookie.value, now);
      if cached.Some? {
        return cached.value;
      }
      var session := Sessions.GetByID(cookie.value);
      if session.None? || now > session.value.expiresAt {
        return "";
      }
      Cache.SetSession(cookie.value, session.value.username, now);
      return session.value.username;
    }

    /** valid is the outcome of the password check, written that of the insertion as far as the database goes. */
    method LoginHandler(name: string, password: string, valid: bool, id: string, written: bool, now: Time) returns (r: Outcome)
      modifies this`issued, Sessions, Cache`sessions, Cache`users
      ensures var username := Utf8.TrimSpace(name);
              if username != "" && password != "" && valid && username in Users && id !in old(Sessions.rows) && written
              then r == Chat(id) && State(now) == Next(old(State(now)), Login(username, id), Cache.ttl)
              else r == Refused && State(now) == old(State(now))
    {
      var username := Utf8.TrimSpace(name);
      if username == "" || password == "" {
        return Refused;
      }
      if !valid || username !in Users {
        return Refused;
      }
      Cache.SetUser(username, User(username, password), now);
      var ok := Sessions.CreateUserSession(username, id, written, now);
      if !ok {
        return Refused;
      }
      Cache.SetSession(id, username, now);
      issued := issued + {id};
      return Chat(id);
    }

    /** created is false when the user table refuses the row, written when the session table does. */
    method RegisterHandler(name: string, password: string, confirm: string, created: bool, id: string, written: bool, now: Time)
      returns (r: Outcome)
      modifies this, Sessions, Cache`sessions, Cache`users
      ensures var username := Utf8.TrimSpace(name);
              if username != "" && password != "" && password == confirm && username !in old(Users) && created && FitsName(username)
              then && r == Chat(id) && Users == old(Users) + {username}
                   && State(now) == Next(old(State(now)), Step.Register(username, id, id !in old(Sessions.rows) && written), Cache.ttl)
              else r == Refused && Users == old(Users) && State(now) == old(State(now))
    {
      var username := Utf8.TrimSpace(name);
      if username == "" || password == "" || password != confirm {
        return Refused;
      }
      if username in Users {
        return Refused;
      }
      if !Utf8.Storable(username) || Utf8.Length(username) > 50 || !created {
        return Refused;
      }
      Users := Users + {username};
      var ignored := Sessions.CreateUserSession(username, id, written, now);
      Cache.SetUser(username, User(username, password), now);
      Cache.SetSession(id, username, now);
      issued := issued + {id};
      return Chat(id);
    }

    method LogoutHandler(cookie: Option<string>, now: Time)
      modifies Sessions, Cache`sessions
      ensures State(now) == if cookie.None? then old(State(now)) else Next(old(State(now)), Logout(cookie.value), Cache.ttl)
    {
      if cookie.Some? {
        Sessions.Delete(cookie.value);
        label Before:
        Cache.InvalidateSession(cookie.value);
        assert Cache.State() == Apply(old@Before(Cache.State()), InvalidateSession(cookie.value), now);
      }
    }
  }
}
