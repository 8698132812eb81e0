/**
 The recent-message cache when nothing is serialised: every updateCache is a read and a later write,
 every history load a query and a later store, every cleanup a check and a later clearing, and all
 of them run beside edits in any order.
 */
module CacheInterleaving {
  import opened Types
  import opened CacheSpec
  import opened CacheRefinement
  import opened MessageRepo
  import opened History

  /** What a goroutine read from the cache, and at which move. */
  datatype Snapshot = Snapshot(list: Option<seq<Message>>, at: nat)

  /** An updateCache under way: its message, and what it read once it has read. */
  datatype Update = Update(message: Message, read: Option<Snapshot>)

  /** A history load under way: the rows it got, and at which move. */
  datatype Loaded = Loaded(found: seq<Row>, at: nat)

  datatype EditRequest = EditRequest(id: nat, newText: string, username: string)

  /**
   The window, the clock, the number of moves made, the goroutines under way, the move at which a cleanup
   found the window stale, and, for the record, every message ever broadcast or loaded from the database.
   */
  datatype Shared = Shared(window: Window, now: Time, turn: nat, updates: map<nat, Update>, loads: map<nat, Loaded>,
                           checked: Option<nat>, known: set<Message>)

  /** The moves on the database, Save and EditRow, leave the cache and its goroutines alone. */
  datatype Move =
    | Start(id: nat, message: Message)
    | Read(id: nat)
    | Write(id: nat)
    | Query(id: nat, found: seq<Row>)
    | Store(id: nat)
    | Invalidate(edit: EditRequest)
    | Save(started: nat)
    | EditRow(edit: EditRequest)
    | CheckAge
    | Clear
    | Pass(elapsed: nat)

  function ListOf(found: seq<Row>): seq<Message> {
    FromRows(Reverse(found))
  }

  /** Whether the move writes to the window. */
  predicate Sets(s: Shared, move: Move) {
    match move
    case Write(id) => id in s.updates && s.updates[id].read.Some?
    case Store(id) => id in s.loads && s.loads[id].found != []
    case Invalidate(_) => true
    case Clear => s.checked.Some?
    case _ => false
  }

  /** What the window becomes. */
  function Written(s: Shared, move: Move): Window {
    if !Sets(s, move) then s.window
    else
      match move
      case Write(id) => Window(Updated(s.updates[id].read.value.list, s.updates[id].message), s.now)
      case Store(id) => Window(ListOf(s.loads[id].found), s.now)
      case _ => EMPTY_WINDOW
  }

  function UpdatesAfter(s: Shared, move: Move, ttl: Duration): map<nat, Update> {
    match move
    case Start(id, m) => if id in s.updates then s.updates else s.updates[id := Update(m, None)]
    case Read(id) =>
      if id in s.updates && s.updates[id].read.None?
      then s.updates[id := s.updates[id].(read := Some(Snapshot(ReadWindow(s.window, s.now, ttl), s.turn)))]
      else s.updates
    case Write(id) => if Sets(s, move) then s.updates - {id} else s.updates
    case _ => s.updates
  }

  /** The query asks for at most 100 rows. */
  function LoadsAfter(s: Shared, move: Move): map<nat, Loaded> {
    match move
    case Query(id, found) =>
      if id in s.loads || |found| > HISTORY_LIMIT then s.loads else s.loads[id := Loaded(found, s.turn)]
    case Store(id) => s.loads - {id}
    case _ => s.loads
  }

  function Do(s: Shared, move: Move, ttl: Duration): Shared {
    Shared(Written(s, move),
           if move.Pass? then s.now + move.elapsed else s.now,
           s.turn + 1,
           UpdatesAfter(s, move, ttl),
           LoadsAfter(s, move),
           if move.CheckAge? && Stale(s.now, s.window.time, ttl) then Some(s.turn) else if move.Clear? then None else s.checked,
           s.known + (match move case Start(_, m) => {m} case Query(_, found) => (set m | m in ListOf(found)) case _ => {}))
  }

  function DoAll(s: Shared, moves: seq<Move>, ttl: Duration): Shared {
    if moves == [] then s else Do(DoAll(s, moves[..|moves| - 1], ttl), moves[|moves| - 1], ttl)
  }

  function Idle(now: Time): Shared {
    Shared(EMPTY_WINDOW, now, 0, map[], map[], None, {})
  }

  /** The state before the k-th move. */
  function At(start: Time, moves: seq<Move>, k: nat, ttl: Duration): Shared
    requires k <= |moves|
  {
    DoAll(Idle(start), moves[..k], ttl)
  }

  lemma AtNext(start: Time, moves: seq<Move>, k: nat, ttl: Duration)
    requires k < |moves|
    ensures At(start, moves, k + 1, ttl) == Do(At(start, moves, k, ttl), moves[k], ttl)
  {
    assert moves[..k + 1][..k] == moves[..k];
  }

  // ---------- safety ----------

  ghost predicate Proper(ms: seq<Message>, known: set<Message>) {
    |ms| <= CACHE_LIMIT && forall m | m in ms :: m in known
  }

  ghost predicate Safe(s: Shared) {
    && Proper(s.window.messages, s.known)
    && (forall id | id in s.updates :: s.updates[id].message in s.known)
    && (forall id | id in s.updates && s.updates[id].read.Some? && s.updates[id].read.value.list.Some? ::
          Proper(s.updates[id].read.value.list.value, s.known))
    && (forall id | id in s.loads :: Proper(ListOf(s.loads[id].found), s.known))
  }

  lemma UpdatedIsProper(read: Option<seq<Message>>, m: Message, known: set<Message>)
    requires m in known && (read.Some? ==> Proper(read.value, known))
    ensures Proper(Updated(read, m), known)
  {
  }

  lemma MoveIsSafe(s: Shared, move: Move, ttl: Duration)
    requires Safe(s)
    ensures Safe(Do(s, move, ttl)) && s.known <= Do(s, move, ttl).known
  {
    match move
    case Write(id) =>
      if Sets(s, move) {
        UpdatedIsProper(s.updates[id].read.value.list, s.updates[id].message, s.known);
      }
    case _ =>
  }

  /**
   Whatever the interleaving, the cache never holds more than 100 messages, and each of them was
   broadcast or loaded from the database.
   */
  lemma {:induction false} InterleavedSafety(start: Time, moves: seq<Move>, ttl: Duration)
    ensures Safe(DoAll(Idle(start), moves, ttl))
  {
    if moves != [] {
      InterleavedSafety(start, moves[..|moves| - 1], ttl);
      MoveIsSafe(DoAll(Idle(start), moves[..|moves| - 1], ttl), moves[|moves| - 1], ttl);
    }
  }

  // ---------- what goroutines hold is what there was ----------

  /** Every snapshot is what a read of the window gave at an earlier move; likewise loads and checks. */
  ghost predicate Past(start: Time, moves: seq<Move>, k: nat, ttl: Duration)
    requires k <= |moves|
  {
    var s := At(start, moves, k, ttl);
    && s.turn == k
    && (forall id | id in s.updates && s.updates[id].read.Some? :: WasRead(start, moves, k, s.updates[id].read.value, ttl))
    && (forall id | id in s.loads :: s.loads[id].at < k && moves[s.loads[id].at] == Query(id, s.loads[id].found))
    && (s.checked.Some? ==> WasStale(start, moves, k, s.checked.value, ttl))
  }

  ghost predicate WasRead(start: Time, moves: seq<Move>, k: nat, r: Snapshot, ttl: Duration)
    requires k <= |moves|
  {
    && r.at < k && moves[r.at].Read?
    && r.list == ReadWindow(At(start, moves, r.at, ttl).window, At(start, moves, r.at, ttl).now, ttl)
  }

  ghost predicate WasStale(start: Time, moves: seq<Move>, k: nat, c: nat, ttl: Duration)
    requires k <= |moves|
  {
    c < k && moves[c].CheckAge? && Stale(At(start, moves, c, ttl).now, At(start, moves, c, ttl).window.time, ttl)
  }

  /** A snapshot was there before the move, or the move took it. */
  lemma SnapshotsAfter(s: Shared, move: Move, id: nat, ttl: Duration)
    requires id in UpdatesAfter(s, move, ttl) && UpdatesAfter(s, move, ttl)[id].read.Some?
    ensures var r := UpdatesAfter(s, move, ttl)[id].read.value;
            || (id in s.updates && s.updates[id].read == Some(r))
            || (move == Read(id) && r == Snapshot(ReadWindow(s.window, s.now, ttl), s.turn))
  {
  }

  lemma PastStep(start: Time, moves: seq<Move>, k: nat, ttl: Duration)
    requires k < |moves| && Past(start, moves, k, ttl)
    ensures Past(start, moves, k + 1, ttl)
  {
    AtNext(start, moves, k, ttl);
    var s, s' := At(start, moves, k, ttl), At(start, moves, k + 1, ttl);
    forall id | id in s'.updates && s'.updates[id].read.Some?
      ensures WasRead(start, moves, k + 1, s'.updates[id].read.value, ttl) {
      SnapshotsAfter(s, moves[k], id, ttl);
      assert id in s.updates && s.updates[id].read.Some? ==> WasRead(start, moves, k, s.updates[id].read.value, ttl);
    }
    assert s.checked.Some? ==> WasStale(start, moves, k, s.checked.value, ttl);
  }

  lemma {:induction false} AllPast(start: Time, moves: seq<Move>, k: nat, ttl: Duration)
    requires k <= |moves|
    ensures Past(start, moves, k, ttl)
  {
    if k > 0 {
      AllPast(start, moves, k - 1, ttl);
      PastStep(start, moves, k - 1, ttl);
    }
  }

  // ---------- what later contents are built on ----------

  /**
   What move w wrote is what the window before move t is built on: since then, every move that wrote
   to the window was an update that had read it from what w wrote.
   */
  ghost predicate Survives(start: Time, moves: seq<Move>, w: nat, t: nat, ttl: Duration)
    requires w < t <= |moves|
    decreases t
  {
    t == w + 1
    || var s := At(start, moves, t - 1, ttl);
       if !Sets(s, moves[t - 1]) then Survives(start, moves, w, t - 1, ttl)
       else
         && moves[t - 1].Write?
         && var r := s.updates[moves[t - 1].id].read.value;
            r.list.Some? && w < r.at < t && Survives(start, moves, w, r.at, ttl)
  }

  /** The messages these updates appended. */
  ghost function Appended(start: Time, moves: seq<Move>, w: nat, t: nat, ttl: Duration): seq<Message>
    requires w < t <= |moves| && Survives(start, moves, w, t, ttl)
    decreases t
  {
    if t == w + 1 then []
    else
      var s := At(start, moves, t - 1, ttl);
      if !Sets(s, moves[t - 1]) then Appended(start, moves, w, t - 1, ttl)
      else
        var u := s.updates[moves[t - 1].id];
        Appended(start, moves, w, u.read.value.at, ttl) + [u.message]
  }

  lemma SurvivesUnset(start: Time, moves: seq<Move>, w: nat, t: nat, ttl: Duration)
    requires w < t < |moves| && Survives(start, moves, w, t, ttl) && !Sets(At(start, moves, t, ttl), moves[t])
    ensures Survives(start, moves, w, t + 1, ttl) && Appended(start, moves, w, t + 1, ttl) == Appended(start, moves, w, t, ttl)
  {
  }

  lemma SurvivesUpdate(start: Time, moves: seq<Move>, w: nat, t: nat, ttl: Duration)
    requires t < |moves| && moves[t].Write? && Sets(At(start, moves, t, ttl), moves[t])
    requires var r := At(start, moves, t, ttl).updates[moves[t].id].read.value;
             r.list.Some? && w < r.at < t && Survives(start, moves, w, r.at, ttl)
    ensures Survives(start, moves, w, t + 1, ttl)
    ensures var u := At(start, moves, t, ttl).updates[moves[t].id];
            Appended(start, moves, w, t + 1, ttl) == Appended(start, moves, w, u.read.value.at, ttl) + [u.message]
  {
  }

  /** A write whose snapshot is the last 100 of a list is the last 100 of that list and its message. */
  lemma WriteExtends(start: Time, moves: seq<Move>, t: nat, all: seq<Message>, ttl: Duration)
    requires t < |moves| && moves[t].Write? && Sets(At(start, moves, t, ttl), moves[t])
    requires var r := At(start, moves, t, ttl).updates[moves[t].id].read.value;
             r.list.Some? && r.at <= |moves| && At(start, moves, r.at, ttl).window.messages == LastN(all, CACHE_LIMIT)
    ensures At(start, moves, t + 1, ttl).window.messages
         == LastN(all + [At(start, moves, t, ttl).updates[moves[t].id].message], CACHE_LIMIT)
  {
    var u := At(start, moves, t, ttl).updates[moves[t].id];
    AtNext(start, moves, t, ttl);
    AllPast(start, moves, t, ttl);
    assert WasRead(start, moves, t, u.read.value, ttl);
    LastNAppend(all, [u.message], CACHE_LIMIT);
  }

  lemma BuiltOnByUpdate(start: Time, moves: seq<Move>, w: nat, t: nat, u: Update, base: seq<Message>, ttl: Duration)
    requires w + 1 < t <= |moves| && Survives(start, moves, w, t, ttl) && Sets(At(start, moves, t - 1, ttl), moves[t - 1])
    requires moves[t - 1].Write? && u == At(start, moves, t - 1, ttl).updates[moves[t - 1].id]
    requires u.read.value.at <= |moves| && w < u.read.value.at && Survives(start, moves, w, u.read.value.at, ttl)
    requires At(start, moves, u.read.value.at, ttl).window.messages
          == LastN(base + Appended(start, moves, w, u.read.value.at, ttl), CACHE_LIMIT)
    ensures At(start, moves, t, ttl).window.messages == LastN(base + Appended(start, moves, w, t, ttl), CACHE_LIMIT)
  {
    var before := Appended(start, moves, w, u.read.value.at, ttl);
    WriteExtends(start, moves, t - 1, base + before, ttl);
    assert base + (before + [u.message]) == (base + before) + [u.message];
  }

  /** The window is what w wrote with these messages appended, cut to its last 100. */
  lemma {:induction false} WindowIsBuiltOn(start: Time, moves: seq<Move>, w: nat, t: nat, ttl: Duration)
    requires w < t <= |moves| && Survives(start, moves, w, t, ttl)
    ensures At(start, moves, t, ttl).window.messages
         == LastN(At(start, moves, w + 1, ttl).window.messages + Appended(start, moves, w, t, ttl), CACHE_LIMIT)
    decreases t
  {
    var base := At(start, moves, w + 1, ttl).window.messages;
    if t == w + 1 {
      InterleavedSafety(start, moves[..t], ttl);
      assert base + [] == base;
    } else {
      var s := At(start, moves, t - 1, ttl);
      if !Sets(s, moves[t - 1]) {
        AtNext(start, moves, t - 1, ttl);
        WindowIsBuiltOn(start, moves, w, t - 1, ttl);
      } else {
        var u := s.updates[moves[t - 1].id];
        WindowIsBuiltOn(start, moves, w, u.read.value.at, ttl);
        BuiltOnByUpdate(start, moves, w, t, u, base, ttl);
      }
    }
  }

  // ---------- the old version of an edited message ----------

  /** From move e on, nobody broadcasts the version v and the database does not hold it. */
  ghost predicate NeverAgain(moves: seq<Move>, e: nat, v: Message) {
    forall k | e <= k < |moves| ::
      (moves[k].Start? ==> moves[k].message != v) && (moves[k].Query? ==> v !in ListOf(moves[k].found))
  }

  /**
   Move w writes v although the cache was emptied at e: it is the write of an update that had read v
   before e, or of the update of v itself, or the store of a load that had queried before e.
   */
  ghost predicate Carries(start: Time, moves: seq<Move>, e: nat, w: nat, v: Message, ttl: Duration)
    requires w < |moves|
  {
    var s := At(start, moves, w, ttl);
    match moves[w]
    case Write(id) =>
      && id in s.updates && s.updates[id].read.Some?
      && (s.updates[id].message == v
          || (s.updates[id].read.value.at < e && s.updates[id].read.value.list.Some? && v in s.updates[id].read.value.list.value))
    case Store(id) => id in s.loads && s.loads[id].at < e && v in ListOf(s.loads[id].found)
    case _ => false
  }

  /** The messages appended since have not pushed v out. */
  ghost predicate NotPushedOut(start: Time, moves: seq<Move>, w: nat, t: nat, v: Message, ttl: Duration)
    requires w < t <= |moves| && Survives(start, moves, w, t, ttl)
  {
    var n := |Appended(start, moves, w, t, ttl)|;
    n < CACHE_LIMIT && v in LastN(At(start, moves, w + 1, ttl).window.messages, CACHE_LIMIT - n)
  }

  /** Move w carries v there after e, the window before t is built on it, and v has not been pushed out. */
  ghost predicate BringsBack(start: Time, moves: seq<Move>, e: nat, w: nat, t: nat, v: Message, ttl: Duration) {
    && e < w < t <= |moves| && Carries(start, moves, e, w, v, ttl)
    && Survives(start, moves, w, t, ttl) && NotPushedOut(start, moves, w, t, v, ttl)
  }

  lemma InTheLast(a: seq<Message>, b: seq<Message>, v: Message)
    ensures |b| < CACHE_LIMIT && v in LastN(a, CACHE_LIMIT - |b|) ==> v in LastN(a + b, CACHE_LIMIT)
    ensures v in LastN(a + b, CACHE_LIMIT) && v !in b ==> |b| < CACHE_LIMIT && v in LastN(a, CACHE_LIMIT - |b|)
  {
    if |b| < CACHE_LIMIT {
      assert LastN(a + b, CACHE_LIMIT) == LastN(a, CACHE_LIMIT - |b|) + b;
    } else {
      assert forall x | x in LastN(a + b, CACHE_LIMIT) :: x in b;
    }
  }

  lemma UpdatedFrom(read: Option<seq<Message>>, m: Message, v: Message)
    ensures v in Updated(read, m) ==> v == m || (read.Some? && v in read.value)
    ensures m in Updated(read, m)
  {
    if read.Some? {
      var r := LastN(read.value + [m], CACHE_LIMIT);
      assert r[|r| - 1] == m;
    }
  }

  /** A write that puts v into the window carries it, or had read it after e. */
  lemma WriteCarries(start: Time, moves: seq<Move>, e: nat, t: nat, v: Message, ttl: Duration)
    requires t < |moves| && moves[t].Write? && Sets(At(start, moves, t, ttl), moves[t])
    requires v in At(start, moves, t + 1, ttl).window.messages
    ensures var u := At(start, moves, t, ttl).updates[moves[t].id];
            var r := u.read.value;
            Carries(start, moves, e, t, v, ttl)
            || (u.message != v && e <= r.at < t && r.list.Some? && moves[r.at].Read? && v in At(start, moves, r.at, ttl).window.messages)
  {
    AtNext(start, moves, t, ttl);
    AllPast(start, moves, t, ttl);
    var u := At(start, moves, t, ttl).updates[moves[t].id];
    assert WasRead(start, moves, t, u.read.value, ttl);
    UpdatedFrom(u.read.value.list, u.message, v);
  }

  lemma StoreCarries(start: Time, moves: seq<Move>, e: nat, t: nat, v: Message, ttl: Duration)
    requires e < t < |moves| && moves[t].Store? && Sets(At(start, moves, t, ttl), moves[t])
    requires moves[e].Invalidate? && NeverAgain(moves, e, v)
    requires v in At(start, moves, t + 1, ttl).window.messages
    ensures Carries(start, moves, e, t, v, ttl)
  {
    AtNext(start, moves, t, ttl);
    AllPast(start, moves, t, ttl);
    var l := At(start, moves, t, ttl).loads[moves[t].id];
    assert moves[l.at] == Query(moves[t].id, l.found);
  }

  /** Move w carries v, the window before t is built on what it wrote, and v was not appended since. */
  ghost predicate IsCarrier(start: Time, moves: seq<Move>, e: nat, w: nat, t: nat, v: Message, ttl: Duration) {
    && e < w < t <= |moves| && Carries(start, moves, e, w, v, ttl)
    && Survives(start, moves, w, t, ttl) && v !in Appended(start, moves, w, t, ttl)
  }

  lemma CarrierNow(start: Time, moves: seq<Move>, e: nat, t: nat, v: Message, ttl: Duration)
    requires e < t < |moves| && Carries(start, moves, e, t, v, ttl)
    ensures IsCarrier(start, moves, e, t, t + 1, v, ttl)
  {
  }

  lemma CarrierUnset(start: Time, moves: seq<Move>, e: nat, w: nat, t: nat, v: Message, ttl: Duration)
    requires t < |moves| && IsCarrier(start, moves, e, w, t, v, ttl) && !Sets(At(start, moves, t, ttl), moves[t])
    ensures IsCarrier(start, moves, e, w, t + 1, v, ttl)
  {
    SurvivesUnset(start, moves, w, t, ttl);
  }

  lemma CarrierUpdate(start: Time, moves: seq<Move>, e: nat, w: nat, t: nat, v: Message, ttl: Duration)
    requires t < |moves| && moves[t].Write? && Sets(At(start, moves, t, ttl), moves[t])
    requires var u := At(start, moves, t, ttl).updates[moves[t].id];
             && u.message != v && u.read.value.list.Some? && u.read.value.at < t
             && IsCarrier(start, moves, e, w, u.read.value.at, v, ttl)
    ensures IsCarrier(start, moves, e, w, t + 1, v, ttl)
  {
    SurvivesUpdate(start, moves, w, t, ttl);
  }

  lemma OnlyTheseFill(start: Time, moves: seq<Move>, t: nat, v: Message, ttl: Duration)
    requires t < |moves| && v in At(start, moves, t + 1, ttl).window.messages
    ensures Sets(At(start, moves, t, ttl), moves[t]) ==> moves[t].Write? || moves[t].Store?
    ensures !Sets(At(start, moves, t, ttl), moves[t]) ==> v in At(start, moves, t, ttl).window.messages
  {
    AtNext(start, moves, t, ttl);
  }

  /** A write that puts v there carries it, or had read it from a window whose carrier is still one. */
  lemma CarrierOfWrite(start: Time, moves: seq<Move>, e: nat, t: nat, v: Message, ttl: Duration) returns (r: nat)
    requires e < t < |moves| && moves[e].Invalidate? && moves[t].Write? && Sets(At(start, moves, t, ttl), moves[t])
    requires v in At(start, moves, t + 1, ttl).window.messages && !Carries(start, moves, e, t, v, ttl)
    ensures e < r < t && v in At(start, moves, r, ttl).window.messages
    ensures forall w | IsCarrier(start, moves, e, w, r, v, ttl) :: IsCarrier(start, moves, e, w, t + 1, v, ttl)
  {
    WriteCarries(start, moves, e, t, v, ttl);
    r := At(start, moves, t, ttl).updates[moves[t].id].read.value.at;
    assert e < r by {
      assert moves[r].Read? && moves[e].Invalidate?;
    }
    forall w | IsCarrier(start, moves, e, w, r, v, ttl) ensures IsCarrier(start, moves, e, w, t + 1, v, ttl) {
      CarrierUpdate(start, moves, e, w, t, v, ttl);
    }
  }

  /** If the window holds v, there is a carrier. */
  lemma {:induction false} CarrierOf(start: Time, moves: seq<Move>, e: nat, t: nat, v: Message, ttl: Duration) returns (w: nat)
    requires e < t <= |moves| && moves[e].Invalidate? && NeverAgain(moves, e, v)
    requires v in At(start, moves, t, ttl).window.messages
    ensures IsCarrier(start, moves, e, w, t, v, ttl)
    decreases t
  {
    var last := t - 1;
    OnlyTheseFill(start, moves, last, v, ttl);
    if !Sets(At(start, moves, last, ttl), moves[last]) {
      w := CarrierOf(start, moves, e, last, v, ttl);
      CarrierUnset(start, moves, e, w, last, v, ttl);
    } else if moves[last].Write? && !Carries(start, moves, e, last, v, ttl) {
      var r := CarrierOfWrite(start, moves, e, last, v, ttl);
      w := CarrierOf(start, moves, e, r, v, ttl);
    } else {
      if moves[last].Store? {
        StoreCarries(start, moves, e, last, v, ttl);
      }
      CarrierNow(start, moves, e, last, v, ttl);
      w := last;
    }
  }

  /**
   After the clearing of an edit at e, in any run: the window holds the old version v exactly when a move
   after e carried it there, nothing but updates that had read it since wrote to the window after that
   move, and these did not push it out.
   */
  lemma {:induction false} OldVersionReturnsIff(start: Time, moves: seq<Move>, e: nat, t: nat, v: Message, ttl: Duration)
    requires e < t <= |moves| && moves[e].Invalidate? && NeverAgain(moves, e, v)
    ensures v in At(start, moves, t, ttl).window.messages <==> exists w :: BringsBack(start, moves, e, w, t, v, ttl)
  {
    if v in At(start, moves, t, ttl).window.messages {
      var w := CarrierOf(start, moves, e, t, v, ttl);
      WindowIsBuiltOn(start, moves, w, t, ttl);
      InTheLast(At(start, moves, w + 1, ttl).window.messages, Appended(start, moves, w, t, ttl), v);
      assert BringsBack(start, moves, e, w, t, v, ttl);
    }
    if w: nat :| BringsBack(start, moves, e, w, t, v, ttl) {
      WindowIsBuiltOn(start, moves, w, t, ttl);
      InTheLast(At(start, moves, w + 1, ttl).window.messages, Appended(start, moves, w, t, ttl), v);
    }
  }

  // ---------- when an edit's clearing is final ----------

  /** What the update will write holds v, as far as can be told now. */
  predicate Bears(u: Update, v: Message) {
    if u.read.None? then u.message == v else v in Updated(u.read.value.list, u.message)
  }

  ghost predicate InFlight(s: Shared, v: Message) {
    (exists id | id in s.updates :: Bears(s.updates[id], v)) || (exists id | id in s.loads :: v in ListOf(s.loads[id].found))
  }

  /** Nothing holds v, neither the window nor a goroutine. */
  ghost predicate Clean(s: Shared, v: Message) {
    v !in s.window.messages && !InFlight(s, v)
  }

  lemma UpdatesStayClean(s: Shared, move: Move, v: Message, ttl: Duration)
    requires Clean(s, v) && (move.Start? ==> move.message != v)
    ensures forall id | id in UpdatesAfter(s, move, ttl) :: !Bears(UpdatesAfter(s, move, ttl)[id], v)
  {
    forall id | id in UpdatesAfter(s, move, ttl) ensures !Bears(UpdatesAfter(s, move, ttl)[id], v) {
      if id in s.updates {
        assert !Bears(s.updates[id], v);
        UpdatedFrom(ReadWindow(s.window, s.now, ttl), s.updates[id].message, v);
      }
    }
  }

  lemma StaysClean(s: Shared, move: Move, v: Message, ttl: Duration)
    requires Clean(s, v) && NeverAgain([move], 0, v)
    ensures Clean(Do(s, move, ttl), v)
  {
    assert [move][0] == move;
    UpdatesStayClean(s, move, v, ttl);
    if Sets(s, move) && move.Write? {
      assert !Bears(s.updates[move.id], v);
    }
  }

  lemma {:induction false} StaysCleanForever(s: Shared, moves: seq<Move>, v: Message, ttl: Duration)
    requires Clean(s, v) && NeverAgain(moves, 0, v)
    ensures Clean(DoAll(s, moves, ttl), v)
  {
    if moves != [] {
      var before, last := moves[..|moves| - 1], moves[|moves| - 1];
      assert forall k | 0 <= k < |before| :: before[k] == moves[k];
      StaysCleanForever(s, before, v, ttl);
      StaysClean(DoAll(s, before, ttl), last, v, ttl);
    }
  }

  /** The two ways back through an update, and the one through a load. */
  lemma WaysBack(s: Shared, edit: EditRequest, v: Message, ttl: Duration) returns (more: seq<Move>)
    requires InFlight(s, v)
    ensures NeverAgain(more, 0, v) && v in DoAll(Do(s, Invalidate(edit), ttl), more, ttl).window.messages
  {
    var cleared := Do(s, Invalidate(edit), ttl);
    if id :| id in s.loads && v in ListOf(s.loads[id].found) {
      more := [Store(id)];
      OneMove(cleared, Store(id), ttl);
    } else {
      var id :| id in s.updates && Bears(s.updates[id], v);
      if s.updates[id].read.Some? {
        more := [Write(id)];
        OneMove(cleared, Write(id), ttl);
      } else {
        more := [Read(id), Write(id)];
        OneMove(cleared, Read(id), ttl);
        assert more[..1] == [Read(id)];
      }
    }
  }

  /**
   Both goroutines that can do it, from their start: a load that queries before the edit clears the cache
   and stores after it, and an update that reads before and writes after.
   */
  lemma TwoRunsBack(s: Shared, id: nat, found: seq<Row>, m: Message, edit: EditRequest, ttl: Duration)
    requires id !in s.loads && id !in s.updates && found != [] && |found| <= HISTORY_LIMIT
    ensures Do(Do(Do(s, Query(id, found), ttl), Invalidate(edit), ttl), Store(id), ttl).window.messages == ListOf(found)
    ensures Do(Do(Do(Do(s, Start(id, m), ttl), Read(id), ttl), Invalidate(edit), ttl), Write(id), ttl).window.messages
         == Updated(ReadWindow(s.window, s.now, ttl), m)
  {
  }

  lemma OneMove(s: Shared, move: Move, ttl: Duration)
    ensures DoAll(s, [move], ttl) == Do(s, move, ttl)
  {
    assert [move][..0] == [];
  }

  /**
   The clearing of an edit is final, whatever happens afterwards, exactly when no update and no load under
   way carries the old version.
   */
  lemma ClearingIsFinalIff(s: Shared, edit: EditRequest, v: Message, ttl: Duration)
    ensures (forall more | NeverAgain(more, 0, v) :: v !in DoAll(Do(s, Invalidate(edit), ttl), more, ttl).window.messages)
       <==> !InFlight(s, v)
  {
    if InFlight(s, v) {
      var more := WaysBack(s, edit, v, ttl);
    } else {
      assert Clean(Do(s, Invalidate(edit), ttl), v) by {
        UpdatesStayClean(s.(window := EMPTY_WINDOW), Invalidate(edit), v, ttl);
      }
      forall more | NeverAgain(more, 0, v)
        ensures v !in DoAll(Do(s, Invalidate(edit), ttl), more, ttl).window.messages {
        StaysCleanForever(Do(s, Invalidate(edit), ttl), more, v, ttl);
      }
    }
  }

  // ---------- lost updates ----------

  /** A write keeps its own message and, of what was there when it read, the newest 99; nothing else. */
  lemma WriteKeepsWhatItRead(start: Time, moves: seq<Move>, k: nat, x: Message, ttl: Duration)
    requires k < |moves| && moves[k].Write? && Sets(At(start, moves, k, ttl), moves[k])
    ensures var u := At(start, moves, k, ttl).updates[moves[k].id];
            && u.read.value.at < k
            && (x in At(start, moves, k + 1, ttl).window.messages
                <==> x == u.message
                     || var seen := At(start, moves, u.read.value.at, ttl);
                        ReadWindow(seen.window, seen.now, ttl).Some? && x in LastN(seen.window.messages, CACHE_LIMIT - 1))
  {
    var u := At(start, moves, k, ttl).updates[moves[k].id];
    AtNext(start, moves, k, ttl);
    AllPast(start, moves, k, ttl);
    assert WasRead(start, moves, k, u.read.value, ttl);
    if u.read.value.list.Some? {
      InTheLast(u.read.value.list.value, [u.message], x);
      UpdatedFrom(u.read.value.list, u.message, x);
    }
  }

  /** The window is the same before j as before i when nothing in between writes to it. */
  lemma {:induction false} Untouched(start: Time, moves: seq<Move>, i: nat, j: nat, ttl: Duration)
    requires i <= j <= |moves| && forall k | i <= k < j :: !Sets(At(start, moves, k, ttl), moves[k])
    ensures At(start, moves, j, ttl).window == At(start, moves, i, ttl).window
    ensures At(start, moves, i, ttl).now <= At(start, moves, j, ttl).now
  {
    if i < j {
      Untouched(start, moves, i, j - 1, ttl);
      AtNext(start, moves, j - 1, ttl);
    }
  }

  /**
   Two updates whose writes follow each other, with any other moves around and between their turns: the
   second write keeps the new message of the first exactly when it had read after the first write, and
   before the list expired.
   */
  lemma LaterWriteKeepsIff(start: Time, moves: seq<Move>, j: nat, k: nat, ttl: Duration)
    requires j < k < |moves| && moves[j].Write? && Sets(At(start, moves, j, ttl), moves[j])
    requires moves[k].Write? && Sets(At(start, moves, k, ttl), moves[k])
    requires forall i | j < i < k :: !Sets(At(start, moves, i, ttl), moves[i])
    requires var a := At(start, moves, j, ttl).updates[moves[j].id].message;
             a != At(start, moves, k, ttl).updates[moves[k].id].message
             && forall i | 0 <= i <= j :: a !in At(start, moves, i, ttl).window.messages
    ensures var a := At(start, moves, j, ttl).updates[moves[j].id].message;
            var r := At(start, moves, k, ttl).updates[moves[k].id].read.value.at;
            && r < k
            && (a in At(start, moves, k + 1, ttl).window.messages
                <==> j < r && !Stale(At(start, moves, r, ttl).now, At(start, moves, r, ttl).window.time, ttl))
  {
    var u := At(start, moves, j, ttl).updates[moves[j].id];
    var r := At(start, moves, k, ttl).updates[moves[k].id].read.value.at;
    WriteKeepsWhatItRead(start, moves, k, u.message, ttl);
    AtNext(start, moves, j, ttl);
    if j < r {
      Untouched(start, moves, j + 1, r, ttl);
      var ms := At(start, moves, j + 1, ttl).window.messages;
      assert ms == Updated(u.read.value.list, u.message);
      assert ms[|ms| - 1] == u.message;
      var kept := LastN(ms, CACHE_LIMIT - 1);
      assert kept[|kept| - 1] == u.message;
    }
  }

  /** Both reads before both writes, from any state: the message of the first write is in the cache and then lost. */
  lemma LostUpdateRun(s: Shared, i: nat, a: Message, j: nat, b: Message, ttl: Duration)
    requires i != j && i !in s.updates && j !in s.updates
    requires a != b && a !in s.window.messages
    ensures var began := Do(Do(s, Start(i, a), ttl), Start(j, b), ttl);
            var once := Do(Do(Do(began, Read(i), ttl), Read(j), ttl), Write(i), ttl);
            && a in once.window.messages
            && Do(once, Write(j), ttl).window.messages == Updated(ReadWindow(s.window, s.now, ttl), b)
            && a !in Do(once, Write(j), ttl).window.messages
  {
    var read := ReadWindow(s.window, s.now, ttl);
    assert Updated(read, a)[|Updated(read, a)| - 1] == a;
  }

  // ---------- when an interleaved run is a serial one ----------

  /**
   Move k writes what it would write if its goroutine ran in one piece: nothing wrote to the window since
   it read, queried or checked; a list that was read has not expired since, and a load found the cache cold.
   */
  ghost predicate Undisturbed(start: Time, moves: seq<Move>, k: nat, ttl: Duration)
    requires k < |moves|
  {
    var s := At(start, moves, k, ttl);
    Sets(s, moves[k]) ==>
      match moves[k]
      case Write(id) =>
        && Quiet(start, moves, s.updates[id].read.value.at, k, ttl)
        && (s.updates[id].read.value.list.Some? ==> !Stale(s.now, s.window.time, ttl))
      case Store(id) => Quiet(start, moves, s.loads[id].at, k, ttl) && WasCold(start, moves, s.loads[id].at, ttl)
      case Clear => Quiet(start, moves, s.checked.value, k, ttl)
      case _ => true
  }

  ghost predicate Quiet(start: Time, moves: seq<Move>, i: nat, k: nat, ttl: Duration) {
    forall j | i <= j < k && j < |moves| :: !Sets(At(start, moves, j, ttl), moves[j])
  }

  ghost predicate WasCold(start: Time, moves: seq<Move>, i: nat, ttl: Duration) {
    i <= |moves| && ReadWindow(At(start, moves, i, ttl).window, At(start, moves, i, ttl).now, ttl).None?
  }

  /** The step of the serial system that a move completes, if any. */
  function Completes(s: Shared, move: Move): seq<Step> {
    match move
    case Pass(d) => [Tick(d)]
    case Write(id) => if Sets(s, move) then [Broadcast(s.updates[id].message, true)] else []
    case Store(id) => if Sets(s, move) then [Load(s.loads[id].found)] else []
    case Invalidate(e) => [EditBy(e.id, e.newText, e.username)]
    case Clear => if Sets(s, move) then [Step.Cleanup] else []
    case _ => []
  }

  function SerialSteps(start: Time, moves: seq<Move>, ttl: Duration): seq<Step> {
    if moves == [] then []
    else
      var before := moves[..|moves| - 1];
      SerialSteps(start, before, ttl) + Completes(DoAll(Idle(start), before, ttl), moves[|moves| - 1])
  }

  /** As every message that is handed to updateCache. */
  predicate Ready(m: Message) {
    m.text != "" && m.username != "" && m.timestamp != ZERO_TIME && !m.edited
  }

  ghost predicate AllReady(moves: seq<Move>) {
    forall k | 0 <= k < |moves| && moves[k].Start? :: Ready(moves[k].message)
  }

  lemma {:induction false} UpdatesAreReady(start: Time, moves: seq<Move>, ttl: Duration)
    requires AllReady(moves)
    ensures forall id | id in DoAll(Idle(start), moves, ttl).updates :: Ready(DoAll(Idle(start), moves, ttl).updates[id].message)
  {
    if moves != [] {
      var before := moves[..|moves| - 1];
      assert forall k | 0 <= k < |before| :: before[k] == moves[k];
      UpdatesAreReady(start, before, ttl);
    }
  }

  /** The cache is cleared only after an edit that the database accepted. */
  ghost predicate EditsAreHonoured(users: set<string>, start: Time, moves: seq<Move>, ttl: Duration) {
    forall k | 0 <= k < |moves| && moves[k].Invalidate? ::
      var e := moves[k].edit;
      MayEdit(Exec(Initial(users, start), SerialSteps(start, moves[..k], ttl), ttl).tables, e.id, e.newText, e.username)
  }

  /** An undisturbed update writes what a read just before its write would have it write. */
  lemma UndisturbedUpdateIsAtomic(start: Time, moves: seq<Move>, k: nat, ttl: Duration)
    requires k < |moves| && moves[k].Write? && Sets(At(start, moves, k, ttl), moves[k]) && Undisturbed(start, moves, k, ttl)
    ensures var s := At(start, moves, k, ttl);
            s.updates[moves[k].id].read.value.list == ReadWindow(s.window, s.now, ttl)
  {
    var s := At(start, moves, k, ttl);
    var r := s.updates[moves[k].id].read.value;
    AllPast(start, moves, k, ttl);
    assert WasRead(start, moves, k, r, ttl);
    Untouched(start, moves, r.at, k, ttl);
  }

  lemma UndisturbedStoreIsCold(start: Time, moves: seq<Move>, k: nat, ttl: Duration)
    requires k < |moves| && moves[k].Store? && Sets(At(start, moves, k, ttl), moves[k]) && Undisturbed(start, moves, k, ttl)
    ensures ReadWindow(At(start, moves, k, ttl).window, At(start, moves, k, ttl).now, ttl).None?
  {
    AllPast(start, moves, k, ttl);
    Untouched(start, moves, At(start, moves, k, ttl).loads[moves[k].id].at, k, ttl);
  }

  lemma UndisturbedClearIsStale(start: Time, moves: seq<Move>, k: nat, ttl: Duration)
    requires k < |moves| && moves[k].Clear? && Sets(At(start, moves, k, ttl), moves[k]) && Undisturbed(start, moves, k, ttl)
    ensures Stale(At(start, moves, k, ttl).now, At(start, moves, k, ttl).window.time, ttl)
  {
    var c := At(start, moves, k, ttl).checked.value;
    AllPast(start, moves, k, ttl);
    assert WasStale(start, moves, k, c, ttl);
    Untouched(start, moves, c, k, ttl);
  }

  /** Then the move does to window and clock what the serial step does. */
  lemma UndisturbedMoveIsSerial(start: Time, moves: seq<Move>, k: nat, t: System, ttl: Duration)
    requires k < |moves| && Undisturbed(start, moves, k, ttl) && AllReady(moves)
    requires t.window == At(start, moves, k, ttl).window && t.now == At(start, moves, k, ttl).now
    requires moves[k].Invalidate? ==> MayEdit(t.tables, moves[k].edit.id, moves[k].edit.newText, moves[k].edit.username)
    ensures var steps, s' := Completes(At(start, moves, k, ttl), moves[k]), At(start, moves, k + 1, ttl);
            if steps == [] then t.window == s'.window && t.now == s'.now
            else |steps| == 1 && Next(t, steps[0], ttl).window == s'.window && Next(t, steps[0], ttl).now == s'.now
  {
    var s, move := At(start, moves, k, ttl), moves[k];
    AtNext(start, moves, k, ttl);
    if Sets(s, move) {
      match move {
        case Write(id) =>
          UndisturbedUpdateIsAtomic(start, moves, k, ttl);
          assert forall i | 0 <= i < k :: moves[..k][i] == moves[i];
          UpdatesAreReady(start, moves[..k], ttl);
        case Store(id) => UndisturbedStoreIsCold(start, moves, k, ttl);
        case Clear => UndisturbedClearIsStale(start, moves, k, ttl);
        case Invalidate(_) =>
      }
    }
  }

  lemma ExecOneMore(t: System, steps: seq<Step>, more: seq<Step>, ttl: Duration)
    requires |more| <= 1
    ensures Exec(t, steps + more, ttl) == if more == [] then Exec(t, steps, ttl) else Next(Exec(t, steps, ttl), more[0], ttl)
  {
    if more == [] {
      assert steps + more == steps;
    } else {
      assert (steps + more)[..|steps|] == steps && (steps + more)[|steps|] == more[0];
    }
  }

  lemma SerialOneMore(t: System, start: Time, moves: seq<Move>, k: nat, ttl: Duration)
    requires k < |moves|
    ensures var steps, more := SerialSteps(start, moves[..k], ttl), Completes(At(start, moves, k, ttl), moves[k]);
            |more| <= 1
            && Exec(t, SerialSteps(start, moves[..k + 1], ttl), ttl)
               == (if more == [] then Exec(t, steps, ttl) else Next(Exec(t, steps, ttl), more[0], ttl))
  {
    assert moves[..k + 1][..k] == moves[..k];
    ExecOneMore(t, SerialSteps(start, moves[..k], ttl), Completes(At(start, moves, k, ttl), moves[k]), ttl);
  }

  lemma {:induction false} UndisturbedIsSerial(users: set<string>, start: Time, moves: seq<Move>, k: nat, ttl: Duration)
    requires k <= |moves| && AllReady(moves) && EditsAreHonoured(users, start, moves, ttl)
    requires forall i | 0 <= i < |moves| :: Undisturbed(start, moves, i, ttl)
    ensures var t := Exec(Initial(users, start), SerialSteps(start, moves[..k], ttl), ttl);
            t.window == At(start, moves, k, ttl).window && t.now == At(start, moves, k, ttl).now
  {
    if k > 0 {
      UndisturbedIsSerial(users, start, moves, k - 1, ttl);
      var t := Exec(Initial(users, start), SerialSteps(start, moves[..k - 1], ttl), ttl);
      UndisturbedMoveIsSerial(start, moves, k - 1, t, ttl);
      SerialOneMore(Initial(users, start), start, moves, k - 1, ttl);
    }
  }

  lemma {:induction false} StepsAreUnedited(start: Time, moves: seq<Move>, ttl: Duration)
    requires AllReady(moves)
    ensures forall st | st in SerialSteps(start, moves, ttl) :: Unedited(st)
  {
    if moves != [] {
      var before := moves[..|moves| - 1];
      assert forall k | 0 <= k < |before| :: before[k] == moves[k];
      StepsAreUnedited(start, before, ttl);
      UpdatesAreReady(start, before, ttl);
    }
  }

  /**
   A run in which every goroutine that writes to the cache is undisturbed leaves the cache as the serial
   run of its completed steps does. If that is a run the database allows (insertions succeed, times grow,
   loads are answered), a read of the cache then or later misses or shows the end of the table.
   */
  lemma {:induction false} UndisturbedRunIsSerial(users: set<string>, start: Time, moves: seq<Move>, ttl: Duration, later: Time)
    requires AllReady(moves) && EditsAreHonoured(users, start, moves, ttl)
    requires forall i | 0 <= i < |moves| :: Undisturbed(start, moves, i, ttl)
    ensures var t := Exec(Initial(users, start), SerialSteps(start, moves, ttl), ttl);
            && t.window == DoAll(Idle(start), moves, ttl).window
            && (IsRun(Initial(users, start), SerialSteps(start, moves, ttl), ttl) ==>
                  MissOrTail(ReadWindow(DoAll(Idle(start), moves, ttl).window, later, ttl), t.tables.rows))
  {
    assert moves[..|moves|] == moves;
    UndisturbedIsSerial(users, start, moves, |moves|, ttl);
    if IsRun(Initial(users, start), SerialSteps(start, moves, ttl), ttl) {
      StepsAreUnedited(start, moves, ttl);
      CacheRefinesTable(users, start, SerialSteps(start, moves, ttl), ttl, later);
    }
  }
}
