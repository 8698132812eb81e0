/**
 The interleaved cache beside the message table: every broadcast is saved by a goroutine of its own, before
 or after its cache update, every edit changes its row and then clears the cache, and a load is answered by
 the table as it is at its query.
 */
module CacheAndTable {
  import opened Types
  import opened Utf8
  import opened CacheSpec
  import opened CacheRefinement
  import opened CacheInterleaving
  import opened MessageRepo
  import opened History

  /**
   The table, the messages still to be saved by the move that started them, and the record of the run: what
   was saved, what was written to the cache by an update, and which edits changed a row or cleared the cache.
   */
  datatype Database = Database(tables: Tables, saves: map<nat, Message>, saved: seq<Message>, written: seq<Message>,
                               edited: seq<EditRequest>, cleared: seq<EditRequest>)

  function DbDo(d: Database, s: Shared, move: Move): Database {
    match move
    case Start(id, m) => if id in s.updates then d else d.(saves := d.saves[s.turn := m])
    case Save(k) =>
      if k !in d.saves then d
      else if MaySave(d.tables, d.saves[k], true)
      then d.(tables := Insert(d.tables, d.saves[k], true), saved := d.saved + [d.saves[k]], saves := d.saves - {k})
      else d.(saves := d.saves - {k})
    case EditRow(e) =>
      if MayEdit(d.tables, e.id, e.newText, e.username)
      then d.(tables := Edit(d.tables, e.id, e.newText, e.username), edited := d.edited + [e])
      else d
    case Write(id) => if Sets(s, move) then d.(written := d.written + [s.updates[id].message]) else d
    case Invalidate(e) => d.(cleared := d.cleared + [e])
    case _ => d
  }

  function Db(users: set<string>, start: Time, moves: seq<Move>, ttl: Duration): Database {
    if moves == [] then Database(Tables(users, []), map[], [], [], [], [])
    else
      var before := moves[..|moves| - 1];
      DbDo(Db(users, start, before, ttl), DoAll(Idle(start), before, ttl), moves[|moves| - 1])
  }

  /** The database before the k-th move. */
  function DbAt(users: set<string>, start: Time, moves: seq<Move>, k: nat, ttl: Duration): Database
    requires k <= |moves|
  {
    Db(users, start, moves[..k], ttl)
  }

  lemma DbNext(users: set<string>, start: Time, moves: seq<Move>, k: nat, ttl: Duration)
    requires k < |moves|
    ensures DbAt(users, start, moves, k + 1, ttl) == DbDo(DbAt(users, start, moves, k, ttl), At(start, moves, k, ttl), moves[k])
  {
    assert moves[..k + 1][..k] == moves[..k];
  }

  function Records(es: seq<EditRequest>): (r: seq<EditRecord>)
    ensures |r| == |es| && forall i | 0 <= i < |es| :: r[i] == EditRecord(es[i].id, es[i].newText)
  {
    seq(|es|, i requires 0 <= i < |es| => EditRecord(es[i].id, es[i].newText))
  }

  lemma RecordsOneMore(es: seq<EditRequest>, e: EditRequest)
    ensures Records(es + [e]) == Records(es) + [EditRecord(e.id, e.newText)]
  {
  }

  // ---------- the table is what was saved and edited ----------

  /** The edit names a message of the list, is by its author, and can be stored. */
  predicate Names(e: EditRequest, ms: seq<Message>) {
    0 < e.id <= |ms| && ms[e.id - 1].username == e.username && Storable(e.newText)
  }

  ghost predicate DbSound(d: Database, users: set<string>) {
    && d.tables.users == users
    && TableIs(d.tables, d.saved, Records(d.edited))
    && (forall e | e in d.edited :: Names(e, d.saved))
    && (forall m | m in d.saved :: m.username in users && Storable(m.text))
  }

  lemma IdsOf(es: seq<EditRequest>, ms: seq<Message>)
    requires forall e | e in es :: Names(e, ms)
    ensures forall x | x in Records(es) :: 0 < x.id <= |ms|
  {
    forall x | x in Records(es) ensures 0 < x.id <= |ms| {
      var i :| 0 <= i < |es| && Records(es)[i] == x;
      assert es[i] in es;
    }
  }

  lemma DbStep(d: Database, s: Shared, move: Move, users: set<string>)
    requires DbSound(d, users)
    ensures DbSound(DbDo(d, s, move), users)
  {
    match move
    case Save(k) =>
      if k in d.saves && MaySave(d.tables, d.saves[k], true) {
        IdsOf(d.edited, d.saved);
        SavingExtends(d.tables, d.saved, Records(d.edited), d.saves[k]);
        forall e | e in d.edited ensures Names(e, d.saved + [d.saves[k]]) {
          assert Names(e, d.saved);
        }
      }
    case EditRow(e) =>
      EditingUpdates(d.tables, d.saved, Records(d.edited), e.id, e.newText, e.username);
      RecordsOneMore(d.edited, e);
    case _ =>
  }

  lemma {:induction false} DbIsSound(users: set<string>, start: Time, moves: seq<Move>, ttl: Duration)
    ensures DbSound(Db(users, start, moves, ttl), users)
  {
    if moves != [] {
      DbIsSound(users, start, moves[..|moves| - 1], ttl);
      DbStep(Db(users, start, moves[..|moves| - 1], ttl), DoAll(Idle(start), moves[..|moves| - 1], ttl), moves[|moves| - 1], users);
    }
  }

  lemma SameRows(a: Tables, b: Tables, saved: seq<Message>, edits: seq<EditRecord>)
    requires TableIs(a, saved, edits) && TableIs(b, saved, edits)
    ensures a.rows == b.rows
  {
  }

  // ---------- the runs considered ----------

  /** Nothing is half done: as many messages saved as written to the cache, and every edited row followed by its clearing. */
  predicate Whole(d: Database) {
    |d.saved| == |d.written| && d.edited == d.cleared
  }

  /** Saves come in the order of the cache writes, before or after them; so do edits and their clearings. */
  predicate Ordered(d: Database) {
    (d.saved <= d.written || d.written <= d.saved) && d.cleared <= d.edited
  }

  predicate TimesGrow(ms: seq<Message>) {
    forall i, j | 0 <= i < j < |ms| :: ms[i].timestamp < ms[j].timestamp
  }

  /** A complete message of a registered author that the table can hold. */
  predicate Savable(m: Message, users: set<string>) {
    Ready(m) && m.username in users && Storable(m.text)
  }

  ghost predicate AllSavable(updates: map<nat, Update>, users: set<string>) {
    forall id | id in updates :: Savable(updates[id].message, users)
  }

  /** What a move meets: its goroutine is undisturbed, and the database is as the move expects. */
  ghost predicate Proceeds(users: set<string>, start: Time, moves: seq<Move>, k: nat, ttl: Duration)
    requires k < |moves|
  {
    var s, d := At(start, moves, k, ttl), DbAt(users, start, moves, k, ttl);
    && Undisturbed(start, moves, k, ttl)
    && Ordered(DbAt(users, start, moves, k + 1, ttl)) && TimesGrow(DbAt(users, start, moves, k + 1, ttl).written)
    && match moves[k]
       case Start(_, m) => Savable(m, users)
       case Query(_, found) => IsNewest(d.tables.rows, HISTORY_LIMIT, found)
       case Store(id) => Sets(s, moves[k]) ==> s.loads[id].at <= k && Whole(DbAt(users, start, moves, s.loads[id].at, ttl))
       case Invalidate(e) => e.id <= |d.written|
       case _ => true
  }

  ghost predicate AllProceed(users: set<string>, start: Time, moves: seq<Move>, ttl: Duration) {
    forall k | 0 <= k < |moves| :: Proceeds(users, start, moves, k, ttl)
  }

  lemma {:induction false} EveryMomentIsOrdered(users: set<string>, start: Time, moves: seq<Move>, k: nat, ttl: Duration)
    requires k <= |moves| && AllProceed(users, start, moves, ttl)
    ensures Ordered(DbAt(users, start, moves, k, ttl)) && TimesGrow(DbAt(users, start, moves, k, ttl).written)
  {
    if k > 0 {
      assert Proceeds(users, start, moves, k - 1, ttl);
    }
  }

  lemma QuietMove(d: Database, s: Shared, move: Move)
    requires !Sets(s, move)
    ensures DbDo(d, s, move).written == d.written && DbDo(d, s, move).cleared == d.cleared
  {
  }

  /** While nothing writes to the window, nothing is recorded as written or cleared. */
  lemma {:induction false} QuietRecord(users: set<string>, start: Time, moves: seq<Move>, i: nat, k: nat, ttl: Duration)
    requires i <= k <= |moves| && Quiet(start, moves, i, k, ttl)
    ensures DbAt(users, start, moves, k, ttl).written == DbAt(users, start, moves, i, ttl).written
    ensures DbAt(users, start, moves, k, ttl).cleared == DbAt(users, start, moves, i, ttl).cleared
  {
    if i < k {
      QuietRecord(users, start, moves, i, k - 1, ttl);
      DbNext(users, start, moves, k - 1, ttl);
      QuietMove(DbAt(users, start, moves, k - 1, ttl), At(start, moves, k - 1, ttl), moves[k - 1]);
    }
  }

  // ---------- beside the serial run ----------

  ghost predicate Beside(t: System, s: Shared, d: Database, users: set<string>) {
    && t.window == s.window && t.now == s.now && t.tables.users == users
    && TableIs(t.tables, d.written, Records(d.cleared))
    && (forall e | e in d.cleared :: 0 < e.id <= |d.written|)
    && AllSavable(s.updates, users)
  }

  lemma ReadyMoves(users: set<string>, start: Time, moves: seq<Move>, ttl: Duration)
    requires AllProceed(users, start, moves, ttl)
    ensures AllReady(moves)
  {
    forall k | 0 <= k < |moves| && moves[k].Start? ensures Ready(moves[k].message) {
      assert Proceeds(users, start, moves, k, ttl);
    }
  }

  /** A clearing follows an edit of a message that is in both records. */
  lemma ClearingNames(d: Database, e: EditRequest, users: set<string>)
    requires DbSound(d, users) && Ordered(d) && d.cleared + [e] <= d.edited && e.id <= |d.written|
    ensures Names(e, d.written)
  {
    assert d.edited[|d.cleared|] == e && e in d.edited;
  }

  /** The serial system takes the step that the move completes. */
  lemma StepIsEnabled(users: set<string>, start: Time, moves: seq<Move>, k: nat, t: System, ttl: Duration)
    requires k < |moves| && AllProceed(users, start, moves, ttl)
    requires Beside(t, At(start, moves, k, ttl), DbAt(users, start, moves, k, ttl), users)
    ensures forall st | st in Completes(At(start, moves, k, ttl), moves[k]) :: Enabled(t, st)
  {
    var s, d, move := At(start, moves, k, ttl), DbAt(users, start, moves, k, ttl), moves[k];
    assert Proceeds(users, start, moves, k, ttl);
    DbNext(users, start, moves, k, ttl);
    if Sets(s, move) {
      match move {
        case Write(id) => NewerThanAll(t.tables, d.written, Records(d.cleared), s.updates[id].message);
        case Store(id) => LoadIsAnswered(users, start, moves, k, t, ttl);
        case _ =>
      }
    }
  }

  lemma NewerThanAll(t: Tables, written: seq<Message>, edits: seq<EditRecord>, m: Message)
    requires TableIs(t, written, edits) && TimesGrow(written + [m])
    ensures Newest(t.rows, m)
  {
    var all := written + [m];
    forall r | r in t.rows ensures r.timestamp < m.timestamp {
      var i :| 0 <= i < |t.rows| && t.rows[i] == r;
      assert all[i].timestamp < all[|written|].timestamp;
    }
  }

  lemma LoadIsAnswered(users: set<string>, start: Time, moves: seq<Move>, k: nat, t: System, ttl: Duration)
    requires k < |moves| && AllProceed(users, start, moves, ttl)
    requires moves[k].Store? && Sets(At(start, moves, k, ttl), moves[k])
    requires Beside(t, At(start, moves, k, ttl), DbAt(users, start, moves, k, ttl), users)
    ensures IsNewest(t.tables.rows, HISTORY_LIMIT, At(start, moves, k, ttl).loads[moves[k].id].found)
  {
    var l := At(start, moves, k, ttl).loads[moves[k].id];
    AllPast(start, moves, k, ttl);
    assert moves[l.at] == Query(moves[k].id, l.found);
    assert Proceeds(users, start, moves, k, ttl) && Proceeds(users, start, moves, l.at, ttl);
    QuietRecord(users, start, moves, l.at, k, ttl);
    EveryMomentIsOrdered(users, start, moves, l.at, ttl);
    DbIsSound(users, start, moves[..l.at], ttl);
    var q := DbAt(users, start, moves, l.at, ttl);
    WholeIsSame(q);
    SameRows(t.tables, q.tables, q.saved, Records(q.edited));
  }

  lemma WholeIsSame(d: Database)
    requires Whole(d) && Ordered(d)
    ensures d.saved == d.written
  {
  }

  lemma UpdatesStaySavable(s: Shared, move: Move, users: set<string>, ttl: Duration)
    requires AllSavable(s.updates, users) && (move.Start? ==> Savable(move.message, users))
    ensures AllSavable(UpdatesAfter(s, move, ttl), users)
  {
  }

  /** The records after a move are those before it with what the completed step saves and honours. */
  lemma RecordsGrow(t: System, s: Shared, d: Database, move: Move, users: set<string>)
    requires t.tables.users == users && AllSavable(s.updates, users)
    requires move.Invalidate? ==> Names(move.edit, d.written)
    ensures var more, d' := Completes(s, move), DbDo(d, s, move);
            && |more| <= 1
            && (more == [] ==> d'.written == d.written && d'.cleared == d.cleared)
            && (more != [] ==> d'.written == d.written + SavedBy(t.now, t.tables, more[0]))
            && (more != [] ==> Records(d'.cleared) == Records(d.cleared) + HonouredBy(d.written, more[0]))
            && (d'.cleared == d.cleared || (move.Invalidate? && d'.cleared == d.cleared + [move.edit]))
  {
    match move
    case Invalidate(e) => RecordsOneMore(d.cleared, e);
    case _ =>
  }

  /** The serial table stays as the records say. */
  lemma RecordsBeside(t: System, s: Shared, d: Database, move: Move, users: set<string>, ttl: Duration)
    requires t.tables.users == users && AllSavable(s.updates, users)
    requires TableIs(t.tables, d.written, Records(d.cleared)) && forall e | e in d.cleared :: 0 < e.id <= |d.written|
    requires move.Invalidate? ==> Names(move.edit, d.written)
    ensures var more, d' := Completes(s, move), DbDo(d, s, move);
            var t' := if more == [] then t else Next(t, more[0], ttl);
            && |more| <= 1 && t'.tables.users == users && TableIs(t'.tables, d'.written, Records(d'.cleared))
            && forall e | e in d'.cleared :: 0 < e.id <= |d'.written|
  {
    var more := Completes(s, move);
    RecordsGrow(t, s, d, move, users);
    IdsInRange(d.cleared, d.written);
    if more != [] {
      StepKeepsTable(t, more[0], d.written, Records(d.cleared), ttl);
    }
  }

  lemma StaysBeside(users: set<string>, start: Time, moves: seq<Move>, k: nat, t: System, ttl: Duration)
    requires k < |moves| && AllProceed(users, start, moves, ttl)
    requires Beside(t, At(start, moves, k, ttl), DbAt(users, start, moves, k, ttl), users)
    ensures var more := Completes(At(start, moves, k, ttl), moves[k]);
            |more| <= 1
            && Beside(if more == [] then t else Next(t, more[0], ttl),
                      At(start, moves, k + 1, ttl), DbAt(users, start, moves, k + 1, ttl), users)
  {
    var s, d, move := At(start, moves, k, ttl), DbAt(users, start, moves, k, ttl), moves[k];
    assert Proceeds(users, start, moves, k, ttl);
    AtNext(start, moves, k, ttl);
    DbNext(users, start, moves, k, ttl);
    if move.Invalidate? {
      EveryMomentIsOrdered(users, start, moves, k, ttl);
      DbIsSound(users, start, moves[..k], ttl);
      ClearingNames(d, move.edit, users);
      EditingUpdates(t.tables, d.written, Records(d.cleared), move.edit.id, move.edit.newText, move.edit.username);
    }
    ReadyMoves(users, start, moves, ttl);
    UndisturbedMoveIsSerial(start, moves, k, t, ttl);
    RecordsBeside(t, s, d, move, users, ttl);
    UpdatesStaySavable(s, move, users, ttl);
  }

  lemma IdsInRange(es: seq<EditRequest>, ms: seq<Message>)
    requires forall e | e in es :: 0 < e.id <= |ms|
    ensures forall x | x in Records(es) :: 0 < x.id <= |ms|
  {
    forall x | x in Records(es) ensures 0 < x.id <= |ms| {
      var i :| 0 <= i < |es| && Records(es)[i] == x;
      assert es[i] in es;
    }
  }

  lemma SerialRunOneMore(t: System, start: Time, moves: seq<Move>, k: nat, ttl: Duration)
    requires k < |moves| && CacheRefinement.IsRun(t, SerialSteps(start, moves[..k], ttl), ttl)
    requires forall st | st in Completes(At(start, moves, k, ttl), moves[k]) ::
               Enabled(Exec(t, SerialSteps(start, moves[..k], ttl), ttl), st)
    ensures CacheRefinement.IsRun(t, SerialSteps(start, moves[..k + 1], ttl), ttl)
  {
    var steps, more := SerialSteps(start, moves[..k], ttl), Completes(At(start, moves, k, ttl), moves[k]);
    assert moves[..k + 1][..k] == moves[..k];
    if more == [] {
      assert steps + more == steps;
    } else {
      assert more == [more[0]] && more[0] in more && (steps + more)[..|steps|] == steps;
    }
  }

  lemma {:induction false} GoesBeside(users: set<string>, start: Time, moves: seq<Move>, k: nat, ttl: Duration)
    requires k <= |moves| && AllProceed(users, start, moves, ttl)
    ensures var t := Initial(users, start);
            && CacheRefinement.IsRun(t, SerialSteps(start, moves[..k], ttl), ttl)
            && Beside(Exec(t, SerialSteps(start, moves[..k], ttl), ttl), At(start, moves, k, ttl),
                      DbAt(users, start, moves, k, ttl), users)
  {
    if k > 0 {
      var t0 := Initial(users, start);
      GoesBeside(users, start, moves, k - 1, ttl);
      var t := Exec(t0, SerialSteps(start, moves[..k - 1], ttl), ttl);
      StepIsEnabled(users, start, moves, k - 1, t, ttl);
      SerialRunOneMore(t0, start, moves, k - 1, ttl);
      StaysBeside(users, start, moves, k - 1, t, ttl);
      SerialOneMore(t0, start, moves, k - 1, ttl);
    }
  }

  /**
   In an interleaved run in which every goroutine that writes to the cache is undisturbed, saves come in the
   order of the cache writes (each before or after its own), every edit changes its row and then clears the
   cache, and every load that stores was queried while nothing was half done: at every moment at which nothing is
   half done, a read of the cache, then or later, misses or yields the last rows of the very table the run
   has built, as they are.
   */
  lemma UndisturbedRunShowsTheTable(users: set<string>, start: Time, moves: seq<Move>, k: nat, ttl: Duration,
                                    later: Time)
    requires k <= |moves| && AllProceed(users, start, moves, ttl) && Whole(DbAt(users, start, moves, k, ttl))
    ensures MissOrTail(ReadWindow(At(start, moves, k, ttl).window, later, ttl), DbAt(users, start, moves, k, ttl).tables.rows)
  {
    var d := DbAt(users, start, moves, k, ttl);
    GoesBeside(users, start, moves, k, ttl);
    EveryMomentIsOrdered(users, start, moves, k, ttl);
    DbIsSound(users, start, moves[..k], ttl);
    WholeIsSame(d);
    var steps := SerialSteps(start, moves[..k], ttl);
    SameRows(Exec(Initial(users, start), steps, ttl).tables, d.tables, d.saved, Records(d.edited));
    ReadyMoves(users, start, moves, ttl);
    assert forall i | 0 <= i < k :: moves[..k][i] == moves[i];
    StepsAreUnedited(start, moves[..k], ttl);
    CacheRefinesTable(users, start, steps, ttl, later);
  }
}
