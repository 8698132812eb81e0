/**
 The recent-message cache against the message table it speeds up, when every broadcast, edit and
 history load runs to completion before the next one starts.
 */
module CacheRefinement {
  import opened Types
  import opened CacheSpec
  import opened MessageRepo
  import opened History
  import opened Utf8
  import ReadPumps
  import Wire

  datatype System = System(tables: Tables, window: Window, now: Time)

  datatype Step =
    | Broadcast(message: Message, written: bool)
    | EditBy(id: nat, newText: string, username: string)
    | Load(found: seq<Row>)
    | Cleanup
    | Tick(elapsed: nat)

  /** The message a broadcast really handles: empty texts are ignored, missing fields filled in. */
  function Effective(m: Message, now: Time): Option<Message> {
    if m.text == "" then None else Some(WithDefaults(m, now))
  }

  /** What updateCache writes back, given what it read. */
  function Updated(read: Option<seq<Message>>, m: Message): seq<Message> {
    match read
    case None => [m]
    case Some(ms) => LastN(ms + [m], CACHE_LIMIT)
  }

  function Next(s: System, step: Step, ttl: Duration): System {
    match step
    case Broadcast(m, written) =>
      (match Effective(m, s.now)
       case None => s
       case Some(e) =>
         System(Insert(s.tables, e, written), Window(Updated(ReadWindow(s.window, s.now, ttl), e), s.now), s.now))
    case EditBy(id, text, username) =>
      if MayEdit(s.tables, id, text, username)
      then System(Edit(s.tables, id, text, username), EMPTY_WINDOW, s.now)
      else s
    case Load(found) =>
      if ReadWindow(s.window, s.now, ttl).Some? || found == [] then s
      else s.(window := Window(FromRows(Reverse(found)), s.now))
    case Cleanup => s.(window := SweepWindow(s.window, s.now, ttl))
    case Tick(d) => s.(now := s.now + d)
  }

  /**
   What is assumed of a run: saves succeed, each message is newer than those before it, and a load gets
   an answer of the query.
   */
  ghost predicate Enabled(s: System, step: Step) {
    match step
    case Broadcast(m, written) =>
      (match Effective(m, s.now)
       case None => true
       case Some(e) => MaySave(s.tables, e, written) && Newest(s.tables.rows, e))
    case Load(found) => IsNewest(s.tables.rows, HISTORY_LIMIT, found)
    case _ => true
  }

  ghost predicate Newest(rows: seq<Row>, m: Message) {
    forall r | r in rows :: r.timestamp < m.timestamp
  }

  function Initial(users: set<string>, now: Time): System {
    System(Tables(users, []), EMPTY_WINDOW, now)
  }

  function Exec(s: System, steps: seq<Step>, ttl: Duration): System {
    if steps == [] then s else Next(Exec(s, steps[..|steps| - 1], ttl), steps[|steps| - 1], ttl)
  }

  ghost predicate IsRun(s: System, steps: seq<Step>, ttl: Duration) {
    steps != [] ==>
      IsRun(s, steps[..|steps| - 1], ttl) && Enabled(Exec(s, steps[..|steps| - 1], ttl), steps[|steps| - 1])
  }

  // ---------- the cache is a window on the end of the table ----------

  predicate SameContent(m: Message, r: Row) {
    m.username == r.username && m.text == r.content && m.timestamp == r.timestamp && m.edited == r.edited
  }

  /** ms is the last |ms| rows of the table, at most 100 of them. */
  ghost predicate Shows(ms: seq<Message>, rows: seq<Row>) {
    && |ms| <= CACHE_LIMIT && |ms| <= |rows|
    && forall i | 0 <= i < |ms| :: SameContent(ms[i], rows[|rows| - |ms| + i])
  }

  ghost predicate Invariant(s: System) {
    StrictlyOrdered(s.tables.rows) && Numbered(s.tables.rows) && Shows(s.window.messages, s.tables.rows)
  }

  /** A message read back from the table carries the flag the table has; a new one is unedited. */
  ghost predicate Unedited(step: Step) {
    step.Broadcast? ==> !step.message.edited
  }

  /** Whatever shows the end of the table still does when its oldest messages are dropped. */
  lemma SuffixShows(ms: seq<Message>, rows: seq<Row>, drop: nat)
    requires drop <= |ms| <= |rows| && |ms| - drop <= CACHE_LIMIT
    requires forall i | 0 <= i < |ms| :: SameContent(ms[i], rows[|rows| - |ms| + i])
    ensures Shows(ms[drop..], rows)
  {
    var cut := ms[drop..];
    forall i | 0 <= i < |cut| ensures SameContent(cut[i], rows[|rows| - |cut| + i]) {
      assert cut[i] == ms[drop + i];
    }
  }

  lemma ShowsOneMore(ms: seq<Message>, rows: seq<Row>, m: Message, r: Row)
    requires Shows(ms, rows) && SameContent(m, r)
    ensures Shows([m], rows + [r]) && Shows(LastN(ms + [m], CACHE_LIMIT), rows + [r])
  {
    var long, rows' := ms + [m], rows + [r];
    forall i | 0 <= i < |long| ensures SameContent(long[i], rows'[|rows'| - |long| + i]) {
      if i < |ms| {
        assert long[i] == ms[i] && rows'[|rows'| - |long| + i] == rows[|rows| - |ms| + i];
      }
    }
    SuffixShows(long, rows', if |long| <= CACHE_LIMIT then 0 else |long| - CACHE_LIMIT);
    assert long[0..] == long;
  }

  lemma OrderedOneMore(rows: seq<Row>, r: Row)
    requires StrictlyOrdered(rows) && forall x | x in rows :: x.timestamp < r.timestamp
    ensures StrictlyOrdered(rows + [r])
  {
    assert forall i | 0 <= i < |rows| :: rows[i] in rows;
  }

  lemma TableExtended(t: Tables, e: Message)
    requires StrictlyOrdered(t.rows) && Numbered(t.rows) && Newest(t.rows, e) && MaySave(t, e, true)
    ensures StrictlyOrdered(Insert(t, e, true).rows) && Numbered(Insert(t, e, true).rows)
  {
    OrderedOneMore(t.rows, Row(|t.rows| + 1, e.username, e.text, e.timestamp, false));
  }

  lemma CacheExtended(ms: seq<Message>, t: Tables, e: Message)
    requires Shows(ms, t.rows) && MaySave(t, e, true) && !e.edited
    ensures Shows(Updated(Some(ms), e), Insert(t, e, true).rows) && Shows(Updated(None, e), Insert(t, e, true).rows)
  {
    ShowsOneMore(ms, t.rows, e, Row(|t.rows| + 1, e.username, e.text, e.timestamp, false));
  }

  lemma BroadcastKeeps(s: System, m: Message, written: bool, ttl: Duration)
    requires Invariant(s) && Enabled(s, Broadcast(m, written)) && !m.edited
    ensures Invariant(Next(s, Broadcast(m, written), ttl))
  {
    if Effective(m, s.now).Some? {
      TableExtended(s.tables, WithDefaults(m, s.now));
      CacheExtended(s.window.messages, s.tables, WithDefaults(m, s.now));
    }
  }

  lemma LoadShowsTheTail(rows: seq<Row>, found: seq<Row>)
    requires StrictlyOrdered(rows) && IsNewest(rows, HISTORY_LIMIT, found)
    ensures Shows(FromRows(Reverse(found)), rows)
  {
    NewestIsTheTail(rows, HISTORY_LIMIT, found);
  }

  lemma EditKeepsOrder(t: Tables, id: nat, newText: string, username: string)
    requires StrictlyOrdered(t.rows) && Numbered(t.rows) && MayEdit(t, id, newText, username)
    ensures StrictlyOrdered(Edit(t, id, newText, username).rows) && Numbered(Edit(t, id, newText, username).rows)
  {
    var rows' := Edit(t, id, newText, username).rows;
    assert forall i | 0 <= i < |rows'| :: rows'[i].timestamp == t.rows[i].timestamp && rows'[i].id == t.rows[i].id;
  }

  lemma StepKeeps(s: System, step: Step, ttl: Duration)
    requires Invariant(s) && Enabled(s, step) && Unedited(step)
    ensures Invariant(Next(s, step, ttl))
  {
    match step
    case Broadcast(m, written) => BroadcastKeeps(s, m, written, ttl);
    case EditBy(id, text, username) =>
      if MayEdit(s.tables, id, text, username) {
        EditKeepsOrder(s.tables, id, text, username);
      }
    case Load(found) => LoadShowsTheTail(s.tables.rows, found);
    case _ =>
  }

  lemma {:induction false} RunKeeps(s: System, steps: seq<Step>, ttl: Duration)
    requires Invariant(s) && IsRun(s, steps, ttl) && forall st | st in steps :: Unedited(st)
    ensures Invariant(Exec(s, steps, ttl))
  {
    if steps != [] {
      var before := steps[..|steps| - 1];
      forall st | st in before ensures st in steps {
      }
      assert steps[|steps| - 1] in steps;
      RunKeeps(s, before, ttl);
      StepKeeps(Exec(s, before, ttl), steps[|steps| - 1], ttl);
    }
  }

  /** A miss, or exactly the last k <= 100 rows for some k > 0. */
  ghost predicate MissOrTail(read: Option<seq<Message>>, rows: seq<Row>) {
    read.None? || (read.value != [] && Shows(read.value, rows))
  }

  /**
   Serial refinement: after any run, at that moment or any later one, reading the cache either misses
   or yields exactly the last k <= 100 rows of the table, with the texts and flags they have now.
   */
  lemma {:induction false} CacheRefinesTable(users: set<string>, start: Time, steps: seq<Step>, ttl: Duration, later: Time)
    requires IsRun(Initial(users, start), steps, ttl) && forall st | st in steps :: Unedited(st)
    ensures var s := Exec(Initial(users, start), steps, ttl);
            Invariant(s) && MissOrTail(ReadWindow(s.window, later, ttl), s.tables.rows)
  {
    RunKeeps(Initial(users, start), steps, ttl);
  }

  // ---------- exactly when a broadcast keeps the refinement ----------

  /**
   A broadcast that is newer than every row leaves the cache showing the end of the table exactly when
   its insertion goes through: the author is registered, the text is well-formed UTF-8 without U+0000 and
   the database does not fail. Otherwise the message is cached but never saved.
   */
  lemma BroadcastRefinesIff(s: System, m: Message, written: bool, ttl: Duration)
    requires Invariant(s) && m.text != "" && !m.edited && Newest(s.tables.rows, WithDefaults(m, s.now))
    ensures Invariant(Next(s, Broadcast(m, written), ttl)) <==> MaySave(s.tables, WithDefaults(m, s.now), written)
  {
    var e := WithDefaults(m, s.now);
    if MaySave(s.tables, e, written) {
      BroadcastKeeps(s, m, written, ttl);
    } else {
      var s' := Next(s, Broadcast(m, written), ttl);
      var ms, rows := s'.window.messages, s'.tables.rows;
      assert rows == s.tables.rows && ms[|ms| - 1] == e;
    }
  }

  /** A complete message that the table cannot hold is cached all the same. */
  lemma CachedButNotSaved(s: System, m: Message, ttl: Duration)
    requires m.text != "" && m.username != "" && m.timestamp != ZERO_TIME && !Storable(m.text) && ttl >= 0
    ensures Next(s, Broadcast(m, true), ttl).tables == s.tables
    ensures var read := ReadWindow(Next(s, Broadcast(m, true), ttl).window, s.now, ttl); read.Some? && m in read.value
  {
    var ms := Next(s, Broadcast(m, true), ttl).window.messages;
    assert ms[|ms| - 1] == m;
  }

  /**
   What a registered client sends is saved, by a database in order, exactly if its text has no U+0000 and
   the limit does not cut it inside a character.
   */
  lemma ChatIsSavedIff(s: System, j: Wire.Json, username: string)
    requires username in s.tables.users && WellFormed(ReadPumps.ChatText(j))
    requires ReadPumps.Meaning(j, username, s.now).ChatMessage?
    ensures var m, t := ReadPumps.Meaning(j, username, s.now).message, TrimSpace(ReadPumps.ChatText(j));
            MaySave(s.tables, m, true) <==>
            '\0' !in m.text && (|t| <= ReadPumps.TEXT_LIMIT || !Continues(t[ReadPumps.TEXT_LIMIT]))
  {
    ReadPumps.TextIsWellFormedIff(j, username, s.now);
  }

  /** A frame that any client can send, with U+0000 in its text. */
  const NUL_FRAME: Wire.Json := Wire.JString(['a', '\0', 'b'])

  /** It is read as a chat message of the client, which is broadcast and cached, and no row is written. */
  lemma NulIsCachedButNotSaved(s: System, username: string, ttl: Duration)
    requires username != "" && s.now != ZERO_TIME && ttl >= 0
    ensures ReadPumps.Meaning(NUL_FRAME, username, s.now).ChatMessage?
    ensures var m := ReadPumps.Meaning(NUL_FRAME, username, s.now).message;
            && m.text == ['a', '\0', 'b'] && m.username == username
            && Next(s, Broadcast(m, true), ttl).tables == s.tables
            && var read := ReadWindow(Next(s, Broadcast(m, true), ttl).window, s.now, ttl); read.Some? && m in read.value
  {
    var text := ['a', '\0', 'b'];
    assert text[1] == '\0' && !Storable(text);
    ReadPumps.TrimmedAlready(text);
    assert ReadPumps.ChatText(NUL_FRAME) == text;
    CachedButNotSaved(s, Message(0, username, text, s.now, false), ttl);
  }

  /** So is the frame of 4000 broken bytes, whose text the limit cuts inside a character. */
  lemma BrokenIsCachedButNotSaved(s: System, username: string, ttl: Duration)
    requires username != "" && s.now != ZERO_TIME && ttl >= 0
    ensures ReadPumps.Meaning(ReadPumps.BrokenFrame(), username, s.now).ChatMessage?
    ensures var m := ReadPumps.Meaning(ReadPumps.BrokenFrame(), username, s.now).message;
            && m.username == username
            && Next(s, Broadcast(m, true), ttl).tables == s.tables
            && var read := ReadWindow(Next(s, Broadcast(m, true), ttl).window, s.now, ttl); read.Some? && m in read.value
  {
    BrokenIsSent(ReadPumps.BrokenFrame(), username, s, ttl);
  }

  lemma BrokenIsSent(j: Wire.Json, username: string, s: System, ttl: Duration)
    requires j == ReadPumps.BrokenFrame() && username != "" && s.now != ZERO_TIME && ttl >= 0
    ensures ReadPumps.Meaning(j, username, s.now).ChatMessage?
    ensures var m := ReadPumps.Meaning(j, username, s.now).message;
            && m.username == username
            && Next(s, Broadcast(m, true), ttl).tables == s.tables
            && var read := ReadWindow(Next(s, Broadcast(m, true), ttl).window, s.now, ttl); read.Some? && m in read.value
  {
    ReadPumps.BrokenFrameIsCut(username, s.now);
    ReadPumps.ChatIsTheClients(j, username, s.now);
    CachedButNotSaved(s, ReadPumps.Meaning(j, username, s.now).message, ttl);
  }

  /** The cache shows as much of the table as it ever could. */
  predicate Complete(s: System) {
    |s.window.messages| == if |s.tables.rows| < CACHE_LIMIT then |s.tables.rows| else CACHE_LIMIT
  }

  /**
   After a broadcast a hit gives the whole recent history only when the cache was warm and whole
   before it (or one short of full), or the table was empty. A broadcast that finds the cache cold
   leaves it holding one message, whatever the table holds, and a client that connects is then
   offered that one message.
   */
  lemma BroadcastCompleteIff(s: System, m: Message, written: bool, ttl: Duration)
    requires Invariant(s) && Enabled(s, Broadcast(m, written)) && m.text != ""
    ensures Complete(Next(s, Broadcast(m, written), ttl)) <==>
            (|s.tables.rows| == 0
             || (ReadWindow(s.window, s.now, ttl).Some?
                 && (|s.window.messages| == |s.tables.rows| || |s.window.messages| >= CACHE_LIMIT - 1)))
  {
  }

  lemma ColdBroadcastHidesHistory(s: System, m: Message, written: bool, ttl: Duration, found: seq<Row>)
    requires m.text != "" && ttl >= 0
    requires ReadWindow(s.window, s.now, ttl).None?
    ensures var after := Next(s, Broadcast(m, written), ttl);
            && ReadWindow(after.window, s.now, ttl) == Some([WithDefaults(m, s.now)])
            && Next(after, Load(found), ttl) == after
  {
  }

  // ---------- edits ----------

  datatype EditRecord = EditRecord(id: nat, newText: string)

  /** The messages a run saved, in order. */
  function Saved(s: System, steps: seq<Step>, ttl: Duration): seq<Message> {
    if steps == [] then []
    else
      var before, last := steps[..|steps| - 1], steps[|steps| - 1];
      Saved(s, before, ttl) + SavedBy(Exec(s, before, ttl).now, s.tables, last)
  }

  /** Whether a message is saved depends only on the registered users and the message itself. */
  function SavedBy(now: Time, t: Tables, step: Step): seq<Message> {
    if step.Broadcast? && Effective(step.message, now).Some?
       && MaySave(t, WithDefaults(step.message, now), step.written)
    then [WithDefaults(step.message, now)]
    else []
  }

  /** The requests that named a message saved before them, made by the author of that message. */
  function AuthorsEdits(s: System, steps: seq<Step>, ttl: Duration): seq<EditRecord> {
    if steps == [] then []
    else
      var before, last := steps[..|steps| - 1], steps[|steps| - 1];
      AuthorsEdits(s, before, ttl) + HonouredBy(Saved(s, before, ttl), last)
  }

  function HonouredBy(saved: seq<Message>, step: Step): seq<EditRecord> {
    if step.EditBy? && 0 < step.id <= |saved| && saved[step.id - 1].username == step.username && Storable(step.newText)
    then [EditRecord(step.id, step.newText)]
    else []
  }

  /** The text of the last of these edits that concerns the message, or its original text. */
  function TextAfter(edits: seq<EditRecord>, id: nat, original: string): string {
    if edits == [] then original
    else if edits[|edits| - 1].id == id then edits[|edits| - 1].newText
    else TextAfter(edits[..|edits| - 1], id, original)
  }

  predicate WasEdited(edits: seq<EditRecord>, id: nat) {
    exists i | 0 <= i < |edits| :: edits[i].id == id
  }

  function RowAfter(saved: seq<Message>, edits: seq<EditRecord>, i: nat): Row
    requires i < |saved|
  {
    Row(i + 1, saved[i].username, TextAfter(edits, i + 1, saved[i].text), saved[i].timestamp, WasEdited(edits, i + 1))
  }

  /** What one more edit does to a row. */
  lemma RowAfterEdit(saved: seq<Message>, edits: seq<EditRecord>, e: EditRecord, i: nat)
    requires i < |saved|
    ensures RowAfter(saved, edits + [e], i)
         == if e.id == i + 1 then RowAfter(saved, edits, i).(content := e.newText, edited := true)
            else RowAfter(saved, edits, i)
  {
    var more := edits + [e];
    assert more[..|more| - 1] == edits && more[|edits|] == e;
    if e.id != i + 1 && WasEdited(edits, i + 1) {
      var k :| 0 <= k < |edits| && edits[k].id == i + 1;
      assert more[k].id == i + 1;
    }
  }

  /** A message that was not saved yet was not edited either. */
  lemma {:induction false} EditsNameSaved(s: System, steps: seq<Step>, ttl: Duration)
    ensures forall e | e in AuthorsEdits(s, steps, ttl) :: 0 < e.id <= |Saved(s, steps, ttl)|
  {
    if steps != [] {
      EditsNameSaved(s, steps[..|steps| - 1], ttl);
    }
  }

  lemma {:induction false} UntouchedText(edits: seq<EditRecord>, id: nat, original: string)
    requires forall e | e in edits :: e.id != id
    ensures TextAfter(edits, id, original) == original && !WasEdited(edits, id)
  {
    if edits != [] {
      assert edits[|edits| - 1] in edits;
      UntouchedText(edits[..|edits| - 1], id, original);
    }
  }

  /** The table is what the saved messages and the authors' edits make of it. */
  ghost predicate TableIs(t: Tables, saved: seq<Message>, edits: seq<EditRecord>) {
    |t.rows| == |saved| && forall i | 0 <= i < |saved| :: t.rows[i] == RowAfter(saved, edits, i)
  }

  lemma SavingExtends(t: Tables, saved: seq<Message>, edits: seq<EditRecord>, e: Message)
    requires TableIs(t, saved, edits) && MaySave(t, e, true)
    requires forall x | x in edits :: 0 < x.id <= |saved|
    ensures TableIs(Insert(t, e, true), saved + [e], edits)
  {
    UntouchedText(edits, |saved| + 1, e.text);
    assert forall i | 0 <= i < |saved| :: (saved + [e])[i] == saved[i];
  }

  lemma EditingUpdates(t: Tables, saved: seq<Message>, edits: seq<EditRecord>, id: nat, newText: string, username: string)
    requires TableIs(t, saved, edits)
    ensures MayEdit(t, id, newText, username) <==>
              (0 < id <= |saved| && saved[id - 1].username == username && Storable(newText))
    ensures MayEdit(t, id, newText, username) ==>
              TableIs(Edit(t, id, newText, username), saved, edits + [EditRecord(id, newText)])
  {
    forall i | 0 <= i < |saved|
      ensures RowAfter(saved, edits + [EditRecord(id, newText)], i)
           == if id == i + 1 then RowAfter(saved, edits, i).(content := newText, edited := true)
              else RowAfter(saved, edits, i)
    {
      RowAfterEdit(saved, edits, EditRecord(id, newText), i);
    }
  }

  lemma StepKeepsTable(s: System, step: Step, saved: seq<Message>, edits: seq<EditRecord>, ttl: Duration)
    requires TableIs(s.tables, saved, edits) && forall x | x in edits :: 0 < x.id <= |saved|
    ensures TableIs(Next(s, step, ttl).tables, saved + SavedBy(s.now, s.tables, step), edits + HonouredBy(saved, step))
    ensures Next(s, step, ttl).tables.users == s.tables.users
  {
    assert saved + [] == saved && edits + [] == edits;
    match step
    case Broadcast(m, written) =>
      if MaySave(s.tables, WithDefaults(m, s.now), written) {
        SavingExtends(s.tables, saved, edits, WithDefaults(m, s.now));
      }
    case EditBy(id, text, username) => EditingUpdates(s.tables, saved, edits, id, text, username);
    case _ =>
  }

  /**
   Edit integrity over every sequence of steps: the table is determined by what was saved and by
   the authors' own edits. Authors and times never change, each text is the original or that of the
   author's last edit, and the edited flag is up exactly when there was one.
   */
  lemma {:induction false} TableIsSavedAndEdited(users: set<string>, start: Time, steps: seq<Step>, ttl: Duration)
    ensures var s := Initial(users, start);
            Exec(s, steps, ttl).tables.users == users
            && TableIs(Exec(s, steps, ttl).tables, Saved(s, steps, ttl), AuthorsEdits(s, steps, ttl))
  {
    if steps != [] {
      var s, before, last := Initial(users, start), steps[..|steps| - 1], steps[|steps| - 1];
      TableIsSavedAndEdited(users, start, before, ttl);
      EditsNameSaved(s, before, ttl);
      StepKeepsTable(Exec(s, before, ttl), last, Saved(s, before, ttl), AuthorsEdits(s, before, ttl), ttl);
    }
  }

  /** The message sent to every client after an edit, if it was honoured. */
  function Rebroadcast(s: System, id: nat, newText: string, username: string): Option<Message> {
    if MayEdit(s.tables, id, newText, username) then Some(Message(id, username, newText, s.now, true)) else None
  }

  /**
   What is sent after an edit is the row as it is stored by then, except for the time, which is the
   time of the edit.
   */
  lemma RebroadcastMatchesRow(s: System, id: nat, newText: string, username: string, ttl: Duration)
    requires Numbered(s.tables.rows)
    ensures var s' := Next(s, EditBy(id, newText, username), ttl);
            match Rebroadcast(s, id, newText, username)
            case None => s' == s
            case Some(m) => 0 < id <= |s'.tables.rows| && m == FromRow(s'.tables.rows[id - 1]).(timestamp := s.now)
                            && ReadWindow(s'.window, s.now, ttl).None?
  {
  }
}
