/** The message table: saving, editing by the author, and the newest rows in reading order. */
module MessageRepo {
  import opened Types
  import opened Utf8

  datatype Row = Row(id: nat, username: string, content: string, timestamp: Time, edited: bool)

  /** The registered usernames and the stored messages, oldest insertion first, numbered from 1. */
  datatype Tables = Tables(users: set<string>, rows: seq<Row>)

  datatype Error = NoSuchUser | NoSuchMessage | NotTheAuthor | NotWritten

  datatype Result<+T> = Ok(value: T) | Err(error: Error)

  ghost predicate Numbered(rows: seq<Row>) {
    forall i | 0 <= i < |rows| :: rows[i].id == i + 1
  }

  /** Whether an insertion goes through; written is false when the database fails for reasons of its own. */
  predicate MaySave(t: Tables, m: Message, written: bool) {
    m.username in t.users && Storable(m.text) && written
  }

  function Insert(t: Tables, m: Message, written: bool): Tables {
    if !MaySave(t, m, written) then t
    else t.(rows := t.rows + [Row(|t.rows| + 1, m.username, m.text, m.timestamp, false)])
  }

  /** Whether an edit request is honoured: the row exists, belongs to the requester and can hold the text. */
  predicate MayEdit(t: Tables, id: nat, newText: string, username: string) {
    0 < id <= |t.rows| && t.rows[id - 1].username == username && Storable(newText)
  }

  function Edit(t: Tables, id: nat, newText: string, username: string): Tables {
    if MayEdit(t, id, newText, username) then t.(rows := t.rows[id - 1 := t.rows[id - 1].(content := newText, edited := true)])
    else t
  }

  // ---------- the newest rows ----------

  ghost predicate NewestFirst(rows: seq<Row>) {
    forall i, j | 0 <= i < j < |rows| :: rows[i].timestamp >= rows[j].timestamp
  }

  ghost predicate OldestFirst(rows: seq<Row>) {
    forall i, j | 0 <= i < j < |rows| :: rows[i].timestamp <= rows[j].timestamp
  }

  ghost predicate StrictlyOrdered(rows: seq<Row>) {
    forall i, j | 0 <= i < j < |rows| :: rows[i].timestamp < rows[j].timestamp
  }

  /**
   found may be the answer of the query "order by timestamp descending, limit": the order of rows
   with equal timestamps is left to the database.
   */
  ghost predicate IsNewest(rows: seq<Row>, limit: nat, found: seq<Row>) {
    && NewestFirst(found)
    && (forall i, j | 0 <= i < j < |found| :: found[i].id != found[j].id)
    && (forall f | f in found :: f in rows)
    && |found| == (if |rows| < limit then |rows| else limit)
    && (forall r, f | r in rows && r !in found && f in found :: r.timestamp <= f.timestamp)
  }

  function Reverse<T>(s: seq<T>): (r: seq<T>)
    ensures |r| == |s| && forall i | 0 <= i < |s| :: r[i] == s[|s| - 1 - i]
  {
    seq(|s|, i requires 0 <= i < |s| => s[|s| - 1 - i])
  }

  lemma ReversedIsOldestFirst(rows: seq<Row>, limit: nat, found: seq<Row>)
    requires IsNewest(rows, limit, found)
    ensures OldestFirst(Reverse(found)) && multiset(Reverse(found)) == multiset(found)
  {
    ReverseKeepsElements(found);
  }

  lemma {:induction false} ReverseKeepsElements<T>(s: seq<T>)
    ensures multiset(Reverse(s)) == multiset(s)
  {
    if s == [] {
      assert Reverse(s) == s;
    } else {
      ReverseKeepsElements(s[1..]);
      assert Reverse(s) == Reverse(s[1..]) + [s[0]];
      assert s == [s[0]] + s[1..];
    }
  }

  /** The newest row is the first of the answer. */
  lemma NewestComesFirst(rows: seq<Row>, limit: nat, found: seq<Row>)
    requires StrictlyOrdered(rows) && IsNewest(rows, limit, found) && rows != [] && limit > 0
    ensures found != [] && found[0] == rows[|rows| - 1]
  {
    var last := rows[|rows| - 1];
    assert found[0] in rows;
    var i :| 0 <= i < |rows| && rows[i] == found[0];
    if last in found {
      var k :| 0 <= k < |found| && found[k] == last;
    }
  }

  lemma ConsElements(rest: seq<Row>, last: Row)
    ensures forall x :: x in rest + [last] <==> x in rest || x == last
    ensures forall x :: x in [last] + rest <==> x in rest || x == last
  {
  }

  lemma LastIsNewer(rest: seq<Row>, last: Row)
    requires StrictlyOrdered(rest + [last])
    ensures StrictlyOrdered(rest) && forall r | r in rest :: r.timestamp < last.timestamp
  {
    var rows := rest + [last];
    assert forall i | 0 <= i < |rest| :: rest[i] == rows[i];
    forall r | r in rest ensures r.timestamp < last.timestamp {
      var i :| 0 <= i < |rest| && rest[i] == r;
      assert rows[i].timestamp < rows[|rest|].timestamp;
    }
  }

  lemma TailIsOrdered(last: Row, tail: seq<Row>)
    requires NewestFirst([last] + tail)
    requires forall i, j | 0 <= i < j < |[last] + tail| :: ([last] + tail)[i].id != ([last] + tail)[j].id
    ensures NewestFirst(tail) && last !in tail
    ensures forall i, j | 0 <= i < j < |tail| :: tail[i].id != tail[j].id
  {
    var found := [last] + tail;
    assert found[0] == last && forall i | 0 <= i < |tail| :: tail[i] == found[i + 1];
  }

  /** Without that row, the rest of the answer is the answer for the rest of the table. */
  lemma RestIsNewest(rest: seq<Row>, last: Row, limit: nat, tail: seq<Row>)
    requires limit > 0 && StrictlyOrdered(rest + [last]) && IsNewest(rest + [last], limit, [last] + tail)
    ensures StrictlyOrdered(rest) && IsNewest(rest, limit - 1, tail)
  {
    LastIsNewer(rest, last);
    TailIsOrdered(last, tail);
    ConsElements(rest, last);
    ConsElements(tail, last);
  }

  /** Reversing moves the first element to the end; keeping n elements keeps n - 1 before the last. */
  lemma PeelLast<T>(s: seq<T>, x: T, t: seq<T>, n: nat)
    requires n > 0
    ensures Reverse([x] + t) == Reverse(t) + [x]
    ensures LastN(s + [x], n) == LastN(s, n - 1) + [x]
  {
  }

  /** When timestamps grow, the query has one answer: the last rows, the newest of them first. */
  lemma {:induction false} NewestIsTheTail(rows: seq<Row>, limit: nat, found: seq<Row>)
    requires StrictlyOrdered(rows) && IsNewest(rows, limit, found)
    ensures Reverse(found) == LastN(rows, limit)
    decreases |rows|
  {
    if rows == [] || limit == 0 {
      assert |found| == 0;
    } else {
      var n := |rows| - 1;
      NewestComesFirst(rows, limit, found);
      assert rows == rows[..n] + [rows[n]] && found == [rows[n]] + found[1..];
      RestIsNewest(rows[..n], rows[n], limit, found[1..]);
      NewestIsTheTail(rows[..n], limit - 1, found[1..]);
      PeelLast(rows[..n], rows[n], found[1..], limit);
    }
  }

  method ReverseInPlace<T>(a: array<T>)
    modifies a
    ensures a[..] == Reverse(old(a[..]))
  {
    var i, j := 0, a.Length - 1;
    while i < j
      invariant 0 <= i <= j + 1 && j == a.Length - 1 - i
      invariant forall k | 0 <= k < i || j < k < a.Length :: a[k] == old(a[a.Length - 1 - k])
      invariant forall k | i <= k <= j :: a[k] == old(a[k])
    {
      a[i], a[j] := a[j], a[i];
      i, j := i + 1, j - 1;
    }
  }

  // ---------- the repository ----------

  class MessageRepository {
    var users: set<string>
    var rows: seq<Row>

    ghost function State(): Tables
      reads this
    {
      Tables(users, rows)
    }

    constructor (users: set<string>)
      ensures State() == Tables(users, [])
    {
      this.users, this.rows := users, [];
    }

    method Create(message: Message, written: bool) returns (r: Result<nat>)
      modifies this`rows
      ensures State() == Insert(old(State()), message, written)
      ensures r.Ok? <==> MaySave(old(State()), message, written)
      ensures r.Ok? ==> r.value == |rows|
      ensures r == Err(NoSuchUser) <==> message.username !in users
    {
      if message.username !in users {
        return Err(NoSuchUser);
      }
      if !Storable(message.text) || !written {
        return Err(NotWritten);
      }
      var id := |rows| + 1;
      rows := rows + [Row(id, message.username, message.text, message.timestamp, false)];
      return Ok(id);
    }

    method UpdateMessage(id: nat, newText: string, username: string, written: bool) returns (r: Result<()>)
      modifies this`rows
      ensures State() == if written then Edit(old(State()), id, newText, username) else old(State())
      ensures r.Ok? <==> MayEdit(old(State()), id, newText, username) && written
      ensures r == Err(NoSuchMessage) <==> !(0 < id <= |old(rows)|)
    {
      if id == 0 || id > |rows| {
        return Err(NoSuchMessage);
      }
      if rows[id - 1].username != username {
        return Err(NotTheAuthor);
      }
      if !Storable(newText) || !written {
        return Err(NotWritten);
      }
      var updated := rows[id - 1].(content := newText, edited := true);
      rows := rows[id - 1 := updated];
      return Ok(());
    }

    /** found holds what the database answered; it is turned round in place. */
    method GetRecent(limit: nat, found: array<Row>)
      requires IsNewest(rows, limit, found[..])
      modifies found
      ensures found[..] == Reverse(old(found[..]))
      ensures OldestFirst(found[..])
      ensures StrictlyOrdered(rows) ==> found[..] == LastN(rows, limit)
    {
      ghost var was := found[..];
      ReverseInPlace(found);
      ReversedIsOldestFirst(rows, limit, was);
      if StrictlyOrdered(rows) {
        NewestIsTheTail(rows, limit, was);
      }
    }
  }
}
