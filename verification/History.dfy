/** What a newly connected client is shown: loading, filtering, defaulting and sorting by time. */
module History {
  import opened Types
  import opened MessageRepo

  const HISTORY_LIMIT: nat := 100

  function FromRow(r: Row): Message {
    Message(r.id, r.username, r.content, r.timestamp, r.edited)
  }

  function FromRows(rows: seq<Row>): (ms: seq<Message>)
    ensures |ms| == |rows| && forall i | 0 <= i < |rows| :: ms[i] == FromRow(rows[i])
  {
    seq(|rows|, i requires 0 <= i < |rows| => FromRow(rows[i]))
  }

  /** Texts that are never shown. */
  predicate Shown(m: Message) {
    m.text != "" && m.text != "null" && m.text != "undefined"
  }

  function WithDefaults(m: Message, now: Time): Message {
    var named := if m.username == "" then m.(username := "system") else m;
    if named.timestamp == ZERO_TIME then named.(timestamp := now) else named
  }

  function Presentable(ms: seq<Message>, now: Time): seq<Message> {
    if ms == [] then []
    else
      var last := ms[|ms| - 1];
      Presentable(ms[..|ms| - 1], now) + (if Shown(last) then [WithDefaults(last, now)] else [])
  }

  ghost predicate Ascending(ms: seq<Message>) {
    forall i, j | 0 <= i < j < |ms| :: ms[i].timestamp <= ms[j].timestamp
  }

  /** One message is hidden for its text alone. Otherwise it is shown with its number, text and flag as they are. */
  lemma PresentableOfOne(m: Message, now: Time)
    ensures Presentable([m], now)
         == if m.text in {"", "null", "undefined"} then []
            else [Message(m.id, if m.username == "" then "system" else m.username, m.text,
                          if m.timestamp == 0 then now else m.timestamp, m.edited)]
  {
    assert [m][..0] == [];
  }

  /** The messages are looked at one by one and keep their order. */
  lemma {:induction false} PresentableOfSum(a: seq<Message>, b: seq<Message>, now: Time)
    ensures Presentable(a + b, now) == Presentable(a, now) + Presentable(b, now)
    decreases |b|
  {
    if b == [] {
      assert a + b == a && Presentable(a, now) + [] == Presentable(a, now);
    } else {
      var before, last := b[..|b| - 1], b[|b| - 1];
      PresentableOfSum(a, before, now);
      assert (a + b)[..|a + b| - 1] == a + before;
    }
  }

  /** What a reader is to see of a message. */
  predicate SeenAs(m: Message, p: Message, now: Time) {
    && m.text !in {"", "null", "undefined"}
    && p.id == m.id && p.text == m.text && p.edited == m.edited
    && p.username == (if m.username == "" then "system" else m.username)
    && p.timestamp == (if m.timestamp == 0 then now else m.timestamp)
  }

  lemma SeenIsShown(m: Message, p: Message, now: Time)
    ensures SeenAs(m, p, now) <==> Shown(m) && p == WithDefaults(m, now)
  {
  }

  /** What is presented is exactly what may be shown, with missing names and times filled in. */
  lemma {:induction false} PresentableIsExact(ms: seq<Message>, now: Time)
    ensures forall p :: p in Presentable(ms, now) <==> exists m | m in ms :: SeenAs(m, p, now)
  {
    if ms != [] {
      var before, last := ms[..|ms| - 1], ms[|ms| - 1];
      PresentableIsExact(before, now);
      assert ms == before + [last];
      forall p ensures p in Presentable(ms, now) <==> exists m | m in ms :: SeenAs(m, p, now) {
        SeenIsShown(last, p, now);
        assert last in ms && forall m :: m in ms <==> m in before || m == last;
      }
    }
  }

  lemma {:induction false} PresentableIsShort(ms: seq<Message>, now: Time)
    ensures |Presentable(ms, now)| <= |ms|
  {
    if ms != [] {
      PresentableIsShort(ms[..|ms| - 1], now);
    }
  }

  /** Where nothing is to be hidden and nothing is missing, everything is shown as it is. */
  lemma {:induction false} CompleteIsUnchanged(ms: seq<Message>, now: Time)
    requires forall m | m in ms :: m.text !in {"", "null", "undefined"} && m.username != "" && m.timestamp != 0
    ensures Presentable(ms, now) == ms
  {
    if ms != [] {
      var before, last := ms[..|ms| - 1], ms[|ms| - 1];
      CompleteIsUnchanged(before, now);
      assert ms == before + [last] && last in ms;
    }
  }

  lemma AscendingPrefix(ms: seq<Message>)
    requires ms != [] && Ascending(ms)
    ensures var before, last := ms[..|ms| - 1], ms[|ms| - 1];
            Ascending(before) && (before != [] ==> before[|before| - 1].timestamp <= last.timestamp)
  {
    assert forall i | 0 <= i < |ms| - 1 :: ms[..|ms| - 1][i] == ms[i];
  }

  lemma AscendingThenOne(ms: seq<Message>, m: Message)
    requires Ascending(ms) && forall p | p in ms :: p.timestamp <= m.timestamp
    ensures Ascending(ms + [m]) && forall p | p in ms + [m] :: p.timestamp <= m.timestamp
  {
    assert forall i | 0 <= i < |ms| :: ms[i] in ms;
  }

  /** No presented message is newer than the last of the source. */
  lemma {:induction false} PresentedTimes(ms: seq<Message>, now: Time)
    requires Ascending(ms) && forall m | m in ms :: m.timestamp != ZERO_TIME
    ensures Ascending(Presentable(ms, now))
    ensures forall p | p in Presentable(ms, now) :: ms != [] && p.timestamp <= ms[|ms| - 1].timestamp
  {
    if ms != [] {
      var before, last := ms[..|ms| - 1], ms[|ms| - 1];
      AscendingPrefix(ms);
      assert ms == before + [last] && last in ms;
      PresentedTimes(before, now);
      OneMorePresented(Presentable(before, now), last, now);
    }
  }

  lemma OneMorePresented(shown: seq<Message>, last: Message, now: Time)
    requires Ascending(shown) && last.timestamp != ZERO_TIME && forall p | p in shown :: p.timestamp <= last.timestamp
    ensures var more := shown + (if Shown(last) then [WithDefaults(last, now)] else []);
            Ascending(more) && forall p | p in more :: p.timestamp <= last.timestamp
  {
    AscendingThenOne(shown, WithDefaults(last, now));
    assert shown + [] == shown;
  }

  /** Filtering keeps a list in time order when no time has to be made up. */
  lemma {:induction false} PresentableIsAscending(ms: seq<Message>, now: Time)
    requires Ascending(ms) && forall m | m in ms :: m.timestamp != ZERO_TIME
    ensures Ascending(Presentable(ms, now))
    ensures forall p | p in Presentable(ms, now) ::
              p.text !in {"", "null", "undefined"} && p.username != "" && p.timestamp != ZERO_TIME
    ensures |Presentable(ms, now)| <= |ms|
  {
    PresentedTimes(ms, now);
    PresentableIsExact(ms, now);
    PresentableIsShort(ms, now);
  }

  method Filter(messages: seq<Message>, now: Time) returns (valid: seq<Message>)
    ensures valid == Presentable(messages, now)
  {
    valid := [];
    for i := 0 to |messages|
      invariant valid == Presentable(messages[..i], now)
    {
      assert messages[..i + 1][..i] == messages[..i];
      var msg := messages[i];
      if msg.text != "" && msg.text != "null" && msg.text != "undefined" {
        if msg.username == "" {
          msg := msg.(username := "system");
        }
        if msg.timestamp == ZERO_TIME {
          msg := msg.(timestamp := now);
        }
        valid := valid + [msg];
      }
    }
    assert messages[..|messages|] == messages;
  }

  method Swap<T>(a: array<T>, i: nat, j: nat)
    requires i < j < a.Length
    modifies a
    ensures a[i] == old(a[j]) && a[j] == old(a[i])
    ensures forall k | 0 <= k < a.Length && k != i && k != j :: a[k] == old(a[k])
    ensures multiset(a[..]) == multiset(old(a[..]))
  {
    a[i], a[j] := a[j], a[i];
  }

  /**
   The exchange sort of the original: every later element that is older than the i-th is swapped
   with it. The result is the messages in time order; a list already in time order is untouched.
   */
  method SortByTime(a: array<Message>)
    modifies a
    ensures Ascending(a[..])
    ensures multiset(a[..]) == multiset(old(a[..]))
    ensures Ascending(old(a[..])) ==> a[..] == old(a[..])
  {
    var i := 0;
    while i < a.Length - 1
      invariant 0 <= i <= a.Length
      invariant forall p, q | 0 <= p < q < a.Length && p < i :: a[p].timestamp <= a[q].timestamp
      invariant multiset(a[..]) == multiset(old(a[..]))
      invariant Ascending(old(a[..])) ==> a[..] == old(a[..])
    {
      var j := i + 1;
      while j < a.Length
        invariant i < j <= a.Length
        invariant forall p, q | 0 <= p < q < a.Length && p < i :: a[p].timestamp <= a[q].timestamp
        invariant forall q | i < q < j :: a[i].timestamp <= a[q].timestamp
        invariant multiset(a[..]) == multiset(old(a[..]))
        invariant Ascending(old(a[..])) ==> a[..] == old(a[..])
      {
        if a[i].timestamp > a[j].timestamp {
          Swap(a, i, j);
        }
        j := j + 1;
      }
      i := i + 1;
    }
  }
}
