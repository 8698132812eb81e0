/**
 N servers that publish what they accept under their own identifier and show what the others publish.
 Publications may be lost or delayed in any way the Pub/Sub channel allows, but a subscription never
 goes back.
 */
module Cluster {
  import opened Types
  import opened Clients
  import opened Wire

  /** One accepted payload on the channel: the n-th one its origin accepted. */
  datatype Publication = Publication(origin: nat, n: nat, envelope: Envelope)

  /** What a server broadcast to its clients: what it accepted, or what it received. */
  datatype Shown = Own(n: nat) | Received(k: nat, reaction: Reaction)

  /**
   What the server accepted, what it broadcast, the publications it has reacted to, and those waiting
   in its channel.
   */
  datatype Server = Server(accepted: seq<Payload>, shown: seq<Shown>, handled: seq<nat>, inbox: seq<nat>)

  datatype State = State(servers: seq<Server>, channel: seq<Publication>)

  datatype Setup = Setup(ids: seq<string>, wrapping: Wrapping)

  ghost predicate DistinctIDs(setup: Setup) {
    forall i, j | 0 <= i < j < |setup.ids| :: setup.ids[i] != setup.ids[j]
  }

  datatype Step =
    | Accept(i: nat, payload: Payload, published: bool)
    | Deliver(i: nat, k: nat)
    | Handle(i: nat)

  function Initial(setup: Setup): State {
    State(seq(|setup.ids|, _ => Server([], [], [], [])), [])
  }

  function Next(setup: Setup, s: State, step: Step): State
    requires step.i < |s.servers| == |setup.ids|
  {
    var me := s.servers[step.i];
    match step
    case Accept(i, p, published) =>
      var n := |me.accepted|;
      State(s.servers[i := me.(accepted := me.accepted + [p], shown := me.shown + [Own(n)])],
            s.channel + if published then [Publication(i, n, Envelope(setup.ids[i], Wrap(setup.wrapping, p)))] else [])
    case Deliver(i, k) => s.(servers := s.servers[i := me.(inbox := me.inbox + [k])])
    case Handle(i) =>
      if me.inbox == [] || me.inbox[0] >= |s.channel| then s
      else
        var k := me.inbox[0];
        var r := React(setup.ids[i], s.channel[k].envelope);
        s.(servers := s.servers[i := me.(inbox := me.inbox[1..], handled := me.handled + [k],
             shown := me.shown + if r.ShowMessage? || r.ShowEvent? then [Received(k, r)] else [])])
  }

  /** A subscription delivers publications in order, possibly skipping some. */
  ghost predicate Enabled(setup: Setup, s: State, step: Step) {
    && step.i < |s.servers| == |setup.ids|
    && match step
       case Deliver(i, k) => k < |s.channel| && AllBelow(s.servers[i].handled + s.servers[i].inbox, k)
       case _ => true
  }

  ghost predicate IsRun(setup: Setup, states: seq<State>, steps: seq<Step>) {
    && |states| == |steps| + 1 && states[0] == Initial(setup)
    && forall t | 0 <= t < |steps| ::
         Enabled(setup, states[t], steps[t]) && states[t + 1] == Next(setup, states[t], steps[t])
  }

  // ---------- views ----------

  /** The numbers of the accepted payloads a server broadcast, in the order it did. */
  function Owns(shown: seq<Shown>): seq<nat> {
    if shown == [] then []
    else Owns(shown[..|shown| - 1]) + if shown[|shown| - 1].Own? then [shown[|shown| - 1].n] else []
  }

  /** The publications a server broadcast, in the order it did. */
  function Receiveds(shown: seq<Shown>): seq<nat> {
    if shown == [] then []
    else Receiveds(shown[..|shown| - 1]) + if shown[|shown| - 1].Received? then [shown[|shown| - 1].k] else []
  }

  /** Whether the publication makes the server broadcast something. */
  predicate Speaks(setup: Setup, i: nat, channel: seq<Publication>, k: nat)
    requires i < |setup.ids|
  {
    k < |channel|
    && var r := React(setup.ids[i], channel[k].envelope); r.ShowMessage? || r.ShowEvent?
  }

  /** Those of the publications that do. */
  function Visible(setup: Setup, i: nat, channel: seq<Publication>, handled: seq<nat>): seq<nat>
    requires i < |setup.ids|
  {
    if handled == [] then []
    else
      var k := handled[|handled| - 1];
      Visible(setup, i, channel, handled[..|handled| - 1]) + if Speaks(setup, i, channel, k) then [k] else []
  }

  /** 0, 1, and so on, n numbers. */
  function Upto(n: nat): seq<nat> {
    seq(n, k => k)
  }

  ghost predicate AllBelow(numbers: seq<nat>, bound: nat) {
    forall a | 0 <= a < |numbers| :: numbers[a] < bound
  }

  ghost predicate Increasing(s: seq<nat>) {
    forall a, b | 0 <= a < b < |s| :: s[a] < s[b]
  }

  // ---------- the invariant ----------

  /** Every publication is one accepted payload of its origin, and no payload is published twice. */
  ghost predicate ChannelSound(setup: Setup, s: State) {
    && |s.servers| == |setup.ids|
    && (forall k | 0 <= k < |s.channel| ::
          var p := s.channel[k];
          && p.origin < |s.servers| && p.n < |s.servers[p.origin].accepted|
          && p.envelope == Envelope(setup.ids[p.origin], Wrap(setup.wrapping, s.servers[p.origin].accepted[p.n])))
    && (forall k, l | 0 <= k < l < |s.channel| && s.channel[k].origin == s.channel[l].origin :: s.channel[k].n < s.channel[l].n)
  }

  ghost predicate ServerSound(setup: Setup, s: State, i: nat)
    requires i < |s.servers| == |setup.ids|
  {
    var me := s.servers[i];
    && Increasing(me.handled + me.inbox)
    && AllBelow(me.handled + me.inbox, |s.channel|)
    && Owns(me.shown) == Upto(|me.accepted|)
    && Receiveds(me.shown) == Visible(setup, i, s.channel, me.handled)
    && (forall x | x in me.shown && x.Received? ::
          x.k < |s.channel| && x.reaction == React(setup.ids[i], s.channel[x.k].envelope))
  }

  ghost predicate Sound(setup: Setup, s: State) {
    ChannelSound(setup, s) && forall i | 0 <= i < |s.servers| :: ServerSound(setup, s, i)
  }

  lemma ShownGrows(shown: seq<Shown>, x: Shown)
    ensures Owns(shown + [x]) == Owns(shown) + if x.Own? then [x.n] else []
    ensures Receiveds(shown + [x]) == Receiveds(shown) + if x.Received? then [x.k] else []
  {
    assert (shown + [x])[..|shown|] == shown;
  }

  /** More publications do not change what the old ones make visible. */
  lemma {:induction false} VisibleIsStable(setup: Setup, i: nat, channel: seq<Publication>, more: seq<Publication>, handled: seq<nat>)
    requires i < |setup.ids| && AllBelow(handled, |channel|)
    ensures Visible(setup, i, channel + more, handled) == Visible(setup, i, channel, handled)
  {
    if handled != [] {
      VisibleIsStable(setup, i, channel, more, handled[..|handled| - 1]);
    }
  }

  lemma VisibleGrows(setup: Setup, i: nat, channel: seq<Publication>, handled: seq<nat>, k: nat)
    requires i < |setup.ids|
    ensures Visible(setup, i, channel, handled + [k])
         == Visible(setup, i, channel, handled) + if Speaks(setup, i, channel, k) then [k] else []
  {
    assert (handled + [k])[..|handled|] == handled;
  }

  lemma HandledBelow(setup: Setup, s: State, i: nat)
    requires i < |s.servers| == |setup.ids| && ServerSound(setup, s, i)
    ensures AllBelow(s.servers[i].handled, |s.channel|)
  {
    var me := s.servers[i];
    assert forall a | 0 <= a < |me.handled| :: me.handled[a] == (me.handled + me.inbox)[a];
  }

  lemma CountOneMore(n: nat)
    ensures Upto(n + 1) == Upto(n) + [n]
  {
  }

  lemma AcceptOwn(setup: Setup, s: State, step: Step)
    requires Sound(setup, s) && Enabled(setup, s, step) && step.Accept?
    ensures ServerSound(setup, Next(setup, s, step), step.i)
  {
    var me, s' := s.servers[step.i], Next(setup, s, step);
    var more := s'.channel[|s.channel|..];
    assert ServerSound(setup, s, step.i);
    assert s'.channel == s.channel + more;
    ShownGrows(me.shown, Own(|me.accepted|));
    HandledBelow(setup, s, step.i);
    VisibleIsStable(setup, step.i, s.channel, more, me.handled);
    CountOneMore(|me.accepted|);
  }

  lemma AcceptOther(setup: Setup, s: State, step: Step, j: nat)
    requires Sound(setup, s) && Enabled(setup, s, step) && step.Accept? && j < |s.servers| && j != step.i
    ensures ServerSound(setup, Next(setup, s, step), j)
  {
    var s' := Next(setup, s, step);
    var more := s'.channel[|s.channel|..];
    assert ServerSound(setup, s, j);
    assert s'.channel == s.channel + more && s'.servers[j] == s.servers[j];
    HandledBelow(setup, s, j);
    VisibleIsStable(setup, j, s.channel, more, s.servers[j].handled);
  }

  lemma DeliverSound(setup: Setup, s: State, i: nat, k: nat)
    requires Sound(setup, s) && Enabled(setup, s, Deliver(i, k))
    ensures ServerSound(setup, Next(setup, s, Deliver(i, k)), i)
  {
    var me := s.servers[i];
    assert ServerSound(setup, s, i);
    assert me.handled + (me.inbox + [k]) == (me.handled + me.inbox) + [k];
  }

  /** Reacting to one more publication extends the broadcasts by exactly what it makes visible. */
  lemma HandleShows(setup: Setup, s: State, i: nat, k: nat, handled: seq<nat>, shown: seq<Shown>)
    requires i < |setup.ids| && k < |s.channel| && Receiveds(shown) == Visible(setup, i, s.channel, handled)
    ensures var r := React(setup.ids[i], s.channel[k].envelope);
            var more := if r.ShowMessage? || r.ShowEvent? then [Received(k, r)] else [];
            Owns(shown + more) == Owns(shown)
            && Receiveds(shown + more) == Visible(setup, i, s.channel, handled + [k])
  {
    ShownGrows(shown, Received(k, React(setup.ids[i], s.channel[k].envelope)));
    assert shown + [] == shown;
    VisibleGrows(setup, i, s.channel, handled, k);
  }

  lemma MoveOne<T>(a: seq<T>, b: seq<T>)
    requires b != []
    ensures (a + [b[0]]) + b[1..] == a + b && (a + b)[|a|] == b[0]
  {
  }

  lemma HandleSound(setup: Setup, s: State, i: nat)
    requires Sound(setup, s) && i < |s.servers| == |setup.ids|
    ensures ServerSound(setup, Next(setup, s, Handle(i)), i)
  {
    var me := s.servers[i];
    assert ServerSound(setup, s, i);
    if me.inbox != [] {
      MoveOne(me.handled, me.inbox);
      HandleShows(setup, s, i, me.inbox[0], me.handled, me.shown);
    }
  }

  lemma ChannelStep(setup: Setup, s: State, step: Step)
    requires ChannelSound(setup, s) && Enabled(setup, s, step)
    ensures ChannelSound(setup, Next(setup, s, step))
  {
  }

  lemma StepSound(setup: Setup, s: State, step: Step)
    requires Sound(setup, s) && Enabled(setup, s, step)
    ensures Sound(setup, Next(setup, s, step))
  {
    ChannelStep(setup, s, step);
    var s' := Next(setup, s, step);
    forall j | 0 <= j < |s'.servers| ensures ServerSound(setup, s', j) {
      assert ServerSound(setup, s, j);
      match step {
        case Accept(i, _, _) =>
          if j == i { AcceptOwn(setup, s, step); } else { AcceptOther(setup, s, step, j); }
        case Deliver(i, k) => if j == i { DeliverSound(setup, s, i, k); }
        case Handle(i) => if j == i { HandleSound(setup, s, i); }
      }
    }
  }

  lemma {:induction false} RunSound(setup: Setup, states: seq<State>, steps: seq<Step>, t: nat)
    requires IsRun(setup, states, steps) && t < |states|
    ensures Sound(setup, states[t])
  {
    if t > 0 {
      RunSound(setup, states, steps, t - 1);
      assert states[t] == Next(setup, states[t - 1], steps[t - 1]);
      StepSound(setup, states[t - 1], steps[t - 1]);
    }
  }

  // ---------- fan-out ----------

  /** What is visible is what was handled, with some left out: in the same order, nothing twice. */
  lemma {:induction false} VisibleIsIncreasing(setup: Setup, i: nat, channel: seq<Publication>, handled: seq<nat>)
    requires i < |setup.ids| && Increasing(handled)
    ensures Increasing(Visible(setup, i, channel, handled))
    ensures forall k :: k in Visible(setup, i, channel, handled) <==> k in handled && Speaks(setup, i, channel, k)
  {
    if handled != [] {
      var before, k := handled[..|handled| - 1], handled[|handled| - 1];
      VisibleIsIncreasing(setup, i, channel, before);
      assert handled == before + [k];
      var v := Visible(setup, i, channel, before);
      forall a | 0 <= a < |v| ensures v[a] < k {
        assert v[a] in v && v[a] in before;
        var b :| 0 <= b < |before| && before[b] == v[a];
        assert handled[b] < handled[|before|];
      }
      assert v + [] == v;
    }
  }

  /** A number is among the received ones exactly when the server broadcast that publication. */
  lemma {:induction false} ReceivedWereShown(shown: seq<Shown>, k: nat)
    ensures k in Receiveds(shown) <==> exists x | x in shown :: x.Received? && x.k == k
  {
    if shown != [] {
      var before, last := shown[..|shown| - 1], shown[|shown| - 1];
      ReceivedWereShown(before, k);
      assert shown == before + [last] && last in shown;
    }
  }

  /**
   On every schedule, each server broadcasts every payload it accepted exactly once and in order, and
   each publication at most once, in the order of publication; and it never broadcasts its own.
   */
  lemma FanOut(setup: Setup, states: seq<State>, steps: seq<Step>, t: nat, i: nat)
    requires IsRun(setup, states, steps) && t < |states| && DistinctIDs(setup) && i < |setup.ids|
    ensures i < |states[t].servers|
    ensures Owns(states[t].servers[i].shown) == Upto(|states[t].servers[i].accepted|)
    ensures Increasing(Receiveds(states[t].servers[i].shown))
    ensures forall k | k in Receiveds(states[t].servers[i].shown) ::
              k < |states[t].channel| && states[t].channel[k].origin != i && states[t].channel[k].origin < |setup.ids|
  {
    RunSound(setup, states, steps, t);
    SoundFanOut(setup, states[t], i);
  }

  lemma HandledIncreasing(setup: Setup, s: State, i: nat)
    requires i < |s.servers| == |setup.ids| && ServerSound(setup, s, i)
    ensures Increasing(s.servers[i].handled)
  {
    var me := s.servers[i];
    assert forall a | 0 <= a < |me.handled| :: me.handled[a] == (me.handled + me.inbox)[a];
  }

  lemma SoundFanOut(setup: Setup, s: State, i: nat)
    requires Sound(setup, s) && DistinctIDs(setup) && i < |setup.ids|
    ensures Owns(s.servers[i].shown) == Upto(|s.servers[i].accepted|)
    ensures Increasing(Receiveds(s.servers[i].shown))
    ensures forall k | k in Receiveds(s.servers[i].shown) ::
              k < |s.channel| && s.channel[k].origin != i && s.channel[k].origin < |setup.ids|
  {
    assert ServerSound(setup, s, i);
    HandledIncreasing(setup, s, i);
    VisibleIsIncreasing(setup, i, s.channel, s.servers[i].handled);
  }

  /** For each origin, every server receives in the order in which that origin accepted. */
  lemma ReceivedInOrderOfOrigin(setup: Setup, states: seq<State>, steps: seq<Step>, t: nat, i: nat, a: nat, b: nat)
    requires IsRun(setup, states, steps) && t < |states| && DistinctIDs(setup) && i < |setup.ids|
    requires i < |states[t].servers| && a < b < |Receiveds(states[t].servers[i].shown)|
    ensures var k, l := Receiveds(states[t].servers[i].shown)[a], Receiveds(states[t].servers[i].shown)[b];
            k < l < |states[t].channel|
            && (states[t].channel[k].origin == states[t].channel[l].origin ==> states[t].channel[k].n < states[t].channel[l].n)
  {
    FanOut(setup, states, steps, t, i);
    RunSound(setup, states, steps, t);
    assert Receiveds(states[t].servers[i].shown)[b] in Receiveds(states[t].servers[i].shown);
  }

  /** How many publications have this origin. */
  function PublishedBy(channel: seq<Publication>, i: nat): nat {
    if channel == [] then 0
    else PublishedBy(channel[..|channel| - 1], i) + if channel[|channel| - 1].origin == i then 1 else 0
  }

  lemma {:induction false} DistinctAreFew(channel: seq<Publication>, i: nat, bound: nat)
    requires forall k | 0 <= k < |channel| && channel[k].origin == i :: channel[k].n < bound
    requires forall k, l | 0 <= k < l < |channel| && channel[k].origin == channel[l].origin :: channel[k].n < channel[l].n
    ensures PublishedBy(channel, i) <= bound
  {
    if channel != [] {
      var last := channel[|channel| - 1];
      DistinctAreFew(channel[..|channel| - 1], i, if last.origin == i then last.n else bound);
    }
  }

  /** What is received is never published again: a server's publications never exceed what it accepted. */
  lemma NothingIsRepublished(setup: Setup, states: seq<State>, steps: seq<Step>, t: nat, i: nat)
    requires IsRun(setup, states, steps) && t < |states| && i < |setup.ids|
    ensures i < |states[t].servers| && PublishedBy(states[t].channel, i) <= |states[t].servers[i].accepted|
  {
    RunSound(setup, states, steps, t);
    DistinctAreFew(states[t].channel, i, |states[t].servers[i].accepted|);
  }

  /**
   A chat message that reached another server and was handled there is broadcast as it was accepted
   exactly when the publisher embeds payloads as raw JSON, which the code does not do, and the message is
   well-formed.
   */
  lemma HandledMessageIsShownIff(setup: Setup, states: seq<State>, steps: seq<Step>, t: nat, i: nat, k: nat, m: Message)
    requires IsRun(setup, states, steps) && t < |states| && DistinctIDs(setup) && i < |setup.ids| && i < |states[t].servers|
    requires k in states[t].servers[i].handled && k < |states[t].channel|
    requires var p := states[t].channel[k];
             p.origin != i && p.origin < |states[t].servers| && p.n < |states[t].servers[p.origin].accepted|
             && states[t].servers[p.origin].accepted[p.n] == Chat(m)
    ensures Received(k, ShowMessage(m)) in states[t].servers[i].shown <==> setup.wrapping.AsRaw? && Intact(m)
  {
    RunSound(setup, states, steps, t);
    var s := states[t];
    assert ServerSound(setup, s, i);
    var p := s.channel[k];
    assert setup.ids[p.origin] != setup.ids[i];
    MessageArrivesIff(setup.wrapping, setup.ids[p.origin], setup.ids[i], m);
    HandledIncreasing(setup, s, i);
    VisibleIsIncreasing(setup, i, s.channel, s.servers[i].handled);
    ReceivedWereShown(s.servers[i].shown, k);
  }

  /** With the code's own encoding no server ever broadcasts anything it received. */
  lemma NothingCrossesAsBytes(setup: Setup, states: seq<State>, steps: seq<Step>, t: nat, i: nat)
    requires IsRun(setup, states, steps) && t < |states| && DistinctIDs(setup) && i < |setup.ids|
    requires setup.wrapping.AsBytes?
    ensures i < |states[t].servers| && Receiveds(states[t].servers[i].shown) == []
  {
    FanOut(setup, states, steps, t, i);
    RunSound(setup, states, steps, t);
    var s := states[t];
    assert ServerSound(setup, s, i);
    if Receiveds(s.servers[i].shown) != [] {
      var k := Receiveds(s.servers[i].shown)[0];
      assert k in Receiveds(s.servers[i].shown);
      HandledIncreasing(setup, s, i);
      VisibleIsIncreasing(setup, i, s.channel, s.servers[i].handled);
      var p := s.channel[k];
      BytesAreDiscarded(setup.ids[p.origin], setup.ids[i], s.servers[p.origin].accepted[p.n]);
    }
  }
}
