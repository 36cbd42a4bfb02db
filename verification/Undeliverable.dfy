/** The queue of undeliverable messages: retry sweeps with a dead-letter cap, one sweep and any
    sequence of sweeps. */
module Undeliverable {

  const MAX_ATTEMPTS := 5

  /** `id` tells two messages apart; it is their identity in the queue, not a stored field. */
  datatype Msg = Msg(id: nat, chat: string, kind: string, body: string, attempts: nat)

  /** The transport's answer for each message in one sweep. */
  type Transport = Msg -> bool

  /** A message without an address is never handed to the transport. */
  predicate Addressed(m: Msg) {
    m.chat != "" && m.kind != ""
  }

  predicate Delivered(m: Msg, t: Transport) {
    Addressed(m) && t(m)
  }

  predicate Exhausted(m: Msg) {
    m.attempts + 1 >= MAX_ATTEMPTS
  }

  function Tried(m: Msg): Msg {
    m.(attempts := m.attempts + 1)
  }

  /** Sub-sequence of the messages whose fate in this sweep is delivery, another try, or the dead letters. */
  datatype Fate = Sent | Kept | Dead

  function FateOf(m: Msg, t: Transport): Fate {
    if Delivered(m, t) then Sent else if Exhausted(m) then Dead else Kept
  }

  function Pick(queue: seq<Msg>, t: Transport, fate: Fate): seq<Msg> {
    if queue == [] then []
    else
      var rest := Pick(queue[..|queue| - 1], t, fate);
      var last := queue[|queue| - 1];
      if FateOf(last, t) == fate then rest + [last] else rest
  }

  function TriedAll(ms: seq<Msg>): seq<Msg> {
    seq(|ms|, i requires 0 <= i < |ms| => Tried(ms[i]))
  }

  function SentCount(sent: map<string, nat>, kind: string): nat {
    if kind in sent then sent[kind] else 0
  }

  function OfKind(ms: seq<Msg>, kind: string): nat {
    if ms == [] then 0 else OfKind(ms[..|ms| - 1], kind) + (if ms[|ms| - 1].kind == kind then 1 else 0)
  }

  /** The counter of every kind rose by the messages of that kind that were sent. */
  ghost predicate CountsRose(before: map<string, nat>, after: map<string, nat>, sent: seq<Msg>) {
    forall k :: SentCount(after, k) == SentCount(before, k) + OfKind(sent, k)
  }

  lemma CountOne(before: map<string, nat>, after: map<string, nat>, sent: seq<Msg>, m: Msg)
    requires CountsRose(before, after, sent)
    ensures CountsRose(before, after[m.kind := SentCount(after, m.kind) + 1], sent + [m])
  {
    assert (sent + [m])[..|sent|] == sent;
  }

  /** One more message in each pick. */
  lemma PickStep(queue: seq<Msg>, i: nat, t: Transport, fate: Fate)
    requires i < |queue|
    ensures Pick(queue[..i + 1], t, fate)
            == if FateOf(queue[i], t) == fate then Pick(queue[..i], t, fate) + [queue[i]] else Pick(queue[..i], t, fate)
  {
    assert queue[..i + 1][..i] == queue[..i];
  }

  lemma TriedAppend(ms: seq<Msg>, m: Msg)
    ensures TriedAll(ms + [m]) == TriedAll(ms) + [Tried(m)]
  {
  }

  /** A message of another fate adds nothing. */
  lemma PickSame(queue: seq<Msg>, i: nat, t: Transport, fate: Fate)
    requires i < |queue| && FateOf(queue[i], t) != fate
    ensures Pick(queue[..i + 1], t, fate) == Pick(queue[..i], t, fate)
  {
    PickStep(queue, i, t, fate);
  }

  /** A message that was tried goes last. */
  lemma TriedTurn(queue: seq<Msg>, i: nat, t: Transport, fate: Fate)
    requires i < |queue| && FateOf(queue[i], t) == fate
    ensures TriedAll(Pick(queue[..i + 1], t, fate)) == TriedAll(Pick(queue[..i], t, fate)) + [Tried(queue[i])]
  {
    PickStep(queue, i, t, fate);
    TriedAppend(Pick(queue[..i], t, fate), queue[i]);
  }

  /** What a sweep has made of the first i messages. */
  ghost predicate Swept(queue: seq<Msg>, i: nat, t: Transport, remaining: seq<Msg>, letters: seq<Msg>,
                        delivered: nat, before: map<string, nat>, after: map<string, nat>)
    requires i <= |queue|
  {
    && remaining == TriedAll(Pick(queue[..i], t, Kept))
    && letters == TriedAll(Pick(queue[..i], t, Dead))
    && delivered == |Pick(queue[..i], t, Sent)|
    && CountsRose(before, after, Pick(queue[..i], t, Sent))
  }

  lemma SentTurn(queue: seq<Msg>, i: nat, t: Transport, remaining: seq<Msg>, letters: seq<Msg>,
                 delivered: nat, before: map<string, nat>, after: map<string, nat>)
    requires i < |queue| && Swept(queue, i, t, remaining, letters, delivered, before, after)
    requires FateOf(queue[i], t) == Sent
    ensures Swept(queue, i + 1, t, remaining, letters, delivered + 1, before,
                  after[queue[i].kind := SentCount(after, queue[i].kind) + 1])
  {
    PickStep(queue, i, t, Sent);
    CountOne(before, after, Pick(queue[..i], t, Sent), queue[i]);
    PickSame(queue, i, t, Kept);
    PickSame(queue, i, t, Dead);
  }

  lemma DeadTurn(queue: seq<Msg>, i: nat, t: Transport, remaining: seq<Msg>, letters: seq<Msg>,
                 delivered: nat, before: map<string, nat>, after: map<string, nat>)
    requires i < |queue| && Swept(queue, i, t, remaining, letters, delivered, before, after)
    requires FateOf(queue[i], t) == Dead
    ensures Swept(queue, i + 1, t, remaining, letters + [Tried(queue[i])], delivered, before, after)
  {
    TriedTurn(queue, i, t, Dead);
    PickSame(queue, i, t, Sent);
    PickSame(queue, i, t, Kept);
  }

  lemma KeptTurn(queue: seq<Msg>, i: nat, t: Transport, remaining: seq<Msg>, letters: seq<Msg>,
                 delivered: nat, before: map<string, nat>, after: map<string, nat>)
    requires i < |queue| && Swept(queue, i, t, remaining, letters, delivered, before, after)
    requires FateOf(queue[i], t) == Kept
    ensures Swept(queue, i + 1, t, remaining + [Tried(queue[i])], letters, delivered, before, after)
  {
    TriedTurn(queue, i, t, Kept);
    PickSame(queue, i, t, Sent);
    PickSame(queue, i, t, Dead);
  }

  /** The message part of a job's state. */
  class JobState {
    var queue: seq<Msg>
    var deadLetter: seq<Msg>
    var sent: map<string, nat>

    constructor (queue: seq<Msg>)
      ensures this.queue == queue && deadLetter == [] && sent == map[]
    {
      this.queue, this.deadLetter, this.sent := queue, [], map[];
    }

    /** One sweep, oldest first. The queue splits exactly: what was sent leaves, what may be tried again
        stays in order with one more attempt, what reached the cap goes to the dead letters. */
    method Sweep(t: Transport) returns (delivered: nat, still: nat, dead: nat)
      modifies this
      ensures queue == TriedAll(Pick(old(queue), t, Kept))
      ensures deadLetter == old(deadLetter) + TriedAll(Pick(old(queue), t, Dead))
      ensures delivered == |Pick(old(queue), t, Sent)| && still == |queue|
      ensures dead == |deadLetter| - |old(deadLetter)|
      ensures CountsRose(old(sent), sent, Pick(old(queue), t, Sent))
    {
      var all := queue;
      var remaining: seq<Msg> := [];
      ghost var letters: seq<Msg> := [];
      delivered, dead := 0, 0;
      var i := 0;
      while i < |all|
        invariant 0 <= i <= |all| && all == old(queue)
        invariant Swept(all, i, t, remaining, letters, delivered, old(sent), sent)
        invariant deadLetter == old(deadLetter) + letters && dead == |letters|
      {
        var m := all[i];
        if Addressed(m) && t(m) {
          SentTurn(all, i, t, remaining, letters, delivered, old(sent), sent);
          sent := sent[m.kind := SentCount(sent, m.kind) + 1];
          delivered := delivered + 1;
        } else if m.attempts + 1 >= MAX_ATTEMPTS {
          DeadTurn(all, i, t, remaining, letters, delivered, old(sent), sent);
          deadLetter := deadLetter + [Tried(m)];
          letters := letters + [Tried(m)];
          dead := dead + 1;
        } else {
          KeptTurn(all, i, t, remaining, letters, delivered, old(sent), sent);
          remaining := remaining + [Tried(m)];
        }
        i := i + 1;
      }
      assert all[..|all|] == all;
      queue := remaining;
      still := |remaining|;
    }
  }

  // ---------------------------------------------------------------- any sequence of sweeps

  /** `Arrive` is a new message, queued last with no attempts. */
  datatype Event = Sweep(t: Transport) | Arrive(m: Msg)

  /** The queue, the dead letters, and what was delivered so far. */
  datatype Post = Post(queue: seq<Msg>, dead: seq<Msg>, sent: seq<Msg>)

  function Step(p: Post, e: Event): Post {
    match e
    case Sweep(t) => Post(TriedAll(Pick(p.queue, t, Kept)), p.dead + TriedAll(Pick(p.queue, t, Dead)),
                          p.sent + Pick(p.queue, t, Sent))
    case Arrive(m) => p.(queue := p.queue + [m.(attempts := 0)])
  }

  function Run(p: Post, events: seq<Event>): Post
    decreases |events|
  {
    if events == [] then p else Run(Step(p, events[0]), events[1..])
  }

  /** How often the letter of message m (all but its attempts) is among these messages. */
  function Count(ms: seq<Msg>, m: Msg): nat {
    if ms == [] then 0
    else Count(ms[..|ms| - 1], m) + (if ms[|ms| - 1].(attempts := 0) == m.(attempts := 0) then 1 else 0)
  }

  function Arrived(events: seq<Event>, m: Msg): nat
    decreases |events|
  {
    if events == [] then 0
    else (if events[0].Arrive? && events[0].m.(attempts := 0) == m.(attempts := 0) then 1 else 0)
         + Arrived(events[1..], m)
  }

  lemma {:induction false} CountAppend(a: seq<Msg>, b: seq<Msg>, m: Msg)
    ensures Count(a + b, m) == Count(a, m) + Count(b, m)
  {
    if b == [] {
      assert a + b == a;
    } else {
      assert (a + b)[..|a + b| - 1] == a + b[..|b| - 1];
      CountAppend(a, b[..|b| - 1], m);
    }
  }

  lemma {:induction false} CountTried(ms: seq<Msg>, m: Msg)
    ensures Count(TriedAll(ms), m) == Count(ms, m)
  {
    if ms != [] {
      CountTried(ms[..|ms| - 1], m);
      assert TriedAll(ms)[..|ms| - 1] == TriedAll(ms[..|ms| - 1]);
    }
  }

  /** The three picks of a sweep are the queue, no message twice and none missing. */
  lemma {:induction false} SplitCounts(queue: seq<Msg>, t: Transport, m: Msg)
    ensures Count(Pick(queue, t, Sent), m) + Count(Pick(queue, t, Kept), m) + Count(Pick(queue, t, Dead), m)
            == Count(queue, m)
  {
    if queue != [] {
      var n := |queue| - 1;
      SplitCounts(queue[..n], t, m);
      var fate := FateOf(queue[n], t);
      var rest := Pick(queue[..n], t, fate);
      assert (rest + [queue[n]])[..|rest|] == rest;
    }
  }

  /** NEVER LOST. After any run, queue, dead letters and deliveries together hold every letter exactly as
      often as the start and the arrivals did. */
  lemma {:induction false} NothingLost(p: Post, events: seq<Event>, m: Msg)
    ensures var q := Run(p, events);
            Count(q.queue, m) + Count(q.dead, m) + Count(q.sent, m)
            == Count(p.queue, m) + Count(p.dead, m) + Count(p.sent, m) + Arrived(events, m)
    decreases |events|
  {
    if events != [] {
      if events[0].Sweep? {
        var t := events[0].t;
        SplitCounts(p.queue, t, m);
        CountTried(Pick(p.queue, t, Kept), m);
        CountTried(Pick(p.queue, t, Dead), m);
        CountAppend(p.dead, TriedAll(Pick(p.queue, t, Dead)), m);
        CountAppend(p.sent, Pick(p.queue, t, Sent), m);
      } else {
        var one := [events[0].m.(attempts := 0)];
        CountAppend(p.queue, one, m);
        assert one[..0] == [];
      }
      NothingLost(Step(p, events[0]), events[1..], m);
    }
  }

  /** Every message in the queue has at least n attempts behind it, and may be tried again. */
  predicate Aged(queue: seq<Msg>, n: nat) {
    forall i :: 0 <= i < |queue| ==> n <= queue[i].attempts < MAX_ATTEMPTS
  }

  lemma {:induction false} PickHas(queue: seq<Msg>, t: Transport, fate: Fate, i: nat)
    requires i < |Pick(queue, t, fate)|
    ensures exists j :: 0 <= j < |queue| && queue[j] == Pick(queue, t, fate)[i] && FateOf(queue[j], t) == fate
  {
    var n := |queue| - 1;
    var rest := Pick(queue[..n], t, fate);
    if i < |rest| {
      PickHas(queue[..n], t, fate, i);
      var j :| 0 <= j < n && queue[..n][j] == rest[i] && FateOf(queue[..n][j], t) == fate;
      assert queue[j] == rest[i];
    }
  }

  lemma SweepAges(p: Post, t: Transport, n: nat)
    requires forall i :: 0 <= i < |p.queue| ==> n <= p.queue[i].attempts
    ensures Aged(Step(p, Sweep(t)).queue, n + 1)
  {
    var kept := Pick(p.queue, t, Kept);
    forall i | 0 <= i < |kept|
      ensures n + 1 <= Tried(kept[i]).attempts < MAX_ATTEMPTS
    {
      PickHas(p.queue, t, Kept, i);
    }
  }

  predicate OnlySweeps(events: seq<Event>) {
    forall i :: 0 <= i < |events| ==> events[i].Sweep?
  }

  /** EMPTY AFTER FIVE. With no arrivals, k sweeps leave only messages with k attempts or more, all still
      below the cap; so after five sweeps the queue is empty, whatever the transport answers. */
  lemma {:induction false} SweepsDrain(p: Post, events: seq<Event>, n: nat)
    requires OnlySweeps(events) && events != []
    requires forall i :: 0 <= i < |p.queue| ==> n <= p.queue[i].attempts
    ensures Aged(Run(p, events).queue, n + |events|)
    ensures n + |events| >= MAX_ATTEMPTS ==> Run(p, events).queue == []
    decreases |events|
  {
    SweepAges(p, events[0].t, n);
    var next := Step(p, events[0]);
    if |events| > 1 {
      forall i | 0 <= i < |events[1..]|
        ensures events[1..][i].Sweep?
      {
        assert events[1..][i] == events[i + 1];
      }
      SweepsDrain(next, events[1..], n + 1);
    } else {
      assert Run(p, events) == next;
    }
    var end := Run(p, events).queue;
    assert end != [] ==> n + |events| <= end[0].attempts < MAX_ATTEMPTS;
  }

  // ---------------------------------------------------------------- one message

  /** WHAT BECOMES OF A MESSAGE in one sweep: it is sent exactly when it has both addresses and the transport
      takes it; otherwise its fifth failure sends it to the dead letters, and an earlier one keeps it. */
  lemma FateExactly(m: Msg, t: Transport)
    ensures FateOf(m, t) == Sent <==> m.chat != "" && m.kind != "" && t(m)
    ensures FateOf(m, t) == Dead <==> !(m.chat != "" && m.kind != "" && t(m)) && m.attempts >= 4
  {
  }

  lemma OneSwept(m: Msg, t: Transport)
    requires FateOf(m, t) != Sent
    ensures Step(Post([m], [], []), Sweep(t)) ==
            if m.attempts + 1 < 5 then Post([Tried(m)], [], []) else Post([], [Tried(m)], [])
  {
    assert [m][..0] == [];
    forall fate: Fate
      ensures Pick([m], t, fate) == if FateOf(m, t) == fate then [m] else []
    {
      assert Pick([m][..0], t, fate) == [];
      assert [] + [m] == [m];
    }
    assert TriedAll([m]) == [Tried(m)] && TriedAll([]) == [];
  }

  /** No sweep can deliver the message: an address is missing or the transport never takes it. */
  ghost predicate Hopeless(m: Msg, t: Transport) {
    m.chat == "" || m.kind == "" || forall a :: !t(m.(attempts := a))
  }

  lemma HopelessStays(m: Msg, t: Transport, a: nat)
    requires Hopeless(m, t)
    ensures Hopeless(m.(attempts := a), t) && FateOf(m, t) != Sent
  {
    assert m == m.(attempts := m.attempts);
    forall b | m.chat != "" && m.kind != ""
      ensures !t(m.(attempts := a).(attempts := b))
    {
      assert m.(attempts := a).(attempts := b) == m.(attempts := b);
    }
  }

  /** One message alone in the queue, through n failing sweeps. */
  lemma {:induction false} FailingSweeps(m: Msg, t: Transport, n: nat)
    requires m.attempts < 5 && Hopeless(m, t)
    ensures Run(Post([m], [], []), Repeat(t, n)) ==
            if m.attempts + n < 5 then Post([m.(attempts := m.attempts + n)], [], [])
            else Post([], [m.(attempts := 5)], [])
    decreases n
  {
    if n > 0 {
      HopelessStays(m, t, m.attempts + 1);
      OneSwept(m, t);
      assert Repeat(t, n)[0] == Sweep(t) && Repeat(t, n)[1..] == Repeat(t, n - 1);
      if m.attempts + 1 < 5 {
        FailingSweeps(Tried(m), t, n - 1);
      } else {
        EmptySweeps([Tried(m)], t, n - 1);
      }
    }
  }

  lemma {:induction false} EmptySweeps(dead: seq<Msg>, t: Transport, n: nat)
    ensures Run(Post([], dead, []), Repeat(t, n)) == Post([], dead, [])
    decreases n
  {
    if n > 0 {
      assert Repeat(t, n)[1..] == Repeat(t, n - 1);
      assert Step(Post([], dead, []), Sweep(t)) == Post([], dead, []) by {
        assert TriedAll(Pick([], t, Kept)) == [] && dead + TriedAll(Pick([], t, Dead)) == dead;
      }
      EmptySweeps(dead, t, n - 1);
    }
  }

  function Repeat(t: Transport, n: nat): seq<Event> {
    if n == 0 then [] else [Sweep(t)] + Repeat(t, n - 1)
  }

  /** FIVE TRIES. A message that arrives and that no sweep can deliver, because an address is missing or the
      transport never takes it, waits through four sweeps and is a dead letter with five attempts after the
      fifth. */
  lemma FiveTries(m: Msg, t: Transport, n: nat)
    requires Hopeless(m, t)
    ensures Run(Post([], [], []), [Arrive(m)] + Repeat(t, n)) ==
            if n < 5 then Post([m.(attempts := n)], [], []) else Post([], [m.(attempts := 5)], [])
  {
    var entered := m.(attempts := 0);
    assert ([Arrive(m)] + Repeat(t, n))[1..] == Repeat(t, n);
    assert Step(Post([], [], []), Arrive(m)) == Post([entered], [], []);
    HopelessStays(m, t, 0);
    FailingSweeps(entered, t, n);
  }

  /** How often the run hands message `id` to the transport. */
  function Dispatches(p: Post, events: seq<Event>, id: nat): nat
    decreases |events|
  {
    if events == [] then 0
    else (if events[0].Sweep? then InQueue(p.queue, id) else 0) + Dispatches(Step(p, events[0]), events[1..], id)
  }

  /** Addressed messages with this id in the queue. */
  function InQueue(queue: seq<Msg>, id: nat): nat {
    if queue == [] then 0
    else InQueue(queue[..|queue| - 1], id)
         + (if queue[|queue| - 1].id == id && Addressed(queue[|queue| - 1]) then 1 else 0)
  }

  /** Attempts still open to the messages with this id: five less what is spent, for each. */
  function Budget(queue: seq<Msg>, id: nat): nat {
    if queue == [] then 0
    else
      var m := queue[|queue| - 1];
      Budget(queue[..|queue| - 1], id)
      + (if m.id != id then 0 else Left(m))
  }

  /** Attempts still open to one message. */
  function Left(m: Msg): nat {
    if m.attempts < MAX_ATTEMPTS then MAX_ATTEMPTS - m.attempts else 1
  }

  lemma BudgetAppend(ms: seq<Msg>, m: Msg, id: nat)
    ensures Budget(ms + [m], id) == Budget(ms, id) + (if m.id != id then 0 else Left(m))
  {
    assert (ms + [m])[..|ms|] == ms;
  }

  function Arrivals(events: seq<Event>, id: nat): nat
    decreases |events|
  {
    if events == [] then 0
    else (if events[0].Arrive? && events[0].m.id == id then 1 else 0) + Arrivals(events[1..], id)
  }

  lemma PayStep(front: seq<Msg>, m: Msg, t: Transport, id: nat)
    requires InQueue(front, id) + Budget(TriedAll(Pick(front, t, Kept)), id) <= Budget(front, id)
    ensures InQueue(front + [m], id) + Budget(TriedAll(Pick(front + [m], t, Kept)), id) <= Budget(front + [m], id)
  {
    var queue, rest := front + [m], Pick(front, t, Kept);
    assert queue[..|front|] == front;
    BudgetAppend(front, m, id);
    assert InQueue(queue, id) == InQueue(front, id) + if m.id == id && Addressed(m) then 1 else 0;
    if FateOf(m, t) == Kept {
      assert Pick(queue, t, Kept) == rest + [m];
      TriedAppend(rest, m);
      BudgetAppend(TriedAll(rest), Tried(m), id);
    } else {
      assert Pick(queue, t, Kept) == rest;
    }
  }

  /** A sweep pays for every hand-over of a message out of that message's budget. */
  lemma {:induction false} SweepPays(queue: seq<Msg>, t: Transport, id: nat)
    ensures InQueue(queue, id) + Budget(TriedAll(Pick(queue, t, Kept)), id) <= Budget(queue, id)
  {
    if queue != [] {
      var n := |queue| - 1;
      SweepPays(queue[..n], t, id);
      PayStep(queue[..n], queue[n], t, id);
      assert queue == queue[..n] + [queue[n]];
    }
  }

  /** AT MOST FIVE. A message that enters with no attempts is handed to the transport at most five times
      in any run of sweeps and arrivals. */
  lemma {:induction false} AtMostFive(p: Post, events: seq<Event>, id: nat)
    ensures Dispatches(p, events, id) <= Budget(p.queue, id) + MAX_ATTEMPTS * Arrivals(events, id)
    ensures p.queue == [] && Arrivals(events, id) == 1 ==> Dispatches(p, events, id) <= MAX_ATTEMPTS
    decreases |events|
  {
    if events != [] {
      var next := Step(p, events[0]);
      if events[0].Sweep? {
        SweepPays(p.queue, events[0].t, id);
      } else {
        assert next.queue[..|p.queue|] == p.queue;
      }
      AtMostFive(next, events[1..], id);
    }
  }
}
