/** Whole runs of the automatic resume with one poller: what every sequence of polls, refunds, sweeps
    and re-pins keeps, how ledger rows match engine starts, and the two ways the match can break. */
module AutoResumeRuns {
  import opened Text
  import opened AutoResumeLedger

  /** A poll carries the decision's clock, the moment of the record, the outcome of every gate before the
      bounds, whether the record lands, whether the engine starts, and whether the refund of a failed start
      lands. */
  datatype Event =
    | Poll(kind: Kind, now: int, when: int, gates: bool, lands: bool, started: bool, givenBack: bool)
    | LooseRefund(kind: Kind)
    | PinSweep(now: int)
    | Repin(pin: Option<string>)

  /** The book, the clock, and the stamps of the attempts whose engines really started. */
  datatype Sim = Sim(book: Book, clock: int, starts: seq<int>)

  predicate Dispatches(s: Sim, e: Event) {
    e.Poll? && e.gates && BoundsAllow(s.book, e.now) && e.lands
  }

  /** The clock never goes back and an attempt is of one of the two kinds. */
  predicate Timely(s: Sim, e: Event) {
    match e
    case Poll(kind, now, when, _, _, _, _) => kind != Other && s.clock <= now <= when
    case PinSweep(now) => s.clock <= now
    case _ => true
  }

  function Step(s: Sim, e: Event): Sim {
    match e
    case Poll(kind, now, when, _, _, started, givenBack) =>
      if !Dispatches(s, e) then s
      else
        var recorded := Record(s.book, kind, Cut(when));
        if started then Sim(recorded, when, s.starts + [Cut(when)])
        else Sim(if givenBack then Refund(recorded, kind) else recorded, when, s.starts)
    case LooseRefund(kind) => s.(book := Refund(s.book, kind))
    case PinSweep(now) => Sim(Sweep(s.book, now), now, s.starts)
    case Repin(pin) => s.(book := s.book.(pin := pin))
  }

  function Run(s: Sim, events: seq<Event>): Sim
    decreases |events|
  {
    if events == [] then s else Run(Step(s, events[0]), events[1..])
  }

  predicate TimelyRun(s: Sim, events: seq<Event>)
    decreases |events|
  {
    events == [] || (Timely(s, events[0]) && TimelyRun(Step(s, events[0]), events[1..]))
  }

  /** WHAT A POLL DOES: an engine starts exactly when the gates are open, the bounds allow it, the record lands and
      the launch succeeds; and a row stays behind exactly for an attempt that started or was not given back. */
  lemma PollExactly(s: Sim, e: Event)
    requires e.Poll?
    ensures Step(s, e).starts ==
            if e.gates && BoundsAllow(s.book, e.now) && e.lands && e.started then s.starts + [Cut(e.when)] else s.starts
    ensures Step(s, e).book ==
            if !(e.gates && BoundsAllow(s.book, e.now) && e.lands) then s.book
            else if e.started || !e.givenBack then Record(s.book, e.kind, Cut(e.when))
            else Refund(Record(s.book, e.kind, Cut(e.when)), e.kind)
  {
  }

  // ---------------------------------------------------------------- safety over every run

  lemma RecordAll(b: Book, kind: Kind, at: int)
    ensures All(Record(b, kind, at)) ==
            if b.main.NotAList? then All(b) else All(b) + [NewRow(kind, at, b.pin)]
  {
  }

  /** A record that lands adds a row exactly when the ledger value is a list or absent. */
  lemma RecordAddsExactly(b: Book, kind: Kind, at: int)
    ensures All(Record(b, kind, at)) == All(b) <==> b.main.NotAList?
  {
    RecordAll(b, kind, at);
    assert |All(b) + [NewRow(kind, at, b.pin)]| == |All(b)| + 1;
  }

  lemma RefundMarks(b: Book, kind: Kind)
    ensures OnlyMarked(All(b), All(Refund(b, kind)))
  {
    var after := Refund(b, kind);
    MarkLastSame(RowsOf(b.main), kind);
    MarkLastSame(RowsOf(b.legacy), kind);
    MarkedParts(RowsOf(b.legacy), RowsOf(after.legacy), RowsOf(b.main), RowsOf(after.main));
  }

  lemma MarkedParts(a: seq<Row>, a': seq<Row>, c: seq<Row>, c': seq<Row>)
    requires OnlyMarked(a, a') && OnlyMarked(c, c')
    ensures OnlyMarked(a + c, a' + c')
  {
  }

  lemma SweepMarks(b: Book, now: int)
    ensures OnlyMarked(All(b), All(Sweep(b, now)))
  {
  }

  lemma StampsAdvance(now: int, when: int)
    requires now <= when
    ensures Cut(now) <= Cut(when)
  {
  }

  lemma PastGrows(rows: seq<Row>, row: Row, clock: int, when: int)
    requires Past(rows, clock) && clock <= when && Live(row) && row.at.value * SECOND <= when
    ensures Past(rows + [row], when)
  {
  }

  lemma PollSafe(b: Book, kind: Kind, when: int, now: int, clock: int)
    requires Safe(All(b)) && Past(All(b), clock) && clock <= now <= when && BoundsAllow(b, now)
    ensures var recorded := Record(b, kind, Cut(when));
            && Safe(All(recorded)) && Past(All(recorded), when)
            && Safe(All(Refund(recorded, kind))) && Past(All(Refund(recorded, kind)), when)
  {
    var recorded := Record(b, kind, Cut(when));
    RecordAll(b, kind, Cut(when));
    var row := NewRow(kind, Cut(when), b.pin);
    StampsAdvance(now, when);
    AttemptSafe(All(b), row, now);
    PastGrows(All(b), row, clock, when);
    RefundMarks(recorded, kind);
    MarkedSafe(All(recorded), All(Refund(recorded, kind)), when);
  }

  lemma StepSafe(s: Sim, e: Event)
    requires Safe(All(s.book)) && Past(All(s.book), s.clock) && Timely(s, e)
    ensures var s' := Step(s, e); Safe(All(s'.book)) && Past(All(s'.book), s'.clock)
  {
    if Dispatches(s, e) {
      PollSafe(s.book, e.kind, e.when, e.now, s.clock);
    } else if e.LooseRefund? {
      RefundMarks(s.book, e.kind);
      MarkedSafe(All(s.book), All(Refund(s.book, e.kind)), s.clock);
    } else if e.PinSweep? {
      SweepMarks(s.book, e.now);
      MarkedSafe(All(s.book), All(Sweep(s.book, e.now)), e.now);
    }
  }

  /** SAFETY. From a safe ledger, every run of park and crash polls, refunds, sweeps and re-pins leaves
      at most three un-refunded rows in any 24 h, end excluded, over both ledgers, any two at least 10
      minutes apart and any three spanning at least 40. */
  lemma {:induction false} RunSafe(s: Sim, events: seq<Event>)
    requires Safe(All(s.book)) && Past(All(s.book), s.clock) && TimelyRun(s, events)
    ensures Safe(All(Run(s, events).book)) && Past(All(Run(s, events).book), Run(s, events).clock)
    decreases |events|
  {
    if events != [] {
      StepSafe(s, events[0]);
      RunSafe(Step(s, events[0]), events[1..]);
    }
  }

  /** A poll that decides no later than its own stamp: on the whole second, or before it. */
  predicate DecidedByStamp(e: Event) {
    e.Poll? ==> e.now <= Cut(e.when) * SECOND
  }

  lemma PollClosed(b: Book, kind: Kind, at: int, now: int, clock: int)
    requires ClosedDays(All(b)) && Past(All(b), clock) && clock <= now <= at * SECOND && BoundsAllow(b, now)
    ensures ClosedDays(All(Record(b, kind, at)))
  {
    RecordAll(b, kind, at);
    AttemptClosed(All(b), NewRow(kind, at, b.pin), clock, now);
  }

  lemma RefundClosed(b: Book, kind: Kind)
    requires ClosedDays(All(b))
    ensures ClosedDays(All(Refund(b, kind)))
  {
    RefundMarks(b, kind);
    MarkedClosed(All(b), All(Refund(b, kind)));
  }

  lemma StepClosed(s: Sim, e: Event)
    requires ClosedDays(All(s.book)) && Past(All(s.book), s.clock) && Timely(s, e) && DecidedByStamp(e)
    ensures ClosedDays(All(Step(s, e).book))
  {
    if Dispatches(s, e) {
      PollClosed(s.book, e.kind, Cut(e.when), e.now, s.clock);
      RefundClosed(Record(s.book, e.kind, Cut(e.when)), e.kind);
    } else if e.LooseRefund? {
      RefundClosed(s.book, e.kind);
    } else if e.PinSweep? {
      SweepMarks(s.book, e.now);
      MarkedClosed(All(s.book), All(Sweep(s.book, e.now)));
    }
  }

  /** SAFETY, BOTH ENDS INCLUDED. When every poll decides no later than its own stamp, a safe ledger with at
      most three live rows in any closed 24 h keeps that over every run. */
  lemma {:induction false} RunClosed(s: Sim, events: seq<Event>)
    requires Safe(All(s.book)) && ClosedDays(All(s.book)) && Past(All(s.book), s.clock) && TimelyRun(s, events)
    requires forall i :: 0 <= i < |events| ==> DecidedByStamp(events[i])
    ensures ClosedDays(All(Run(s, events).book))
    decreases |events|
  {
    if events != [] {
      assert DecidedByStamp(events[0]);
      StepClosed(s, events[0]);
      StepSafe(s, events[0]);
      forall i | 0 <= i < |events[1..]|
        ensures DecidedByStamp(events[1..][i])
      {
        assert events[1..][i] == events[i + 1];
      }
      RunClosed(Step(s, events[0]), events[1..]);
    }
  }

  // ---------------------------------------------------------------- rows and engine starts

  function LiveTimes(rows: seq<Row>): seq<int> {
    if rows == [] then []
    else
      var rest := LiveTimes(rows[..|rows| - 1]);
      if Live(rows[|rows| - 1]) then rest + [rows[|rows| - 1].at.value] else rest
  }

  function TimesIn(ts: seq<int>, lo: int, hi: int): nat {
    if ts == [] then 0
    else TimesIn(ts[..|ts| - 1], lo, hi) + (if lo <= ts[|ts| - 1] <= hi then 1 else 0)
  }

  lemma LiveAppend(rows: seq<Row>, r: Row)
    ensures LiveTimes(rows + [r]) == if Live(r) then LiveTimes(rows) + [r.at.value] else LiveTimes(rows)
    ensures forall lo, hi :: CountIn(rows + [r], lo, hi) ==
              CountIn(rows, lo, hi) + (if Live(r) && lo <= r.at.value <= hi then 1 else 0)
    ensures forall floor :: Counted(rows + [r], floor) ==
              if Counts(r, floor) then Counted(rows, floor) + [r] else Counted(rows, floor)
  {
    assert (rows + [r])[..|rows|] == rows;
  }

  lemma MarkAppended(rows: seq<Row>, row: Row, kind: Kind)
    requires Refundable(row, kind)
    ensures MarkLast(rows + [row], kind) == rows + [row.(refunded := true)]
    ensures MarkLast(rows + [row], kind) != rows + [row]
  {
    assert (rows + [row])[..|rows|] == rows;
    assert (rows + [row])[|rows|] != (rows + [row.(refunded := true)])[|rows|];
  }

  lemma RefundRecorded(b: Book, kind: Kind, at: int)
    requires !b.main.NotAList? && kind != Other
    ensures Refund(Record(b, kind, at), kind)
            == b.(main := Rows(RowsOf(b.main) + [NewRow(kind, at, b.pin).(refunded := true)]))
  {
    var row := NewRow(kind, at, b.pin);
    assert [] + [row] == [row];
    assert Record(b, kind, at).main == Rows(RowsOf(b.main) + [row]);
    MarkAppended(RowsOf(b.main), row, kind);
  }

  /** THE CHARGE IS GIVEN BACK. Recording an attempt and refunding its kind marks exactly the new row,
      so the stream both caps count is what it was. */
  lemma RefundUndoesRecord(b: Book, kind: Kind, at: int, now: int)
    requires !b.main.NotAList? && kind != Other
    ensures var undone := Refund(Record(b, kind, at), kind);
            && All(undone) == All(b) + [NewRow(kind, at, b.pin).(refunded := true)]
            && Unified(undone, now) == Unified(b, now)
            && LiveTimes(All(undone)) == LiveTimes(All(b))
            && undone.pin == b.pin && !undone.main.NotAList?
  {
    var marked := NewRow(kind, at, b.pin).(refunded := true);
    RefundRecorded(b, kind, at);
    assert RowsOf(b.legacy) + (RowsOf(b.main) + [marked]) == All(b) + [marked];
    LiveAppend(All(b), marked);
  }

  /** The sweep finds a counted row under the current pin. */
  ghost predicate Fires(b: Book, now: int) {
    exists i :: 0 <= i < |All(b)| && Stale(All(b)[i], Floor(now), b.pin)
  }

  lemma QuietSweep(b: Book, now: int)
    ensures Sweep(b, now) == b <==> !Fires(b, now)
  {
    if !Fires(b, now) {
      forall i | 0 <= i < |RowsOf(b.main)|
        ensures SweepRows(RowsOf(b.main), Floor(now), b.pin)[i] == RowsOf(b.main)[i]
      {
        assert All(b)[|RowsOf(b.legacy)| + i] == RowsOf(b.main)[i];
      }
      forall i | 0 <= i < |RowsOf(b.legacy)|
        ensures SweepRows(RowsOf(b.legacy), Floor(now), b.pin)[i] == RowsOf(b.legacy)[i]
      {
        assert All(b)[i] == RowsOf(b.legacy)[i];
      }
      assert SweepRows(RowsOf(b.main), Floor(now), b.pin) == RowsOf(b.main);
      assert SweepRows(RowsOf(b.legacy), Floor(now), b.pin) == RowsOf(b.legacy);
    } else {
      var i :| 0 <= i < |All(b)| && Stale(All(b)[i], Floor(now), b.pin);
      assert All(Sweep(b, now))[i] == All(b)[i].(refunded := true);
    }
  }

  lemma {:induction false} MarkedTimes(rows: seq<Row>, after: seq<Row>)
    requires OnlyMarked(rows, after)
    ensures |LiveTimes(after)| <= |LiveTimes(rows)|
    ensures LiveTimes(after) == LiveTimes(rows) <==> forall i :: 0 <= i < |rows| ==> Live(rows[i]) == Live(after[i])
    ensures (exists i :: 0 <= i < |rows| && Live(rows[i]) && !Live(after[i])) ==>
              |LiveTimes(after)| < |LiveTimes(rows)|
  {
    if rows != [] {
      var n := |rows| - 1;
      MarkedTimes(rows[..n], after[..n]);
      assert forall i :: 0 <= i < n ==> rows[..n][i] == rows[i] && after[..n][i] == after[i];
      if i :| 0 <= i < |rows| && Live(rows[i]) && !Live(after[i]) {
        if i < n {
          assert Live(rows[..n][i]) && !Live(after[..n][i]);
        }
      }
      if forall i :: 0 <= i < |rows| ==> Live(rows[i]) == Live(after[i]) {
        assert after[n] == rows[n] || !Live(rows[n]);
      }
    }
  }

  /** The sweep takes a charge back exactly when it fires. */
  lemma SweepKeepsCharges(b: Book, now: int)
    ensures LiveTimes(All(Sweep(b, now))) == LiveTimes(All(b)) <==> !Fires(b, now)
  {
    var rows, after := All(b), All(Sweep(b, now));
    SweepMarks(b, now);
    MarkedTimes(rows, after);
    forall i | 0 <= i < |rows|
      ensures Live(rows[i]) && !Live(after[i]) <==> Stale(rows[i], Floor(now), b.pin)
    {
    }
  }

  /** Refunds follow only the attempts that started no engine, and the pin sweep never fires. */
  ghost predicate Paired(s: Sim, e: Event) {
    !e.LooseRefund? && (e.PinSweep? ==> !Fires(s.book, e.now))
  }

  ghost predicate PairedRun(s: Sim, events: seq<Event>)
    decreases |events|
  {
    events == [] || (Paired(s, events[0]) && PairedRun(Step(s, events[0]), events[1..]))
  }

  predicate RefundsLand(events: seq<Event>) {
    forall i :: 0 <= i < |events| && events[i].Poll? && !events[i].started ==> events[i].givenBack
  }

  lemma StartedStep(b: Book, kind: Kind, at: int, before: seq<int>, starts: seq<int>)
    requires !b.main.NotAList? && LiveTimes(All(b)) == before + starts
    ensures !Record(b, kind, at).main.NotAList?
    ensures LiveTimes(All(Record(b, kind, at))) == before + (starts + [at])
  {
    RecordAll(b, kind, at);
    LiveAppend(All(b), NewRow(kind, at, b.pin));
    assert before + starts + [at] == before + (starts + [at]);
  }

  /** One event of a paired run whose refunds land. */
  lemma StepStarts(s: Sim, e: Event, before: seq<int>)
    requires !s.book.main.NotAList? && Timely(s, e) && Paired(s, e)
    requires e.Poll? && !e.started ==> e.givenBack
    requires LiveTimes(All(s.book)) == before + s.starts
    ensures !Step(s, e).book.main.NotAList?
    ensures LiveTimes(All(Step(s, e).book)) == before + Step(s, e).starts
  {
    if Dispatches(s, e) {
      if e.started {
        StartedStep(s.book, e.kind, Cut(e.when), before, s.starts);
      } else {
        RefundUndoesRecord(s.book, e.kind, Cut(e.when), e.now);
      }
    } else if e.PinSweep? {
      QuietSweep(s.book, e.now);
    }
  }

  /** ONE TO ONE. When every refund lands, the live stamps after the run are those before it followed by
      the engine starts, in order. */
  lemma {:induction false} RowsAreStarts(s: Sim, events: seq<Event>, before: seq<int>)
    requires !s.book.main.NotAList? && TimelyRun(s, events) && PairedRun(s, events) && RefundsLand(events)
    requires LiveTimes(All(s.book)) == before + s.starts
    ensures LiveTimes(All(Run(s, events).book)) == before + Run(s, events).starts
    decreases |events|
  {
    if events != [] {
      StepStarts(s, events[0], before);
      forall i | 0 <= i < |events[1..]| && events[1..][i].Poll? && !events[1..][i].started
        ensures events[1..][i].givenBack
      {
        assert events[1..][i] == events[i + 1];
      }
      RowsAreStarts(Step(s, events[0]), events[1..], before);
    }
  }

  /** Every engine start is still charged. */
  ghost predicate Charged(s: Sim) {
    forall lo, hi :: TimesIn(s.starts, lo, hi) <= CountIn(All(s.book), lo, hi)
  }

  lemma TimesAppend(ts: seq<int>, t: int, lo: int, hi: int)
    ensures TimesIn(ts + [t], lo, hi) == TimesIn(ts, lo, hi) + (if lo <= t <= hi then 1 else 0)
  {
    assert (ts + [t])[..|ts|] == ts;
  }

  /** A started engine is charged with the row of its attempt. */
  lemma StartCharged(b: Book, kind: Kind, at: int, starts: seq<int>, lo: int, hi: int)
    requires !b.main.NotAList? && TimesIn(starts, lo, hi) <= CountIn(All(b), lo, hi)
    ensures TimesIn(starts, lo, hi) <= CountIn(All(Record(b, kind, at)), lo, hi)
    ensures TimesIn(starts + [at], lo, hi) <= CountIn(All(Record(b, kind, at)), lo, hi)
  {
    RecordAll(b, kind, at);
    LiveAppend(All(b), NewRow(kind, at, b.pin));
    TimesAppend(starts, at, lo, hi);
  }

  /** A charge given back leaves the earlier ones. */
  lemma UndoneCharged(b: Book, kind: Kind, at: int, lo: int, hi: int)
    requires !b.main.NotAList? && kind != Other
    ensures CountIn(All(Refund(Record(b, kind, at), kind)), lo, hi) == CountIn(All(b), lo, hi)
    ensures !Refund(Record(b, kind, at), kind).main.NotAList?
  {
    RefundUndoesRecord(b, kind, at, at);
    LiveAppend(All(b), NewRow(kind, at, b.pin).(refunded := true));
  }

  lemma StepCharged(s: Sim, e: Event)
    requires !s.book.main.NotAList? && Charged(s) && Timely(s, e) && Paired(s, e)
    ensures !Step(s, e).book.main.NotAList? && Charged(Step(s, e))
  {
    var s' := Step(s, e);
    if e.PinSweep? {
      QuietSweep(s.book, e.now);
    }
    forall lo, hi
      ensures TimesIn(s'.starts, lo, hi) <= CountIn(All(s'.book), lo, hi)
    {
      assert TimesIn(s.starts, lo, hi) <= CountIn(All(s.book), lo, hi);
      if Dispatches(s, e) {
        StartCharged(s.book, e.kind, Cut(e.when), s.starts, lo, hi);
        UndoneCharged(s.book, e.kind, Cut(e.when), lo, hi);
      }
    }
  }

  lemma {:induction false} StartsCharged(s: Sim, events: seq<Event>)
    requires !s.book.main.NotAList? && Charged(s) && TimelyRun(s, events) && PairedRun(s, events)
    ensures Charged(Run(s, events))
    decreases |events|
  {
    if events != [] {
      StepCharged(s, events[0]);
      StartsCharged(Step(s, events[0]), events[1..]);
    }
  }

  /** AT MOST THREE ENGINES. In every paired run, even when refunds of failed starts are lost, at most
      three engines start in any 24 h by the stamps of their attempts, end excluded (at most four, end
      included), and none without a landed record. */
  lemma ThreeStarts(book: Book, clock: int, events: seq<Event>, lo: int)
    requires !book.main.NotAList? && Safe(All(book)) && Past(All(book), clock)
    requires TimelyRun(Sim(book, clock, []), events) && PairedRun(Sim(book, clock, []), events)
    ensures TimesIn(Run(Sim(book, clock, []), events).starts, lo, lo + DAY - 1) <= CAP
    ensures TimesIn(Run(Sim(book, clock, []), events).starts, lo, lo + DAY) <= CAP + 1
  {
    var s := Sim(book, clock, []);
    RunSafe(s, events);
    StartsCharged(s, events);
    ClosedDayExactly(All(Run(s, events).book), lo);
    assert InDay(All(Run(s, events).book), lo) <= CAP;
  }

  /** AT MOST THREE ENGINES, BOTH ENDS INCLUDED, when every poll decides no later than its own stamp. */
  lemma ThreeStartsClosed(book: Book, clock: int, events: seq<Event>, lo: int)
    requires !book.main.NotAList? && Safe(All(book)) && ClosedDays(All(book)) && Past(All(book), clock)
    requires TimelyRun(Sim(book, clock, []), events) && PairedRun(Sim(book, clock, []), events)
    requires forall i :: 0 <= i < |events| ==> DecidedByStamp(events[i])
    ensures TimesIn(Run(Sim(book, clock, []), events).starts, lo, lo + DAY) <= CAP
  {
    var s := Sim(book, clock, []);
    RunClosed(s, events);
    StartsCharged(s, events);
    assert InClosedDay(All(Run(s, events).book), lo) <= CAP;
  }

  // ---------------------------------------------------------------- the two ways it can break

  const M0: Option<string> := Some("m0")

  /** A state whose unified ledger holds these rows, all made under one pin. */
  function Under(rows: seq<Row>, clock: int, starts: seq<int>): Sim {
    Sim(Book(Rows(rows), Missing, M0), clock, starts)
  }

  /** A poll whose engine starts at once. */
  function StartAt(now: int): Event {
    Poll(Park, now, now, true, true, true, true)
  }

  const FIRST := 0
  const SECOND_TRY := 10 * MINUTE
  const THIRD := 40 * MINUTE

  /** When the manifest is found missing, and when it is back. */
  const MISSED := 50 * MINUTE
  const BACK := 60 * MINUTE

  /** Half a second into the second day. */
  const HALF_PAST := DAY * SECOND + SECOND / 2

  /** The row of an attempt made on a whole second. */
  function Made(at: int): Row {
    NewRow(Park, at, M0)
  }

  function ThreeRows(): seq<Row> {
    [Made(FIRST), Made(SECOND_TRY), Made(THIRD)]
  }

  lemma WholeMoments()
    ensures Cut(FIRST * SECOND) == FIRST && Cut(SECOND_TRY * SECOND) == SECOND_TRY && Cut(THIRD * SECOND) == THIRD
    ensures Cut(BACK * SECOND) == BACK && Cut(HALF_PAST) == DAY
  {
  }

  /** Three attempts at 0, 10 and 40 minutes are all allowed. */
  lemma ThreeAllowed()
    ensures BoundsAllow(Book(Rows([]), Missing, M0), FIRST * SECOND)
    ensures BoundsAllow(Book(Rows([Made(FIRST)]), Missing, M0), SECOND_TRY * SECOND)
    ensures BoundsAllow(Book(Rows([Made(FIRST), Made(SECOND_TRY)]), Missing, M0), THIRD * SECOND)
  {
    var r0, r1 := Made(FIRST), Made(SECOND_TRY);
    CountedOf([r0], Floor(SECOND_TRY * SECOND));
    CountedOf([r0, r1], Floor(THIRD * SECOND));
    assert All(Book(Rows([r0]), Missing, M0)) == [r0];
    assert All(Book(Rows([r0, r1]), Missing, M0)) == [r0, r1];
  }

  /** After the sweep nothing is counted, so a fourth attempt is allowed when the manifest is back. */
  lemma FourthAllowed()
    ensures BoundsAllow(Book(Rows(SweepRows(ThreeRows(), Floor(MISSED * SECOND), M0)), Missing, M0), BACK * SECOND)
  {
    var m := SweepRows(ThreeRows(), Floor(MISSED * SECOND), M0);
    CountedNone(m, Floor(BACK * SECOND));
    assert All(Book(Rows(m), Missing, M0)) == m;
  }

  lemma {:induction false} CountedNone(rows: seq<Row>, floor: int)
    requires forall i :: 0 <= i < |rows| ==> !Live(rows[i])
    ensures Counted(rows, floor) == []
  {
    if rows != [] {
      CountedNone(rows[..|rows| - 1], floor);
    }
  }

  lemma CountedTail(first: Row, later: seq<Row>, floor: int)
    requires |later| == 2 && !Counts(first, floor) && Counts(later[0], floor) && Counts(later[1], floor)
    ensures Counted([first] + later, floor) == later
  {
    var rows := [first] + later;
    assert rows[..2][..1] == [first] && rows[..2][1] == later[0] && rows[2] == later[1];
    assert rows[..2][..1][..0] == [];
    assert Counted(rows[..2][..1], floor) == [];
    assert Counted(rows[..2], floor) == [later[0]];
    assert later == [later[0]] + [later[1]];
  }

  /** Half a second into the second day the first row is out of the window, so a fourth attempt is allowed,
      and its stamp is the very end of the first row's closed 24 h. */
  lemma NextDayAllowed()
    ensures BoundsAllow(Book(Rows(ThreeRows()), Missing, M0), HALF_PAST)
  {
    var later := [Made(SECOND_TRY), Made(THIRD)];
    CountedTail(Made(FIRST), later, SECOND / 2);
    assert [Made(FIRST)] + later == ThreeRows();
    CountedOf(later, SECOND / 2);
    assert All(Book(Rows(ThreeRows()), Missing, M0)) == ThreeRows();
  }

  /** Three attempts and then these events. */
  function ThreeThen(tail: seq<Event>): seq<Event> {
    [StartAt(FIRST * SECOND)] + ([StartAt(SECOND_TRY * SECOND)] + ([StartAt(THIRD * SECOND)] + tail))
  }

  lemma ThreeInTurn(m0: int, m1: int, m2: int, tail: seq<Event>)
    requires m0 <= m1 <= m2
    requires BoundsAllow(Book(Rows([]), Missing, M0), m0)
    requires BoundsAllow(Book(Rows([Made(Cut(m0))]), Missing, M0), m1)
    requires BoundsAllow(Book(Rows([Made(Cut(m0)), Made(Cut(m1))]), Missing, M0), m2)
    ensures var next := Under([Made(Cut(m0)), Made(Cut(m1)), Made(Cut(m2))], m2, [Cut(m0), Cut(m1), Cut(m2)]);
            var day := [StartAt(m0)] + ([StartAt(m1)] + ([StartAt(m2)] + tail));
            && Run(Under([], m0, []), day) == Run(next, tail)
            && (TimelyRun(Under([], m0, []), day) <==> TimelyRun(next, tail))
  {
    var r0, r1, r2 := Made(Cut(m0)), Made(Cut(m1)), Made(Cut(m2));
    ThenStart([r0, r1], m1, [Cut(m0), Cut(m1)], m2, tail);
    assert [r0, r1] + [r2] == [r0, r1, r2] && [Cut(m0), Cut(m1)] + [Cut(m2)] == [Cut(m0), Cut(m1), Cut(m2)];
    ThenStart([r0], m0, [Cut(m0)], m1, [StartAt(m2)] + tail);
    assert [r0] + [r1] == [r0, r1] && [Cut(m0)] + [Cut(m1)] == [Cut(m0), Cut(m1)];
    ThenStart([], m0, [], m0, [StartAt(m1)] + ([StartAt(m2)] + tail));
    assert [] + [r0] == [r0] && [] + [Cut(m0)] == [Cut(m0)];
  }

  lemma FirstThree(tail: seq<Event>)
    ensures var next := Under(ThreeRows(), THIRD * SECOND, [FIRST, SECOND_TRY, THIRD]);
            && Run(Under([], FIRST * SECOND, []), ThreeThen(tail)) == Run(next, tail)
            && (TimelyRun(Under([], FIRST * SECOND, []), ThreeThen(tail)) <==> TimelyRun(next, tail))
  {
    ThreeAllowed();
    WholeMoments();
    ThreeInTurn(FIRST * SECOND, SECOND_TRY * SECOND, THIRD * SECOND, tail);
  }

  lemma StartStep(rows: seq<Row>, clock: int, starts: seq<int>, now: int)
    requires BoundsAllow(Book(Rows(rows), Missing, M0), now)
    ensures Step(Under(rows, clock, starts), StartAt(now)) == Under(rows + [Made(Cut(now))], now, starts + [Cut(now)])
  {
  }

  lemma ThenStart(rows: seq<Row>, clock: int, starts: seq<int>, now: int, rest: seq<Event>)
    requires BoundsAllow(Book(Rows(rows), Missing, M0), now) && clock <= now
    ensures var next := Under(rows + [Made(Cut(now))], now, starts + [Cut(now)]);
            && Run(Under(rows, clock, starts), [StartAt(now)] + rest) == Run(next, rest)
            && (TimelyRun(Under(rows, clock, starts), [StartAt(now)] + rest) <==> TimelyRun(next, rest))
  {
    StartStep(rows, clock, starts, now);
    RunCons(Under(rows, clock, starts), StartAt(now), rest);
  }

  /** A poll at the end of a run. */
  lemma LastStart(rows: seq<Row>, clock: int, starts: seq<int>, now: int)
    requires BoundsAllow(Book(Rows(rows), Missing, M0), now) && clock <= now
    ensures TimelyRun(Under(rows, clock, starts), [StartAt(now)])
    ensures Run(Under(rows, clock, starts), [StartAt(now)]).starts == starts + [Cut(now)]
  {
    ThenStart(rows, clock, starts, now, []);
    assert [StartAt(now)] + [] == [StartAt(now)];
  }

  /** A poll that finds the manifest missing sweeps, and a later one finds it back and starts. */
  function SweptTail(): seq<Event> {
    [PinSweep(MISSED * SECOND), StartAt(BACK * SECOND)]
  }

  lemma SweptDay(rows: seq<Row>, starts: seq<int>)
    requires BoundsAllow(Book(Rows(SweepRows(rows, Floor(MISSED * SECOND), M0)), Missing, M0), BACK * SECOND)
    ensures TimelyRun(Under(rows, THIRD * SECOND, starts), SweptTail())
    ensures Run(Under(rows, THIRD * SECOND, starts), SweptTail()).starts == starts + [Cut(BACK * SECOND)]
  {
    RunCons(Under(rows, THIRD * SECOND, starts), PinSweep(MISSED * SECOND), [StartAt(BACK * SECOND)]);
    assert [PinSweep(MISSED * SECOND)] + [StartAt(BACK * SECOND)] == SweptTail();
    LastStart(SweepRows(rows, Floor(MISSED * SECOND), M0), MISSED * SECOND, starts, BACK * SECOND);
  }

  /** A sweep that fires on attempts whose engines did start: their rows are given back although the
      pin was good when they were made, and a fourth engine starts the same day. */
  lemma SweepCanForgetStarts()
    ensures TimelyRun(Under([], FIRST * SECOND, []), ThreeThen(SweptTail()))
    ensures Run(Under([], FIRST * SECOND, []), ThreeThen(SweptTail())).starts == [FIRST, SECOND_TRY, THIRD] + [BACK]
    ensures TimesIn([FIRST, SECOND_TRY, THIRD] + [BACK], FIRST, DAY - 1) == 4
  {
    FirstThree(SweptTail());
    FourthAllowed();
    WholeMoments();
    SweptDay(ThreeRows(), [FIRST, SECOND_TRY, THIRD]);
    FourTimes(BACK, DAY - 1);
  }

  lemma LateRun(late: int, starts: seq<int>)
    requires starts == [FIRST, SECOND_TRY, THIRD] && THIRD * SECOND <= late
    requires BoundsAllow(Book(Rows(ThreeRows()), Missing, M0), late)
    ensures var day := ThreeThen([StartAt(late)]);
            && TimelyRun(Under([], FIRST * SECOND, []), day)
            && Run(Under([], FIRST * SECOND, []), day).starts == starts + [Cut(late)]
  {
    FirstThree([StartAt(late)]);
    LastStart(ThreeRows(), THIRD * SECOND, starts, late);
  }

  lemma LatePaired(late: int)
    ensures PairedRun(Under([], FIRST * SECOND, []), ThreeThen([StartAt(late)]))
  {
    var day := ThreeThen([StartAt(late)]);
    assert |day| == 4;
    assert day[0].Poll? && day[1].Poll? && day[2].Poll? && day[3].Poll?;
    PollsArePaired(Under([], FIRST * SECOND, []), day);
  }

  /** Without any sweep or refund: four attempts whose stamps all lie in one closed 24 h. */
  lemma FourInClosedDay()
    ensures var day := ThreeThen([StartAt(HALF_PAST)]);
            && TimelyRun(Under([], FIRST * SECOND, []), day) && PairedRun(Under([], FIRST * SECOND, []), day)
            && Run(Under([], FIRST * SECOND, []), day).starts == [FIRST, SECOND_TRY, THIRD] + [Cut(HALF_PAST)]
    ensures Cut(HALF_PAST) == FIRST + DAY
    ensures TimesIn([FIRST, SECOND_TRY, THIRD] + [Cut(HALF_PAST)], FIRST, FIRST + DAY) == 4
  {
    NextDayAllowed();
    WholeMoments();
    LateRun(HALF_PAST, [FIRST, SECOND_TRY, THIRD]);
    LatePaired(HALF_PAST);
    FourTimes(Cut(HALF_PAST), FIRST + DAY);
  }

  lemma {:induction false} PollsArePaired(s: Sim, events: seq<Event>)
    requires forall i :: 0 <= i < |events| ==> events[i].Poll?
    ensures PairedRun(s, events)
    decreases |events|
  {
    if events != [] {
      PollsArePaired(Step(s, events[0]), events[1..]);
    }
  }

  lemma FourTimes(last: int, end: int)
    requires THIRD <= last <= end
    ensures TimesIn([FIRST, SECOND_TRY, THIRD] + [last], FIRST, end) == 4
  {
    var one, two, three := [FIRST], [FIRST, SECOND_TRY], [FIRST, SECOND_TRY, THIRD];
    assert one[..0] == [] && two[..1] == one && three[..2] == two && (three + [last])[..3] == three;
    assert TimesIn(one, FIRST, end) == 1;
    assert TimesIn(three, FIRST, end) == 3;
  }

  lemma RunCons(s: Sim, e: Event, rest: seq<Event>)
    ensures Run(s, [e] + rest) == Run(Step(s, e), rest)
    ensures TimelyRun(s, [e] + rest) <==> Timely(s, e) && TimelyRun(Step(s, e), rest)
  {
    assert ([e] + rest)[1..] == rest;
  }

  /** All-live rows inside the window: the count and the latest stamp. */
  lemma CountedOf(rows: seq<Row>, floor: int)
    requires 1 <= |rows| <= 2 && forall i :: 0 <= i < |rows| ==> Counts(rows[i], floor)
    requires |rows| == 2 ==> rows[0].at.Some? && rows[1].at.Some? && rows[0].at.value <= rows[1].at.value
    ensures Counted(rows, floor) == rows && Latest(rows) == rows[|rows| - 1].at
    ensures [] + rows == rows
  {
    assert rows[..1][..0] == [];
    assert rows[..1] == [rows[0]];
    if |rows| == 2 {
      assert rows == rows[..1] + [rows[1]];
    }
  }

  function Repeat(e: Event, n: nat): seq<Event> {
    if n == 0 then [] else [e] + Repeat(e, n - 1)
  }

  /** A ledger value that is not a list is the other way: the record reports success and writes nothing,
      so the bounds never close and every poll starts an engine. */
  lemma {:induction false} MalformedLedgerNeverStops(pin: Option<string>, starts: seq<int>, now: int, n: nat)
    ensures var s := Sim(Book(NotAList, Missing, pin), now, starts);
            var events := Repeat(Poll(Park, now, now, true, true, true, true), n);
            && TimelyRun(s, events)
            && |Run(s, events).starts| == |starts| + n
    decreases n
  {
    if n > 0 {
      var s := Sim(Book(NotAList, Missing, pin), now, starts);
      var e := Poll(Park, now, now, true, true, true, true);
      assert Unified(s.book, now) == [];
      assert Step(s, e) == Sim(s.book, now, starts + [Cut(now)]);
      MalformedLedgerNeverStops(pin, starts + [Cut(now)], now, n - 1);
      assert Repeat(e, n)[1..] == Repeat(e, n - 1);
    }
  }
}
