/** The attempt ledger of the automatic resume: a rolling cap with a backoff ladder, two kinds of
    attempt on one stream, refunds, and what holds over whole runs. Moments are in microseconds, the
    resolution of the clock; the stamps that attempts leave are in whole seconds. */
module AutoResumeLedger {
  import opened Text

  const CAP := 3
  const SECOND := 1_000_000
  const MINUTE := 60
  const DAY := 24 * 60 * MINUTE

  /** The stamp of a moment: its whole seconds. */
  function Cut(moment: int): (stamp: int)
    ensures stamp * SECOND <= moment < stamp * SECOND + SECOND
  {
    moment / SECOND
  }

  /** Where the window of a moment begins. */
  function Floor(now: int): int {
    now - DAY * SECOND
  }

  datatype Kind = Park | Crash | Other

  /** One attempt row, stamped in seconds; `at` is None for a stamp that does not parse, `mine` says who wrote it. */
  datatype Row = Row(at: Option<int>, kind: Kind, mine: bool, refunded: bool, pin: Option<string>)

  /** The value under a ledger key: none yet, the rows, or something that is not a list. */
  datatype Ledger = Missing | Rows(rows: seq<Row>) | NotAList

  /** The unified ledger, the old crash ledger, and the manifest pin of the run. */
  datatype Book = Book(main: Ledger, legacy: Ledger, pin: Option<string>)

  function RowsOf(l: Ledger): seq<Row> {
    if l.Rows? then l.rows else []
  }

  /** Every row of both ledgers; new rows go last. */
  function All(b: Book): seq<Row> {
    RowsOf(b.legacy) + RowsOf(b.main)
  }

  predicate Live(r: Row) {
    !r.refunded && r.at.Some?
  }

  predicate Counts(r: Row, floor: int) {
    Live(r) && r.at.value * SECOND >= floor
  }

  function Counted(rows: seq<Row>, floor: int): seq<Row> {
    if rows == [] then []
    else
      var rest := Counted(rows[..|rows| - 1], floor);
      if Counts(rows[|rows| - 1], floor) then rest + [rows[|rows| - 1]] else rest
  }

  /** The spend against the one cap: both ledgers, oldest ledger first. Only its size and its latest
      stamp are ever read, so the order does not matter. */
  function Unified(b: Book, now: int): seq<Row> {
    Counted(All(b), Floor(now))
  }

  function Latest(rows: seq<Row>): Option<int> {
    if rows == [] then None
    else
      var rest := Latest(rows[..|rows| - 1]);
      match rows[|rows| - 1].at
      case None => rest
      case Some(t) => if rest.Some? && rest.value > t then rest else Some(t)
  }

  /** Minutes to wait before the next attempt, by how many are counted. */
  function WaitMinutes(counted: nat): int {
    if counted == 0 then 0 else if counted == 1 then 10 else 30
  }

  /** Fewer attempts are counted than the cap. */
  predicate CapLeft(rows: seq<Row>, now: int) {
    |Counted(rows, Floor(now))| < CAP
  }

  /** The latest counted attempt is as long ago as the backoff asks. */
  predicate Waited(rows: seq<Row>, now: int) {
    var counted := Counted(rows, Floor(now));
    var latest := Latest(counted);
    WaitMinutes(|counted|) != 0 && latest.Some? ==>
      now - latest.value * SECOND >= WaitMinutes(|counted|) * MINUTE * SECOND
  }

  /** The cap and the backoff over one stream of rows. */
  predicate RoomFor(rows: seq<Row>, now: int) {
    CapLeft(rows, now) && Waited(rows, now)
  }

  /** The cap and the backoff, as both decisions apply them. */
  predicate BoundsAllow(b: Book, now: int) {
    RoomFor(All(b), now)
  }

  // ---------------------------------------------------------------- writes

  function NewRow(kind: Kind, at: int, pin: Option<string>): Row {
    Row(Some(at), kind, true, false, if pin == Some("") then None else pin)
  }

  function Record(b: Book, kind: Kind, at: int): Book {
    match b.main
    case Missing => b.(main := Rows([NewRow(kind, at, b.pin)]))
    case Rows(rows) => b.(main := Rows(rows + [NewRow(kind, at, b.pin)]))
    case NotAList => b
  }

  /** May a refund of this kind mark the row? A park refund never touches a crash row, and the other
      way round; neither touches a row another writer put there. */
  predicate Refundable(r: Row, kind: Kind) {
    !r.refunded && r.mine && (kind == Crash <==> r.kind == Crash)
  }

  /** Marks the newest refundable row. */
  function MarkLast(rows: seq<Row>, kind: Kind): seq<Row> {
    if rows == [] then []
    else
      var last := rows[|rows| - 1];
      if Refundable(last, kind) then rows[..|rows| - 1] + [last.(refunded := true)]
      else MarkLast(rows[..|rows| - 1], kind) + [last]
  }

  function MarkIn(l: Ledger, kind: Kind): Ledger {
    if l.Rows? then Rows(MarkLast(l.rows, kind)) else l
  }

  /** A crash refund falls back to the old crash ledger; a park refund looks at the unified one only. */
  function Refund(b: Book, kind: Kind): Book {
    var main := MarkIn(b.main, kind);
    if main != b.main || kind != Crash then b.(main := main)
    else b.(legacy := MarkIn(b.legacy, kind))
  }

  predicate Stale(r: Row, floor: int, pin: Option<string>) {
    Counts(r, floor) && r.pin == pin && pin.Some? && pin != Some("")
  }

  function SweepRows(rows: seq<Row>, floor: int, pin: Option<string>): seq<Row> {
    seq(|rows|, i requires 0 <= i < |rows| =>
      if Stale(rows[i], floor, pin) then rows[i].(refunded := true) else rows[i])
  }

  function SweepIn(l: Ledger, floor: int, pin: Option<string>): Ledger {
    if l.Rows? then Rows(SweepRows(l.rows, floor, pin)) else l
  }

  /** The pin sweep: every counted row that carries the current pin is refunded. */
  function Sweep(b: Book, now: int): Book {
    Book(SweepIn(b.main, Floor(now), b.pin), SweepIn(b.legacy, Floor(now), b.pin), b.pin)
  }

  // ---------------------------------------------------------------- the ledger as an object

  class RunState {
    var main: Ledger
    var legacy: Ledger
    var pin: Option<string>

    constructor (book: Book)
      ensures Now() == book
    {
      main, legacy, pin := book.main, book.legacy, book.pin;
    }

    function Now(): Book
      reads this
    {
      Book(main, legacy, pin)
    }

    /** Appends one row, stamped with the moment of the call, if the locked merge lands. */
    method RecordAttempt(kind: Kind, when: int, lands: bool) returns (ok: bool)
      modifies this`main
      ensures ok == lands
      ensures Now() == if lands then Record(old(Now()), kind, Cut(when)) else old(Now())
    {
      ok := lands;
      if lands {
        if main.Missing? {
          main := Rows([]);
        }
        if main.Rows? {
          var row := NewRow(kind, Cut(when), pin);
          main := Rows(main.rows + [row]);
          assert [] + [row] == [row];
        }
      }
    }

    /** Walks the rows newest first and marks the first one the kind may give back. */
    method MarkNewest(rows: seq<Row>, kind: Kind) returns (marked: seq<Row>, done: bool)
      ensures marked == MarkLast(rows, kind)
      ensures done <==> marked != rows
    {
      var i := |rows|;
      marked, done := rows, false;
      assert rows[..|rows|] == rows;
      while i > 0
        invariant 0 <= i <= |rows|
        invariant MarkLast(rows, kind) == MarkLast(rows[..i], kind) + rows[i..]
      {
        MarkStep(rows, i, kind);
        if Refundable(rows[i - 1], kind) {
          marked, done := rows[i - 1 := rows[i - 1].(refunded := true)], true;
          assert marked[i - 1] != rows[i - 1];
          return;
        }
        i := i - 1;
      }
    }

    method RefundLast(kind: Kind, lands: bool) returns (done: bool)
      modifies this`main, this`legacy
      ensures Now() == if lands then Refund(old(Now()), kind) else old(Now())
      ensures done <==> lands && Now() != old(Now())
    {
      done := false;
      if lands {
        if main.Rows? {
          var rows, hit := MarkNewest(main.rows, kind);
          main, done := Rows(rows), hit;
        }
        if !done && kind == Crash && legacy.Rows? {
          var rows, hit := MarkNewest(legacy.rows, kind);
          legacy, done := Rows(rows), hit;
        }
      }
    }

    method SweepLedger(rows: seq<Row>, floor: int) returns (swept: seq<Row>, count: nat)
      ensures swept == SweepRows(rows, floor, pin)
      ensures count == 0 <==> swept == rows
    {
      swept, count := [], 0;
      var i := 0;
      while i < |rows|
        invariant 0 <= i <= |rows| && |swept| == i
        invariant forall j :: 0 <= j < i ==> swept[j] == SweepRows(rows, floor, pin)[j]
        invariant count == 0 <==> swept == rows[..i]
      {
        ghost var before := swept;
        if Stale(rows[i], floor, pin) {
          swept, count := swept + [rows[i].(refunded := true)], count + 1;
          assert swept[i] != rows[..i + 1][i];
        } else {
          swept := swept + [rows[i]];
          assert rows[..i + 1] == rows[..i] + [rows[i]];
          assert swept == rows[..i + 1] ==> before == swept[..i] == rows[..i + 1][..i] == rows[..i];
        }
        i := i + 1;
      }
      assert rows[..|rows|] == rows;
    }

    /** The sweep of both ledgers, run only on a provable pin mismatch that nothing can cure. */
    method SweepPins(now: int, mismatch: bool, repinAvailable: bool) returns (count: nat)
      modifies this`main, this`legacy
      ensures Now() == if mismatch && !repinAvailable then Sweep(old(Now()), now) else old(Now())
      ensures count == 0 <==> Now() == old(Now())
    {
      count := 0;
      if mismatch && !repinAvailable {
        if main.Rows? {
          var rows, n := SweepLedger(main.rows, Floor(now));
          main, count := Rows(rows), n;
        }
        if legacy.Rows? {
          var rows, n := SweepLedger(legacy.rows, Floor(now));
          legacy, count := Rows(rows), count + n;
        }
      }
    }

    /** Size and latest stamp of the unified stream. */
    method Spend(now: int) returns (count: nat, latest: Option<int>)
      ensures count == |Unified(Now(), now)| && latest == Latest(Unified(Now(), now))
    {
      var rows := All(Now());
      count, latest := 0, None;
      var i := 0;
      while i < |rows|
        invariant 0 <= i <= |rows|
        invariant count == |Counted(rows[..i], Floor(now))|
        invariant latest == Latest(Counted(rows[..i], Floor(now)))
      {
        CountedStep(rows, i, Floor(now));
        if Counts(rows[i], Floor(now)) {
          LatestAppend(Counted(rows[..i], Floor(now)), rows[i]);
          latest := if latest.Some? && latest.value > rows[i].at.value then latest else rows[i].at;
          count := count + 1;
        }
        i := i + 1;
      }
      assert rows[..|rows|] == rows;
    }

    /** One poller tick after its gates: bounds first, then the record, and only then a dispatch. */
    method Tick(kind: Kind, now: int, when: int, gates: bool, lands: bool) returns (dispatch: bool)
      modifies this`main
      ensures dispatch <==> gates && BoundsAllow(old(Now()), now) && lands
      ensures Now() == if dispatch then Record(old(Now()), kind, Cut(when)) else old(Now())
    {
      dispatch := false;
      var count, latest := Spend(now);
      if !gates || count >= CAP {
        return;
      }
      if WaitMinutes(count) != 0 && latest.Some? && now - latest.value * SECOND < WaitMinutes(count) * MINUTE * SECOND {
        return;
      }
      dispatch := RecordAttempt(kind, when, lands);
    }
  }

  lemma MarkStep(rows: seq<Row>, i: nat, kind: Kind)
    requires 0 < i <= |rows|
    ensures MarkLast(rows[..i], kind) + rows[i..] ==
            if Refundable(rows[i - 1], kind) then rows[i - 1 := rows[i - 1].(refunded := true)]
            else MarkLast(rows[..i - 1], kind) + rows[i - 1..]
  {
    assert rows[..i][..i - 1] == rows[..i - 1];
    assert [rows[i - 1]] + rows[i..] == rows[i - 1..];
  }

  lemma CountedStep(rows: seq<Row>, i: nat, floor: int)
    requires i < |rows|
    ensures Counted(rows[..i + 1], floor) ==
            if Counts(rows[i], floor) then Counted(rows[..i], floor) + [rows[i]] else Counted(rows[..i], floor)
  {
    assert rows[..i + 1][..i] == rows[..i];
  }

  lemma LatestAppend(c: seq<Row>, r: Row)
    ensures Latest(c + [r]) ==
            if r.at.None? || (Latest(c).Some? && Latest(c).value > r.at.value) then Latest(c) else r.at
  {
    assert (c + [r])[..|c|] == c;
  }

  lemma {:induction false} MarkLastSame(rows: seq<Row>, kind: Kind)
    ensures |MarkLast(rows, kind)| == |rows|
    ensures (forall i :: 0 <= i < |rows| ==> !Refundable(rows[i], kind)) ==> MarkLast(rows, kind) == rows
    ensures forall i :: 0 <= i < |rows| ==>
              MarkLast(rows, kind)[i] == rows[i] || MarkLast(rows, kind)[i] == rows[i].(refunded := true)
  {
    if rows != [] {
      MarkLastSame(rows[..|rows| - 1], kind);
    }
  }

  /** The row of a new attempt: un-refunded, this writer's own, and under the run's pin unless that is empty. */
  lemma RecordedRow(b: Book, kind: Kind, at: int)
    requires !b.main.NotAList?
    ensures var after := Record(b, kind, at);
            && after.legacy == b.legacy && after.pin == b.pin && after.main.Rows?
            && |after.main.rows| == |RowsOf(b.main)| + 1 && after.main.rows[..|RowsOf(b.main)|] == RowsOf(b.main)
            && var row := after.main.rows[|RowsOf(b.main)|];
               && row.at == Some(at) && row.kind == kind && row.mine && !row.refunded
               && (row.pin.Some? ==> row.pin == b.pin && row.pin.value != "")
               && (row.pin.None? ==> b.pin.None? || b.pin.value == "")
  {
  }

  // ---------------------------------------------------------------- which charges are given back

  /** THE SWEEP, row by row: a row is refunded afterwards exactly when it was, or its stamp is within 24 h of now
      and it carries the pin the book has now, which is not empty. Nothing else changes, so a charge made under
      another pin survives every sweep. */
  lemma SweptExactly(b: Book, now: int, i: nat)
    requires i < |All(b)|
    ensures |All(Sweep(b, now))| == |All(b)| && Sweep(b, now).pin == b.pin
    ensures var r, s := All(b)[i], All(Sweep(b, now))[i];
            && s == r.(refunded := s.refunded)
            && (s.refunded <==>
                  r.refunded
                  || (r.at.Some? && now - r.at.value * SECOND <= 24 * 60 * 60 * SECOND
                      && r.pin.Some? && r.pin.value != "" && b.pin == Some(r.pin.value)))
  {
  }

  lemma SweepKeepsKinds(b: Book, now: int)
    ensures |RowsOf(Sweep(b, now).main)| == |RowsOf(b.main)| && |RowsOf(Sweep(b, now).legacy)| == |RowsOf(b.legacy)|
    ensures !b.main.Rows? ==> Sweep(b, now).main == b.main
    ensures !b.legacy.Rows? ==> Sweep(b, now).legacy == b.legacy
  {
  }

  /** A charge this writer made and has not given back yet: a crash row to a crash refund, any other row to
      any other refund. */
  predicate Owed(r: Row, kind: Kind) {
    r.mine && !r.refunded && (if kind == Crash then r.kind == Crash else r.kind != Crash)
  }

  /** Row i is the newest such charge. */
  ghost predicate Newest(rows: seq<Row>, kind: Kind, i: int) {
    0 <= i < |rows| && Owed(rows[i], kind) && forall j :: i < j < |rows| ==> !Owed(rows[j], kind)
  }

  ghost predicate NoneOwed(rows: seq<Row>, kind: Kind) {
    forall i :: 0 <= i < |rows| ==> !Owed(rows[i], kind)
  }

  lemma {:induction false} MarkedNone(rows: seq<Row>, kind: Kind)
    requires NoneOwed(rows, kind)
    ensures MarkLast(rows, kind) == rows
  {
    if rows != [] {
      MarkedNone(rows[..|rows| - 1], kind);
    }
  }

  lemma {:induction false} MarkedNewest(rows: seq<Row>, kind: Kind, i: nat)
    requires Newest(rows, kind, i)
    ensures MarkLast(rows, kind) == rows[i := rows[i].(refunded := true)]
  {
    var n := |rows| - 1;
    if i < n {
      assert !Owed(rows[n], kind);
      MarkedNewest(rows[..n], kind, i);
    }
  }

  /** THE REFUND gives back the newest charge of its kind, in the unified ledger or, for a crash that has none
      there, in the old crash ledger, and changes no other row. */
  lemma RefundExactly(b: Book, kind: Kind)
    ensures var after, main, legacy := Refund(b, kind), RowsOf(b.main), RowsOf(b.legacy);
            && (forall i :: Newest(main, kind, i) ==>
                  after == b.(main := Rows(main[i := main[i].(refunded := true)])))
            && (NoneOwed(main, kind) && kind == Crash ==>
                  forall i :: Newest(legacy, kind, i) ==>
                    after == b.(legacy := Rows(legacy[i := legacy[i].(refunded := true)])))
            && (NoneOwed(main, kind) && (kind != Crash || NoneOwed(legacy, kind)) ==> after == b)
  {
    forall i | Newest(RowsOf(b.main), kind, i)
      ensures MarkIn(b.main, kind) == Rows(RowsOf(b.main)[i := RowsOf(b.main)[i].(refunded := true)])
      ensures MarkIn(b.main, kind) != b.main
    {
      MarkedNewest(RowsOf(b.main), kind, i);
      assert MarkLast(RowsOf(b.main), kind)[i] != RowsOf(b.main)[i];
    }
    if NoneOwed(RowsOf(b.main), kind) {
      MarkedNone(RowsOf(b.main), kind);
      forall i | Newest(RowsOf(b.legacy), kind, i)
        ensures MarkIn(b.legacy, kind) == Rows(RowsOf(b.legacy)[i := RowsOf(b.legacy)[i].(refunded := true)])
      {
        MarkedNewest(RowsOf(b.legacy), kind, i);
      }
      if NoneOwed(RowsOf(b.legacy), kind) {
        MarkedNone(RowsOf(b.legacy), kind);
      }
    }
  }

  /** Live rows that are crash rows, or those that are not. */
  function LiveOf(rows: seq<Row>, crash: bool): nat {
    if rows == [] then 0
    else LiveOf(rows[..|rows| - 1], crash)
         + (if Live(rows[|rows| - 1]) && (rows[|rows| - 1].kind == Crash) == crash then 1 else 0)
  }

  lemma {:induction false} MarkKeepsOther(rows: seq<Row>, kind: Kind)
    ensures |MarkLast(rows, kind)| == |rows|
    ensures LiveOf(MarkLast(rows, kind), kind != Crash) == LiveOf(rows, kind != Crash)
  {
    if rows != [] {
      var n := |rows| - 1;
      MarkKeepsOther(rows[..n], kind);
      var marked := MarkLast(rows, kind);
      assert marked[..n] == if Refundable(rows[n], kind) then rows[..n] else MarkLast(rows[..n], kind);
    }
  }

  lemma {:induction false} LiveParts(a: seq<Row>, c: seq<Row>, crash: bool)
    ensures LiveOf(a + c, crash) == LiveOf(a, crash) + LiveOf(c, crash)
  {
    if c == [] {
      assert a + c == a;
    } else {
      assert (a + c)[..|a + c| - 1] == a + c[..|c| - 1];
      LiveParts(a, c[..|c| - 1], crash);
    }
  }

  /** A refund never touches a charge of the other kind. */
  lemma OtherKindKept(b: Book, kind: Kind)
    ensures LiveOf(All(Refund(b, kind)), kind != Crash) == LiveOf(All(b), kind != Crash)
  {
    var after := Refund(b, kind);
    MarkKeepsOther(RowsOf(b.main), kind);
    MarkKeepsOther(RowsOf(b.legacy), kind);
    LiveParts(RowsOf(b.legacy), RowsOf(b.main), kind != Crash);
    LiveParts(RowsOf(after.legacy), RowsOf(after.main), kind != Crash);
  }

  // ---------------------------------------------------------------- what a safe ledger is

  function CountIn(rows: seq<Row>, lo: int, hi: int): nat {
    if rows == [] then 0
    else CountIn(rows[..|rows| - 1], lo, hi)
         + (if Live(rows[|rows| - 1]) && lo <= rows[|rows| - 1].at.value <= hi then 1 else 0)
  }

  /** Live rows in the 24 h that begin at lo, their end excluded. */
  function InDay(rows: seq<Row>, lo: int): nat {
    CountIn(rows, lo, lo + DAY - 1)
  }

  predicate Apart(a: int, b: int, gap: int) {
    a - b >= gap || b - a >= gap
  }

  /** At most three live rows in any 24 h, end excluded; any two 10 minutes apart; any three spanning 40. */
  ghost predicate Safe(rows: seq<Row>) {
    && (forall lo :: InDay(rows, lo) <= CAP)
    && PairsApart(rows)
    && TriplesSpan(rows)
  }

  ghost predicate PairsApart(rows: seq<Row>) {
    forall i, j :: 0 <= i < j < |rows| && Live(rows[i]) && Live(rows[j]) ==>
      Apart(rows[i].at.value, rows[j].at.value, 10 * MINUTE)
  }

  ghost predicate TriplesSpan(rows: seq<Row>) {
    forall i, j, k :: 0 <= i < j < k < |rows| && Live(rows[i]) && Live(rows[j]) && Live(rows[k]) ==>
      var a, b, c := rows[i].at.value, rows[j].at.value, rows[k].at.value;
      Apart(a, b, 40 * MINUTE) || Apart(b, c, 40 * MINUTE) || Apart(a, c, 40 * MINUTE)
  }

  predicate Past(rows: seq<Row>, clock: int) {
    forall i :: 0 <= i < |rows| && Live(rows[i]) ==> rows[i].at.value * SECOND <= clock
  }

  /** Every live row of one interval lies in the other. */
  lemma {:induction false} CountWithin(rows: seq<Row>, lo: int, hi: int, lo': int, hi': int)
    requires forall i :: 0 <= i < |rows| && Live(rows[i]) && lo <= rows[i].at.value <= hi ==>
               lo' <= rows[i].at.value <= hi'
    ensures CountIn(rows, lo, hi) <= CountIn(rows, lo', hi')
  {
    if rows != [] {
      CountWithin(rows[..|rows| - 1], lo, hi, lo', hi');
    }
  }

  /** An interval of seconds whose live rows all count holds no more of them than are counted. */
  lemma {:induction false} CountCounted(rows: seq<Row>, lo: int, hi: int, floor: int)
    requires lo * SECOND >= floor
    ensures CountIn(rows, lo, hi) <= |Counted(rows, floor)|
  {
    if rows != [] {
      CountCounted(rows[..|rows| - 1], lo, hi, floor);
    }
  }

  /** The latest stamp of the counted rows bounds each of them. */
  lemma {:induction false} LatestBounds(rows: seq<Row>, floor: int, i: nat)
    requires i < |rows| && Counts(rows[i], floor)
    ensures |Counted(rows, floor)| >= 1
    ensures Latest(Counted(rows, floor)).Some? && rows[i].at.value <= Latest(Counted(rows, floor)).value
  {
    var n := |rows| - 1;
    LatestAppend(Counted(rows[..n], floor), rows[n]);
    if i < n {
      LatestBounds(rows[..n], floor, i);
    }
  }

  lemma {:induction false} TwoCounted(rows: seq<Row>, floor: int, i: nat, j: nat)
    requires i < j < |rows| && Counts(rows[i], floor) && Counts(rows[j], floor)
    ensures |Counted(rows, floor)| >= 2
  {
    var n := |rows| - 1;
    if j < n {
      TwoCounted(rows[..n], floor, i, j);
    } else {
      LatestBounds(rows[..n], floor, i);
    }
  }

  /** Marking rows refunded keeps a ledger safe. */
  ghost predicate OnlyMarked(rows: seq<Row>, after: seq<Row>) {
    && |after| == |rows|
    && forall i :: 0 <= i < |rows| ==> after[i] == rows[i] || after[i] == rows[i].(refunded := true)
  }

  lemma {:induction false} MarkedCount(rows: seq<Row>, after: seq<Row>, lo: int, hi: int)
    requires OnlyMarked(rows, after)
    ensures CountIn(after, lo, hi) <= CountIn(rows, lo, hi)
  {
    if rows != [] {
      MarkedCount(rows[..|rows| - 1], after[..|after| - 1], lo, hi);
    }
  }

  lemma MarkedSafe(rows: seq<Row>, after: seq<Row>, clock: int)
    requires OnlyMarked(rows, after) && Safe(rows) && Past(rows, clock)
    ensures Safe(after) && Past(after, clock)
  {
    forall lo
      ensures InDay(after, lo) <= CAP
    {
      MarkedCount(rows, after, lo, lo + DAY - 1);
      assert InDay(rows, lo) <= CAP;
    }
    assert forall i :: 0 <= i < |rows| && Live(after[i]) ==> Live(rows[i]) && after[i] == rows[i];
  }

  lemma DayKept(rows: seq<Row>, row: Row, now: int)
    requires Live(row) && Cut(now) <= row.at.value
    requires |Counted(rows, Floor(now))| < CAP && forall lo :: InDay(rows, lo) <= CAP
    ensures forall lo :: InDay(rows + [row], lo) <= CAP
  {
    var all, at := rows + [row], row.at.value;
    forall lo
      ensures InDay(all, lo) <= CAP
    {
      assert all[..|all| - 1] == rows;
      assert InDay(rows, lo) <= CAP;
      if lo <= at <= lo + DAY - 1 {
        CountWithin(rows, lo, lo + DAY - 1, at - DAY + 1, lo + DAY - 1);
        CountCounted(rows, at - DAY + 1, lo + DAY - 1, Floor(now));
      }
    }
  }

  /** A stamp is as far from an earlier whole second as the moment it is cut from, in whole seconds. */
  lemma CutGap(now: int, at: int, last: int, gap: int)
    requires Cut(now) <= at && now - last * SECOND >= gap * SECOND
    ensures at - last >= gap
  {
  }

  /** The new attempt is 10 minutes after every live row, and 40 after one of any two. */
  lemma NewGaps(rows: seq<Row>, at: int, now: int)
    requires Cut(now) <= at && RoomFor(rows, now) && PairsApart(rows)
    ensures forall i :: 0 <= i < |rows| && Live(rows[i]) ==> at - rows[i].at.value >= 10 * MINUTE
    ensures forall i, j :: 0 <= i < j < |rows| && Live(rows[i]) && Live(rows[j]) ==>
              at - rows[i].at.value >= 40 * MINUTE || at - rows[j].at.value >= 40 * MINUTE
  {
    forall i | 0 <= i < |rows| && Live(rows[i])
      ensures at - rows[i].at.value >= 10 * MINUTE
    {
      OneGap(rows, at, now, i);
    }
    forall i, j | 0 <= i < j < |rows| && Live(rows[i]) && Live(rows[j])
      ensures at - rows[i].at.value >= 40 * MINUTE || at - rows[j].at.value >= 40 * MINUTE
    {
      TwoGaps(rows, at, now, i, j);
    }
  }

  lemma OneGap(rows: seq<Row>, at: int, now: int, i: nat)
    requires Cut(now) <= at && RoomFor(rows, now) && i < |rows| && Live(rows[i])
    ensures at - rows[i].at.value >= 10 * MINUTE
    ensures !Counts(rows[i], Floor(now)) ==> at - rows[i].at.value >= DAY
  {
    if Counts(rows[i], Floor(now)) {
      LatestBounds(rows, Floor(now), i);
      CutGap(now, at, rows[i].at.value, 10 * MINUTE);
    } else {
      CutGap(now, at, rows[i].at.value, DAY);
    }
  }

  lemma TwoGaps(rows: seq<Row>, at: int, now: int, i: nat, j: nat)
    requires Cut(now) <= at && RoomFor(rows, now) && PairsApart(rows)
    requires i < j < |rows| && Live(rows[i]) && Live(rows[j])
    ensures at - rows[i].at.value >= 40 * MINUTE || at - rows[j].at.value >= 40 * MINUTE
  {
    var floor := Floor(now);
    OneGap(rows, at, now, i);
    OneGap(rows, at, now, j);
    if Counts(rows[i], floor) && Counts(rows[j], floor) {
      TwoCounted(rows, floor, i, j);
      LatestBounds(rows, floor, i);
      LatestBounds(rows, floor, j);
      CutGap(now, at, rows[i].at.value, 30 * MINUTE);
      CutGap(now, at, rows[j].at.value, 30 * MINUTE);
      assert Apart(rows[i].at.value, rows[j].at.value, 10 * MINUTE);
    }
  }

  lemma PairsKept(rows: seq<Row>, row: Row)
    requires PairsApart(rows) && Live(row)
    requires forall i :: 0 <= i < |rows| && Live(rows[i]) ==> row.at.value - rows[i].at.value >= 10 * MINUTE
    ensures PairsApart(rows + [row])
  {
    var all := rows + [row];
    forall i, j | 0 <= i < j < |all| && Live(all[i]) && Live(all[j])
      ensures Apart(all[i].at.value, all[j].at.value, 10 * MINUTE)
    {
      assert all[i] == rows[i];
      assert j < |rows| ==> all[j] == rows[j];
    }
  }

  lemma TriplesKept(rows: seq<Row>, row: Row)
    requires TriplesSpan(rows) && Live(row)
    requires forall i, j :: 0 <= i < j < |rows| && Live(rows[i]) && Live(rows[j]) ==>
               row.at.value - rows[i].at.value >= 40 * MINUTE || row.at.value - rows[j].at.value >= 40 * MINUTE
    ensures TriplesSpan(rows + [row])
  {
    var all := rows + [row];
    forall i, j, k | 0 <= i < j < k < |all| && Live(all[i]) && Live(all[j]) && Live(all[k])
      ensures var a, b, c := all[i].at.value, all[j].at.value, all[k].at.value;
              Apart(a, b, 40 * MINUTE) || Apart(b, c, 40 * MINUTE) || Apart(a, c, 40 * MINUTE)
    {
      assert all[i] == rows[i] && all[j] == rows[j];
      assert k < |rows| ==> all[k] == rows[k];
    }
  }

  /** An attempt the bounds allow keeps a ledger safe; its stamp is cut from a moment not before the
      decision's. */
  lemma AttemptSafe(rows: seq<Row>, row: Row, now: int)
    requires Safe(rows) && Live(row) && Cut(now) <= row.at.value && RoomFor(rows, now)
    ensures Safe(rows + [row])
  {
    DayKept(rows, row, now);
    NewGaps(rows, row.at.value, now);
    PairsKept(rows, row);
    TriplesKept(rows, row);
  }

  // ---------------------------------------------------------------- the closed day

  /** Live rows in the 24 h that begin at lo, both ends included. */
  function InClosedDay(rows: seq<Row>, lo: int): nat {
    CountIn(rows, lo, lo + DAY)
  }

  lemma {:induction false} CountSplit(rows: seq<Row>, lo: int, mid: int, hi: int)
    requires lo <= mid <= hi
    ensures CountIn(rows, lo, hi) == CountIn(rows, lo, mid - 1) + CountIn(rows, mid, hi)
  {
    if rows != [] {
      CountSplit(rows[..|rows| - 1], lo, mid, hi);
    }
  }

  predicate StandsAt(rows: seq<Row>, at: int) {
    exists i :: 0 <= i < |rows| && Live(rows[i]) && rows[i].at.value == at
  }

  lemma {:induction false} OneStandsAt(rows: seq<Row>, at: int)
    requires PairsApart(rows)
    ensures CountIn(rows, at, at) == if StandsAt(rows, at) then 1 else 0
  {
    if rows != [] {
      var n := |rows| - 1;
      OneStandsAt(rows[..n], at);
      if Live(rows[n]) && rows[n].at.value == at {
        forall i | 0 <= i < n && Live(rows[i])
          ensures rows[..n][i].at.value != at
        {
          assert Apart(rows[i].at.value, rows[n].at.value, 10 * MINUTE);
        }
        assert !StandsAt(rows[..n], at);
      } else {
        assert StandsAt(rows, at) <==> StandsAt(rows[..n], at) by {
          if StandsAt(rows[..n], at) {
            var i :| 0 <= i < n && Live(rows[..n][i]) && rows[..n][i].at.value == at;
            assert rows[i] == rows[..n][i];
          }
          if StandsAt(rows, at) {
            var i :| 0 <= i < |rows| && Live(rows[i]) && rows[i].at.value == at;
            assert rows[..n][i] == rows[i];
          }
        }
      }
    }
  }

  /** With both ends included a safe ledger may hold four rows, exactly when a row stands at the end of 24 h
      that hold three. */
  lemma ClosedDayExactly(rows: seq<Row>, lo: int)
    requires Safe(rows)
    ensures InClosedDay(rows, lo) <= CAP + 1
    ensures InClosedDay(rows, lo) == CAP + 1 <==> InDay(rows, lo) == CAP && StandsAt(rows, lo + DAY)
  {
    CountSplit(rows, lo, lo + DAY, lo + DAY);
    OneStandsAt(rows, lo + DAY);
    assert InDay(rows, lo) <= CAP;
  }

  /** At most three live rows in any 24 h, both ends included. */
  ghost predicate ClosedDays(rows: seq<Row>) {
    forall lo :: InClosedDay(rows, lo) <= CAP
  }

  lemma MarkedClosed(rows: seq<Row>, after: seq<Row>)
    requires OnlyMarked(rows, after) && ClosedDays(rows)
    ensures ClosedDays(after)
  {
    forall lo
      ensures InClosedDay(after, lo) <= CAP
    {
      MarkedCount(rows, after, lo, lo + DAY);
      assert InClosedDay(rows, lo) <= CAP;
    }
  }

  /** An attempt keeps three rows to every closed 24 h exactly when fewer than three live rows stand in the
      24 h that end at its stamp, both ends included. */
  lemma ClosedKeptExactly(rows: seq<Row>, row: Row)
    requires Live(row) && Past(rows, row.at.value * SECOND)
    requires ClosedDays(rows)
    ensures ClosedDays(rows + [row]) <==> InClosedDay(rows, row.at.value - DAY) < CAP
  {
    var all, at := rows + [row], row.at.value;
    assert all[..|rows|] == rows;
    if InClosedDay(rows, at - DAY) < CAP {
      forall lo
        ensures InClosedDay(all, lo) <= CAP
      {
        assert InClosedDay(rows, lo) <= CAP;
        if lo <= at <= lo + DAY {
          CountWithin(rows, lo, lo + DAY, at - DAY, at);
        }
      }
    } else {
      assert InClosedDay(all, at - DAY) == InClosedDay(rows, at - DAY) + 1;
    }
  }

  /** The decision's microseconds are the whole difference: a decision no later than its own stamp leaves
      room in the closed day. */
  lemma WholeSecondDecision(rows: seq<Row>, at: int, now: int)
    requires now <= at * SECOND && RoomFor(rows, now)
    ensures InClosedDay(rows, at - DAY) < CAP
  {
    CountCounted(rows, at - DAY, at, Floor(now));
  }

  /** So such an attempt keeps three rows to every closed 24 h. */
  lemma AttemptClosed(rows: seq<Row>, row: Row, clock: int, now: int)
    requires ClosedDays(rows) && Past(rows, clock) && Live(row)
    requires clock <= now <= row.at.value * SECOND && RoomFor(rows, now)
    ensures ClosedDays(rows + [row])
  {
    WholeSecondDecision(rows, row.at.value, now);
    ClosedKeptExactly(rows, row);
  }
}
