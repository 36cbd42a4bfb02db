/** The admission ramp of one provider, driven by timed windows, and the width it admits. Latencies, the
    scale and the clock are exact reals. */
module Admission {
  import opened Text
  import opened Sorting

  const WINDOW: real := 20.0
  const MIN_CLEAN: nat := 3
  const FLOOR: real := 0.25
  const GROW: real := 1.5
  const CUT: real := 0.5
  const P95_BUDGET: real := 45.0

  datatype Kind = Clean | Slow | RateLimited | Pressure

  /** One observation: the clock when it is taken, and when a demotion restarts the window. */
  datatype Event = Event(kind: Kind, latency: Option<real>, at: real, after: real)

  datatype State = State(scale: real, start: real, clean: nat, bad: nat, latencies: seq<real>)

  function Min(a: real, b: real): real { if a <= b then a else b }

  function Max(a: real, b: real): real { if a >= b then a else b }

  // ---------------------------------------------------------------- the 95th percentile

  function Identity(x: real): real { x }

  /** `round` of 19(n-1)/20 to the nearest integer, halves to the even one. */
  function Rank(n: nat): (r: nat)
    requires n > 0
    ensures r < n
  {
    var twice := 19 * (n - 1);
    var low, rest := twice / 20, twice % 20;
    if rest < 10 || (rest == 10 && low % 2 == 0) then low else low + 1
  }

  /** The rank is the whole number nearest to 95 hundredths of n - 1, the even one of two. */
  lemma RankExactly(n: nat)
    requires n > 0
    ensures var off := 95 * (n - 1) - 100 * Rank(n);
            -50 <= off <= 50 && (off == 50 || off == -50 ==> Rank(n) % 2 == 0)
  {
    var twice := 19 * (n - 1);
    assert twice == 20 * (twice / 20) + twice % 20;
    Nearest(twice / 20, twice % 20);
  }

  lemma Nearest(low: int, rest: int)
    requires 0 <= rest < 20
    ensures var r := if rest < 10 || (rest == 10 && low % 2 == 0) then low else low + 1;
            var off := 5 * (20 * low + rest) - 100 * r;
            -50 <= off <= 50 && (off == 50 || off == -50 ==> r % 2 == 0)
  {
  }

  function P95(latencies: seq<real>): (p: Option<real>)
    ensures p.Some? <==> latencies != []
  {
    if latencies == [] then None
    else
      SortFacts(latencies, Identity);
      Some(SortBy(latencies, Identity)[Rank(|latencies|)])
  }

  function Over(latencies: seq<real>, limit: real): nat {
    if latencies == [] then 0
    else Over(latencies[..|latencies| - 1], limit) + if latencies[|latencies| - 1] > limit then 1 else 0
  }

  lemma {:induction false} OverParts(a: seq<real>, b: seq<real>, limit: real)
    ensures Over(a + b, limit) == Over(a, limit) + Over(b, limit)
  {
    if b == [] {
      assert a + b == a;
    } else {
      assert (a + b)[..|a + b| - 1] == a + b[..|b| - 1];
      OverParts(a, b[..|b| - 1], limit);
    }
  }

  lemma {:induction false} OverBounds(s: seq<real>, limit: real)
    ensures Over(s, limit) <= |s|
    ensures (forall i :: 0 <= i < |s| ==> s[i] > limit) ==> Over(s, limit) == |s|
    ensures (forall i :: 0 <= i < |s| ==> s[i] <= limit) ==> Over(s, limit) == 0
  {
    if s != [] {
      OverBounds(s[..|s| - 1], limit);
    }
  }

  lemma {:induction false} OverPlaced(s: seq<real>, x: real, limit: real)
    ensures Over(Place(s, x, Identity), limit) == Over(s, limit) + if x > limit then 1 else 0
  {
    Ends(s, x);
    if s != [] && s[|s| - 1] > x {
      OverPlaced(s[..|s| - 1], x, limit);
      Ends(Place(s[..|s| - 1], x, Identity), s[|s| - 1]);
    }
  }

  lemma {:induction false} OverSorted(s: seq<real>, limit: real)
    ensures Over(SortBy(s, Identity), limit) == Over(s, limit)
  {
    if s != [] {
      OverSorted(s[..|s| - 1], limit);
      OverPlaced(SortBy(s[..|s| - 1], Identity), s[|s| - 1], limit);
    }
  }

  lemma OverRank(s: seq<real>, r: nat, limit: real)
    requires Ordered(s, Identity) && r < |s|
    ensures s[r] > limit <==> Over(s, limit) >= |s| - r
  {
    assert forall i, j :: 0 <= i < j < |s| ==> Identity(s[i]) <= Identity(s[j]);
    if s[r] > limit {
      HighPart(s, r, limit);
    } else {
      LowPart(s, r, limit);
    }
  }

  lemma HighPart(s: seq<real>, r: nat, limit: real)
    requires r < |s| && forall i :: r <= i < |s| ==> s[i] > limit
    ensures Over(s, limit) >= |s| - r
  {
    assert s == s[..r] + s[r..];
    OverParts(s[..r], s[r..], limit);
    OverBounds(s[r..], limit);
  }

  lemma LowPart(s: seq<real>, r: nat, limit: real)
    requires r < |s| && forall i :: 0 <= i <= r ==> s[i] <= limit
    ensures Over(s, limit) < |s| - r
  {
    assert s == s[..r + 1] + s[r + 1..];
    OverParts(s[..r + 1], s[r + 1..], limit);
    OverBounds(s[..r + 1], limit);
    OverBounds(s[r + 1..], limit);
  }

  /** What the hold means: the percentile is over the budget exactly when at least n - rank of the n
      latencies are. */
  lemma P95OverBudget(latencies: seq<real>, limit: real)
    requires latencies != []
    ensures P95(latencies).value > limit <==> Over(latencies, limit) >= |latencies| - Rank(|latencies|)
  {
    SortFacts(latencies, Identity);
    OverSorted(latencies, limit);
    OverRank(SortBy(latencies, Identity), Rank(|latencies|), limit);
  }

  // ---------------------------------------------------------------- one observation

  function Kept(latencies: seq<real>, latency: Option<real>): (kept: seq<real>)
    ensures |latencies| <= 100 ==> |kept| <= 100
  {
    match latency
    case None => latencies
    case Some(l) =>
      var more := latencies + [l];
      if |more| > 100 then more[|more| - 50..] else more
  }

  /** A slow-but-clean window holds. */
  predicate Holds(latencies: seq<real>) {
    P95(latencies).Some? && P95(latencies).value > P95_BUDGET
  }

  predicate Promotes(s: State, at: real) {
    s.bad == 0 && s.clean >= MIN_CLEAN && at - s.start >= WINDOW && !Holds(s.latencies)
  }

  function Promoted(s: State, at: real): State {
    if Promotes(s, at) then s.(scale := Min(1.0, s.scale * GROW), start := at, clean := 0) else s
  }

  function Demoted(s: State, after: real): State {
    s.(scale := Max(FLOOR, s.scale * CUT), start := after, clean := 0, bad := 0)
  }

  function Counted(s: State, e: Event): State {
    s.(clean := s.clean + 1, latencies := Kept(s.latencies, e.latency))
  }

  function Observed(s: State, e: Event): State {
    if e.kind.Clean? then Promoted(Counted(s, e), e.at) else Demoted(s, e.after)
  }

  /** WHEN THE SCALE GROWS: after a third clean result or a later one, with no bad one, 20 s into the window, and
      unless the 95th percentile is over 45 s; then it grows by half, up to 1, and the window restarts. A clean
      result changes nothing else but the count and the latencies. */
  lemma CleanExactly(s: State, e: Event)
    requires e.kind.Clean?
    ensures var next, seen := Observed(s, e), Kept(s.latencies, e.latency);
            && next.latencies == seen && next.bad == s.bad
            && (if s.clean >= 2 && s.bad == 0 && e.at - s.start >= 20.0 && (seen == [] || P95(seen).value <= 45.0)
                then next.scale == Min(1.0, s.scale * 1.5) && next.start == e.at && next.clean == 0
                else next.scale == s.scale && next.start == s.start && next.clean == s.clean + 1)
  {
  }

  /** A slow result, a rate limit and pressure halve the scale, not below a quarter, and restart the window. */
  lemma BadExactly(s: State, e: Event)
    requires !e.kind.Clean?
    ensures Observed(s, e) == State(Max(0.25, s.scale * 0.5), e.after, 0, 0, s.latencies)
  {
  }

  /** The latencies kept are the latest: all of them up to 100, and the last 50 when there would be more. */
  lemma KeptExactly(latencies: seq<real>, l: real)
    ensures Kept(latencies, None) == latencies
    ensures var kept := Kept(latencies, Some(l));
            && |kept| == (if |latencies| < 100 then |latencies| + 1 else 50)
            && kept[|kept| - 1] == l
            && forall i :: 0 <= i < |kept| - 1 ==> kept[i] == latencies[|latencies| + 1 - |kept| + i]
  {
  }

  /** The provider's ramp state, updated in place under the lock. */
  class Ramp {
    var scale: real
    var start: real
    var clean: nat
    var bad: nat
    var latencies: seq<real>

    constructor (startScale: real, at: real)
      ensures Now() == State(startScale, at, 0, 0, [])
    {
      scale, start, clean, bad, latencies := startScale, at, 0, 0, [];
    }

    function Now(): State
      reads this
    {
      State(scale, start, clean, bad, latencies)
    }

    method MaybePromote(at: real)
      modifies this
      ensures Now() == Promoted(old(Now()), at)
    {
      if bad > 0 || clean < MIN_CLEAN || at - start < WINDOW {
        return;
      }
      var p95 := P95(latencies);
      if p95.Some? && p95.value > P95_BUDGET {
        return;
      }
      scale := Min(1.0, scale * GROW);
      start := at;
      clean := 0;
    }

    method Demote(after: real)
      modifies this
      ensures Now() == Demoted(old(Now()), after)
    {
      scale := Max(FLOOR, scale * CUT);
      start := after;
      clean, bad := 0, 0;
    }

    method KeepLatency(latency: Option<real>)
      modifies this`latencies
      ensures latencies == Kept(old(latencies), latency)
    {
      if latency.Some? {
        latencies := latencies + [latency.value];
        if |latencies| > 100 {
          latencies := latencies[|latencies| - 50..];
        }
      }
    }

    method Observe(e: Event)
      modifies this
      ensures Now() == Observed(old(Now()), e)
    {
      if e.kind.Clean? {
        clean := clean + 1;
        KeepLatency(e.latency);
        MaybePromote(e.at);
      } else {
        bad := bad + 1;
        Demote(e.after);
      }
    }

    /** The dispatcher's hook. A plain failure says nothing about capacity. */
    method ObserveResult(ok: bool, latency: Option<real>, rateLimited: bool, at: real, after: real)
      modifies this
      ensures Now() == match EventOf(ok, latency, rateLimited, at, after)
                       case None => old(Now())
                       case Some(e) => Observed(old(Now()), e)
    {
      if rateLimited {
        Observe(Event(RateLimited, None, at, after));
        return;
      }
      if !ok {
        return;
      }
      if latency.Some? && latency.value > P95_BUDGET {
        Observe(Event(Slow, latency, at, after));
        return;
      }
      Observe(Event(Clean, latency, at, after));
    }

    /** The width a route runs at now; `pressured` is the box's own signal for this class of work. */
    method EffectiveWidth(a: Ask, pressured: bool, includeRamp: bool, at: real, after: real) returns (width: nat)
      requires 0.0 < scale <= 1.0
      modifies this
      ensures Now() == if includeRamp && pressured then Observed(old(Now()), Event(Pressure, None, at, after))
                       else old(Now())
      ensures Admits(width, Terms(a), if includeRamp then Round4(scale) else 1.0)
    {
      var least := Least(Terms(a));
      if !includeRamp {
        width := least;
        ScaledBounds(least, 1.0);
        AdmitsScaled(Terms(a), least, 1.0);
        return;
      }
      if pressured {
        Observe(Event(Pressure, None, at, after));
      }
      Round4Bounds(scale);
      ScaledBounds(least, Round4(scale));
      AdmitsScaled(Terms(a), least, Round4(scale));
      width := Scaled(least, Round4(scale));
    }
  }

  // ---------------------------------------------------------------- the width

  /** What a caller knows; a missing or non-positive term does not bind. */
  datatype Ask = Ask(requested: Option<int>, ready: Option<int>, modeCeiling: Option<int>, activeForMode: int,
                     accountCeiling: Option<int>, activeForAccount: int, freePermits: Option<int>,
                     rateBudget: Option<int>, costAllocation: Option<int>, hardware: Option<int>)

  predicate Binds(term: Option<int>) {
    term.Some? && term.value > 0
  }

  function Term(term: Option<int>): seq<int> {
    if Binds(term) then [term.value] else []
  }

  function Free(ceiling: Option<int>, active: int): seq<int> {
    if !Binds(ceiling) then []
    else
      var left := ceiling.value - (if active > 0 then active else 0);
      [if left > 1 then left else 1]
  }

  function Requested(a: Ask): (r: int)
    ensures r >= 1
  {
    if Binds(a.requested) then a.requested.value
    else if Binds(a.ready) then a.ready.value
    else 1
  }

  /** What is asked for: the caller's number if it is positive, else the work that is ready, else one. */
  lemma RequestedExactly(a: Ask)
    ensures Requested(a) ==
            if a.requested.Some? && a.requested.value >= 1 then a.requested.value
            else if a.ready.Some? && a.ready.value >= 1 then a.ready.value
            else 1
  {
  }

  function Terms(a: Ask): (t: seq<int>)
    ensures t != [] && forall i :: 0 <= i < |t| ==> t[i] >= 1
  {
    [Requested(a)] + Term(a.ready) + Free(a.modeCeiling, a.activeForMode)
    + (if Binds(a.accountCeiling) then Free(a.accountCeiling, a.activeForAccount) else Term(a.freePermits))
    + Term(a.rateBudget) + Term(a.costAllocation) + Term(a.hardware)
  }

  /** A width the terms admit at this factor: one always, more only within every term scaled by it. */
  predicate Fits(w: nat, terms: seq<int>, factor: real) {
    w <= 1 || forall i :: 0 <= i < |terms| ==> w as real <= terms[i] as real * factor
  }

  /** The largest width the terms admit. */
  ghost predicate Admits(width: int, terms: seq<int>, factor: real) {
    && width >= 1
    && Fits(width, terms, factor)
    && (forall w: nat :: Fits(w, terms, factor) ==> w <= width)
  }

  /** What the largest admitted width means: never above any term, the tightest term itself at full scale,
      and never less than a quarter of what the terms allow while the factor is in its band. */
  lemma AdmittedBounds(width: int, terms: seq<int>, factor: real)
    requires Admits(width, terms, factor) && 0.0 <= factor <= 1.0
    requires terms != [] && forall i :: 0 <= i < |terms| ==> terms[i] >= 1
    ensures forall i :: 0 <= i < |terms| ==> width <= terms[i]
    ensures factor == 1.0 ==> forall w: nat :: Allowed(w, terms) ==> w <= width
    ensures factor >= FLOOR ==> forall w: nat :: Allowed(w, terms) ==> w / 4 <= width
  {
    forall i | 0 <= i < |terms|
      ensures width <= terms[i]
    {
      assert width <= 1 || width as real <= terms[i] as real * factor;
      BelowTerm(width, terms[i], factor);
    }
    forall w: nat | Allowed(w, terms) && factor == 1.0
      ensures w <= width
    {
      assert Fits(w, terms, factor);
    }
    forall w: nat | Allowed(w, terms) && factor >= FLOOR
      ensures w / 4 <= width
    {
      forall i | 0 <= i < |terms|
        ensures (w / 4) as real <= terms[i] as real * factor
      {
        Quarter(w, terms[i], factor);
      }
      assert Fits(w / 4, terms, factor);
    }
  }

  lemma BelowTerm(width: int, term: int, factor: real)
    requires term >= 1 && 0.0 <= factor <= 1.0
    requires width <= 1 || width as real <= term as real * factor
    ensures width <= term
  {
    Product(term as real, 1.0 - factor);
    assert term as real * (1.0 - factor) == term as real - term as real * factor;
  }

  lemma Quarter(w: nat, term: int, factor: real)
    requires w <= term && factor >= FLOOR
    ensures (w / 4) as real <= term as real * factor
  {
    Product(term as real, factor - FLOOR);
    assert term as real * (factor - FLOOR) == term as real * factor - term as real * 0.25;
    var q := w / 4;
    assert 4.0 * q as real <= w as real;
  }

  predicate Allowed(w: nat, terms: seq<int>) {
    forall i :: 0 <= i < |terms| ==> w <= terms[i]
  }

  /** What each known fact allows, and nothing else does. */
  lemma AllowedExactly(a: Ask, w: nat)
    ensures Allowed(w, Terms(a)) <==>
              && w <= Requested(a)
              && (Binds(a.ready) ==> w <= a.ready.value)
              && (Binds(a.modeCeiling) ==> Within(w, a.modeCeiling.value, a.activeForMode))
              && (Binds(a.accountCeiling) ==> Within(w, a.accountCeiling.value, a.activeForAccount))
              && (!Binds(a.accountCeiling) && Binds(a.freePermits) ==> w <= a.freePermits.value)
              && (Binds(a.rateBudget) ==> w <= a.rateBudget.value)
              && (Binds(a.costAllocation) ==> w <= a.costAllocation.value)
              && (Binds(a.hardware) ==> w <= a.hardware.value)
  {
    var ready, mode := Term(a.ready), Free(a.modeCeiling, a.activeForMode);
    var account := if Binds(a.accountCeiling) then Free(a.accountCeiling, a.activeForAccount) else Term(a.freePermits);
    var rate, cost, hardware := Term(a.rateBudget), Term(a.costAllocation), Term(a.hardware);
    var first := [Requested(a)];
    assert Terms(a) == first + ready + mode + account + rate + cost + hardware;
    AllowedParts(w, first, ready);
    AllowedParts(w, first + ready, mode);
    AllowedParts(w, first + ready + mode, account);
    AllowedParts(w, first + ready + mode + account, rate);
    AllowedParts(w, first + ready + mode + account + rate, cost);
    AllowedParts(w, first + ready + mode + account + rate + cost, hardware);
    AllowedOne(w, Requested(a));
    AllowedTerm(w, a.ready);
    AllowedTerm(w, a.freePermits);
    AllowedTerm(w, a.rateBudget);
    AllowedTerm(w, a.costAllocation);
    AllowedTerm(w, a.hardware);
    AllowedFree(w, a.modeCeiling, a.activeForMode);
    AllowedFree(w, a.accountCeiling, a.activeForAccount);
  }

  lemma AllowedOne(w: nat, x: int)
    ensures Allowed(w, [x]) <==> w <= x
  {
    assert [x][0] == x;
  }

  lemma AllowedTerm(w: nat, term: Option<int>)
    ensures Allowed(w, Term(term)) <==> (Binds(term) ==> w <= term.value)
  {
    if Binds(term) { AllowedOne(w, term.value); }
  }

  lemma AllowedFree(w: nat, ceiling: Option<int>, active: int)
    ensures Allowed(w, Free(ceiling, active)) <==> (Binds(ceiling) ==> Within(w, ceiling.value, active))
  {
    if Binds(ceiling) { AllowedOne(w, Free(ceiling, active)[0]); }
  }

  /** One unit may always run; more only into what the ceiling leaves free. */
  predicate Within(w: nat, ceiling: int, active: int) {
    w <= 1 || w + (if active > 0 then active else 0) <= ceiling
  }

  lemma AllowedParts(w: nat, a: seq<int>, b: seq<int>)
    ensures Allowed(w, a + b) <==> Allowed(w, a) && Allowed(w, b)
  {
    if Allowed(w, a + b) {
      forall i | 0 <= i < |a| ensures w <= a[i] { assert a[i] == (a + b)[i]; }
      forall i | 0 <= i < |b| ensures w <= b[i] { assert b[i] == (a + b)[|a| + i]; }
    }
  }

  method Least(terms: seq<int>) returns (least: int)
    requires terms != []
    ensures least in terms && forall i :: 0 <= i < |terms| ==> least <= terms[i]
  {
    least := terms[0];
    for i := 1 to |terms|
      invariant least in terms && forall j :: 0 <= j < i ==> least <= terms[j]
    {
      if terms[i] < least {
        least := terms[i];
      }
    }
  }

  lemma AdmitsScaled(terms: seq<int>, least: int, factor: real)
    requires least in terms && forall i :: 0 <= i < |terms| ==> least <= terms[i]
    requires least >= 1 && 0.0 <= factor
    ensures Admits(Scaled(least, factor), terms, factor)
  {
    var k :| 0 <= k < |terms| && terms[k] == least;
    var width := Scaled(least, factor);
    var x := least as real * factor;
    Product(least as real, factor);
    if width > 1 {
      forall i | 0 <= i < |terms|
        ensures width as real <= terms[i] as real * factor
      {
        Product((terms[i] - least) as real, factor);
        assert (terms[i] - least) as real * factor == terms[i] as real * factor - x;
      }
    }
    forall w: nat | Fits(w, terms, factor)
      ensures w <= width
    {
      if w > 1 {
        assert w as real <= terms[k] as real * factor;
        assert w <= x.Floor;
      }
    }
  }

  /** `round(x, 4)`, halves to even. */
  function Round4(x: real): real {
    var scaled := x * 10000.0;
    var low := scaled.Floor;
    var rest := scaled - low as real;
    (if rest < 0.5 || (rest == 0.5 && low % 2 == 0) then low else low + 1) as real / 10000.0
  }

  /** The ten-thousandths are the whole number nearest, the even one of two. */
  lemma Round4Exactly(x: real) returns (n: int)
    ensures Round4(x) == n as real / 10000.0
    ensures -0.5 <= x * 10000.0 - n as real <= 0.5
    ensures x * 10000.0 - n as real == 0.5 || x * 10000.0 - n as real == -0.5 ==> n % 2 == 0
  {
    var low := (x * 10000.0).Floor;
    var rest := x * 10000.0 - low as real;
    n := if rest < 0.5 || (rest == 0.5 && low % 2 == 0) then low else low + 1;
  }

  lemma Round4Bounds(x: real)
    requires 0.0 < x <= 1.0
    ensures 0.0 <= Round4(x) <= 1.0
    ensures x >= FLOOR ==> Round4(x) >= FLOOR
    ensures x == 1.0 ==> Round4(x) == 1.0
  {
    var scaled := x * 10000.0;
    var low := scaled.Floor;
    assert 0.0 < scaled <= 10000.0;
    assert 0 <= low <= 10000;
    assert x >= FLOOR ==> scaled >= 2500.0 && low >= 2500;
    assert low == 10000 ==> scaled == 10000.0;
  }

  function Scaled(least: int, factor: real): int {
    var ramped := (least as real * factor).Floor;
    if ramped > 1 then ramped else 1
  }

  lemma Product(a: real, b: real)
    requires a >= 0.0 && b >= 0.0
    ensures a * b >= 0.0
  {
  }

  lemma ScaledBounds(least: int, factor: real)
    requires least >= 1 && 0.0 <= factor <= 1.0
    ensures 1 <= Scaled(least, factor) <= least
    ensures factor >= FLOOR ==> least / 4 <= Scaled(least, factor)
    ensures factor == 1.0 ==> Scaled(least, factor) == least
  {
    var x := least as real * factor;
    Product(least as real, 1.0 - factor);
    assert least as real * (1.0 - factor) == least as real - x;
    if factor >= FLOOR {
      var q := least / 4;
      Product(least as real, factor - FLOOR);
      assert least as real * (factor - FLOOR) == x - least as real * 0.25;
      assert least as real >= 4.0 * q as real;
    }
  }

  // ---------------------------------------------------------------- whole runs

  function Run(s: State, events: seq<Event>): State {
    if events == [] then s else Observed(Run(s, events[..|events| - 1]), events[|events| - 1])
  }

  ghost predicate Healthy(s: State) {
    FLOOR <= s.scale <= 1.0 && s.bad == 0 && |s.latencies| <= 100
  }

  /** IN EVERY REACHABLE STATE the scale is in [1/4, 1], no bad count is left over between calls and at
      most 100 latencies are kept. */
  lemma {:induction false} RunHealthy(s: State, events: seq<Event>)
    requires Healthy(s)
    ensures Healthy(Run(s, events))
  {
    if events != [] {
      RunHealthy(s, events[..|events| - 1]);
      var mid, e := Run(s, events[..|events| - 1]), events[|events| - 1];
      assert mid.scale * GROW >= mid.scale;
    }
  }

  /** The last `n` events are all clean and none of them moved the scale; the event before them did. */
  ghost predicate Streak(s: State, events: seq<Event>, n: nat) {
    && n <= |events|
    && (forall i :: |events| - n <= i < |events| ==> events[i].kind.Clean?)
    && Run(s, events).clean == n
    && Run(s, events).scale == Run(s, events[..|events| - n]).scale
    && Run(s, events).start == (if n == |events| then s.start else WindowStart(events[|events| - n - 1]))
  }

  /** When a scale change restarts the window. */
  function WindowStart(e: Event): real {
    if e.kind.Clean? then e.at else e.after
  }

  lemma StreakGrows(s: State, front: seq<Event>, e: Event, n: nat)
    requires Streak(s, front, n) && e.kind.Clean? && !Promotes(Counted(Run(s, front), e), e.at)
    ensures Streak(s, front + [e], n + 1)
  {
    var events := front + [e];
    assert events[..|front|] == front;
    assert events[..|events| - (n + 1)] == front[..|front| - n];
    forall i | |events| - (n + 1) <= i < |events|
      ensures events[i].kind.Clean?
    {
      assert i < |front| ==> events[i] == front[i];
    }
    if n < |front| {
      assert events[|events| - n - 2] == front[|front| - n - 1];
    }
  }

  lemma RunStep(s: State, front: seq<Event>, e: Event)
    ensures Run(s, front + [e]) == Observed(Run(s, front), e)
    ensures Promotions(s, front + [e]) ==
            Promotions(s, front) + if e.kind.Clean? && Promotes(Counted(Run(s, front), e), e.at) then 1 else 0
  {
    assert (front + [e])[..|front|] == front;
  }

  lemma StreakBreaks(s: State, front: seq<Event>, e: Event)
    requires Healthy(Run(s, front)) && !(e.kind.Clean? && !Promotes(Counted(Run(s, front), e), e.at))
    ensures Streak(s, front + [e], 0)
  {
    var events := front + [e];
    RunStep(s, front, e);
    assert events[..|events|] == events;
  }

  lemma {:induction false} StreakOf(s: State, events: seq<Event>) returns (n: nat)
    requires Healthy(s) && s.clean == 0
    ensures Streak(s, events, n)
  {
    if events == [] {
      n := 0;
      assert events[..0] == events;
    } else {
      var front, e := events[..|events| - 1], events[|events| - 1];
      var before := StreakOf(s, front);
      RunHealthy(s, front);
      var mid := Run(s, front);
      assert events == front + [e];
      if e.kind.Clean? && !Promotes(Counted(mid, e), e.at) {
        n := before + 1;
        StreakGrows(s, front, e, before);
      } else {
        n := 0;
        StreakBreaks(s, front, e);
      }
    }
  }

  /** THE SCALE RISES ONLY WHEN EARNED: the last three results or more were all clean, none of them moved
      the scale, and at least 20 seconds passed since its last change (or since the start). */
  lemma RiseIsEarned(s: State, events: seq<Event>) returns (n: nat)
    requires Healthy(s) && s.clean == 0 && events != []
    requires Run(s, events).scale > Run(s, events[..|events| - 1]).scale
    ensures var front, e := events[..|events| - 1], events[|events| - 1];
            && e.kind.Clean? && Streak(s, front, n) && n + 1 >= MIN_CLEAN
            && e.at - Run(s, front).start >= WINDOW
            && e.at - (if n == |front| then s.start else WindowStart(front[|front| - n - 1])) >= WINDOW
  {
    var front, e := events[..|events| - 1], events[|events| - 1];
    n := StreakOf(s, front);
    RunHealthy(s, front);
  }

  function Promotions(s: State, events: seq<Event>): nat {
    if events == [] then 0
    else
      var front, e := events[..|events| - 1], events[|events| - 1];
      Promotions(s, front) + if e.kind.Clean? && Promotes(Counted(Run(s, front), e), e.at) then 1 else 0
  }

  function Grown(scale: real, n: nat): real {
    if n == 0 then scale else Grown(scale, n - 1) * GROW
  }

  lemma {:induction false} GrownKeepsUp(scale: real, n: nat)
    requires scale >= FLOOR
    ensures Grown(scale, n) >= scale
    ensures n >= 4 ==> Grown(scale, n) >= 1.0
  {
    if n > 0 {
      GrownKeepsUp(scale, n - 1);
      if n == 4 {
        assert Grown(scale, 1) == scale * 1.5;
        assert Grown(scale, 2) == scale * 1.5 * 1.5;
        assert Grown(scale, 3) == scale * 1.5 * 1.5 * 1.5;
        assert Grown(scale, 4) == scale * 1.5 * 1.5 * 1.5 * 1.5;
        assert scale * 1.5 * 1.5 * 1.5 * 1.5 == scale * 5.0625;
      }
    }
  }

  lemma CleanStep(mid: State, e: Event, g: real)
    requires mid.scale == Min(1.0, g) && g >= 0.0 && e.kind.Clean?
    ensures Observed(mid, e).scale == Min(1.0, if Promotes(Counted(mid, e), e.at) then g * GROW else g)
  {
    CapThenGrow(g);
  }

  lemma {:induction false} CleanRunScale(s: State, events: seq<Event>)
    requires Healthy(s) && forall i :: 0 <= i < |events| ==> events[i].kind.Clean?
    ensures Run(s, events).scale == Min(1.0, Grown(s.scale, Promotions(s, events)))
  {
    if events != [] {
      var front, e := events[..|events| - 1], events[|events| - 1];
      CleanRunScale(s, front);
      GrownKeepsUp(s.scale, Promotions(s, front));
      CleanStep(Run(s, front), e, Grown(s.scale, Promotions(s, front)));
      RunStep(s, front, e);
      assert events == front + [e];
    }
  }

  /** Between demotions the scale is exactly the start grown once a promotion and capped at 1, so four
      promotions restore 1 from any reachable scale. */
  lemma FourPromotionsRestore(s: State, events: seq<Event>)
    requires Healthy(s) && forall i :: 0 <= i < |events| ==> events[i].kind.Clean?
    ensures Run(s, events).scale == Min(1.0, Grown(s.scale, Promotions(s, events)))
    ensures Promotions(s, events) >= 4 ==> Run(s, events).scale == 1.0
  {
    CleanRunScale(s, events);
    GrownKeepsUp(s.scale, Promotions(s, events));
  }

  lemma CapThenGrow(g: real)
    requires g >= 0.0
    ensures Min(1.0, Min(1.0, g) * GROW) == Min(1.0, g * GROW)
  {
  }

  // ---------------------------------------------------------------- results through the hook

  function EventOf(ok: bool, latency: Option<real>, rateLimited: bool, at: real, after: real): Option<Event> {
    if rateLimited then Some(Event(RateLimited, None, at, after))
    else if !ok then None
    else if latency.Some? && latency.value > P95_BUDGET then Some(Event(Slow, latency, at, after))
    else Some(Event(Clean, latency, at, after))
  }

  /** WHAT A RESULT IS TO THE RAMP: a rate limit whatever else it is; a failure nothing; a success slow exactly over
      45 s, and clean otherwise. */
  lemma EventExactly(ok: bool, latency: Option<real>, rateLimited: bool, at: real, after: real)
    ensures var e := EventOf(ok, latency, rateLimited, at, after);
            && (e.None? <==> !ok && !rateLimited)
            && (e.Some? ==> e.value.at == at && e.value.after == after)
            && (e.Some? && e.value.kind.RateLimited? <==> rateLimited)
            && (e.Some? && e.value.kind.Slow? <==> ok && !rateLimited && latency.Some? && latency.value > 45.0)
            && (e.Some? && e.value.kind.Clean? ==> e.value.latency == latency)
            && (e.Some? ==> !e.value.kind.Pressure?)
  {
  }

  /** Events that the hook or the pressure probe can produce. */
  predicate FromHook(e: Event) {
    e.kind.Clean? && e.latency.Some? ==> e.latency.value <= P95_BUDGET
  }

  lemma HookEvents(ok: bool, latency: Option<real>, rateLimited: bool, at: real, after: real)
    ensures var e := EventOf(ok, latency, rateLimited, at, after);
            && (e.Some? ==> FromHook(e.value))
            && (e.None? <==> !rateLimited && !ok)
  {
  }

  lemma {:induction false} LatenciesInBudget(s: State, events: seq<Event>)
    requires forall i :: 0 <= i < |s.latencies| ==> s.latencies[i] <= P95_BUDGET
    requires forall i :: 0 <= i < |events| ==> FromHook(events[i])
    ensures forall i :: 0 <= i < |Run(s, events).latencies| ==> Run(s, events).latencies[i] <= P95_BUDGET
  {
    if events != [] {
      LatenciesInBudget(s, events[..|events| - 1]);
    }
  }

  /** What reaches the ramp: a unit's outcome through the hook, or the box's own pressure. */
  datatype Input =
    | Outcome(ok: bool, latency: Option<real>, rateLimited: bool, at: real, after: real)
    | Pressed(at: real, after: real)

  function EventsOf(inputs: seq<Input>): seq<Event> {
    if inputs == [] then []
    else
      var rest := EventsOf(inputs[..|inputs| - 1]);
      match inputs[|inputs| - 1]
      case Outcome(ok, latency, rateLimited, at, after) =>
        (match EventOf(ok, latency, rateLimited, at, after)
         case None => rest
         case Some(e) => rest + [e])
      case Pressed(at, after) => rest + [Event(Pressure, None, at, after)]
  }

  lemma {:induction false} EventsFromHook(inputs: seq<Input>)
    ensures forall i :: 0 <= i < |EventsOf(inputs)| ==> FromHook(EventsOf(inputs)[i])
  {
    if inputs != [] {
      EventsFromHook(inputs[..|inputs| - 1]);
      match inputs[|inputs| - 1]
      case Outcome(ok, latency, rateLimited, at, after) => HookEvents(ok, latency, rateLimited, at, after);
      case Pressed(_, _) =>
    }
  }

  /** When every result enters through the hook, the slow-but-clean hold is never taken: after any sequence
      of outcomes and pressure, a third clean result 20 seconds into a window always promotes. */
  lemma HoldNeverTaken(s: State, inputs: seq<Input>)
    requires Healthy(s) && forall i :: 0 <= i < |s.latencies| ==> s.latencies[i] <= P95_BUDGET
    ensures var t := Run(s, EventsOf(inputs));
            && !Holds(t.latencies)
            && forall at: real :: Promotes(t, at) <==> t.clean >= MIN_CLEAN && at - t.start >= WINDOW
  {
    var events := EventsOf(inputs);
    EventsFromHook(inputs);
    LatenciesInBudget(s, events);
    RunHealthy(s, events);
    var l := Run(s, events).latencies;
    if l != [] {
      P95OverBudget(l, P95_BUDGET);
      OverBounds(l, P95_BUDGET);
    }
  }

  // ---------------------------------------------------------------- a start below the floor

  /** A demotion raises the scale exactly when it stood below the floor, which a configured start in
      (0, 1] allows. */
  lemma DemotionRaises(s: State, after: real)
    requires 0.0 < s.scale <= 1.0
    ensures Demoted(s, after).scale > s.scale <==> s.scale < FLOOR
  {
    assert s.scale * CUT < s.scale;
  }

  /** From any start in (0, 1] the first demotion enters the band and no later event leaves it. */
  lemma {:induction false} BandReached(s: State, events: seq<Event>, k: nat)
    requires 0.0 < s.scale <= 1.0 && s.bad == 0 && |s.latencies| <= 100
    requires k < |events| && !events[k].kind.Clean?
    ensures Healthy(Run(s, events))
  {
    var front, e := events[..|events| - 1], events[|events| - 1];
    Positive(s, front);
    if k < |front| {
      BandReached(s, front, k);
      assert Run(s, front).scale * GROW >= Run(s, front).scale;
    } else {
      assert Run(s, front).scale * CUT <= 1.0;
    }
  }

  lemma {:induction false} Positive(s: State, events: seq<Event>)
    requires 0.0 < s.scale <= 1.0 && s.bad == 0 && |s.latencies| <= 100
    ensures var t := Run(s, events); 0.0 < t.scale <= 1.0 && t.bad == 0 && |t.latencies| <= 100
  {
    if events != [] {
      Positive(s, events[..|events| - 1]);
      var mid := Run(s, events[..|events| - 1]);
      assert mid.scale * GROW > 0.0 && mid.scale * CUT <= 1.0;
    }
  }
}
