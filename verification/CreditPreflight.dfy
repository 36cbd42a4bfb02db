/** The credit verdict before a launch: pricing each routed phase, the estimate a provider, and the block.
    Money is whole micro-dollars once rounded. */
module CreditPreflight {
  import opened Text
  import opened Dicts

  datatype Route = Route(provider: string, model: string)

  datatype Phase = Phase(id: string, route: Option<Route>)

  datatype Rate =
    | PerCall(usd: real)
    | PerMillion(inUsd: real, outUsd: real)
    | Unpriced

  /** The telemetry of a completed phase. */
  datatype Actual = Actual(calls: Option<real>, tokensIn: Option<real>, tokensOut: Option<real>)

  datatype History = History(tokensIn: nat, tokensOut: nat, calls: nat)

  /** Everything the verdict is computed from beside the routes. Balances are in micro-dollars. */
  datatype Facts = Facts(mode: string, catalog: Route -> Rate, measured: map<string, real>, plan: map<string, real>,
                         actuals: map<string, Actual>, history: map<string, History>, balances: map<string, real>)

  const ULTRA := "ultra"
  const MAX_CALL_TOKENS: int := 8000

  predicate ZeroCost(provider: string) {
    provider == "ollama-cloud" || provider == "ollama_cloud"
  }

  predicate Ultra(mode: string) {
    Lower(Strip(mode)) == ULTRA
  }

  // ---------------------------------------------------------------- the price of one phase

  function Truncated(x: real): int {
    if x >= 0.0 then x.Floor else -(-x).Floor
  }

  /** `round(x, 6)` in micro-dollars, halves to even. */
  function Micro(x: real): int {
    var scaled := x * 1000000.0;
    var low := scaled.Floor;
    var rest := scaled - low as real;
    if rest < 0.5 || (rest == 0.5 && low % 2 == 0) then low else low + 1
  }

  /** Measured first, plan second, never a guess. */
  function Calls(id: string, f: Facts): Option<int> {
    if id in f.measured && f.measured[id] > 0.0 then Some(f.measured[id].Floor)
    else if id in f.plan && f.plan[id] > 0.0 then Some(f.plan[id].Floor)
    else None
  }

  function ExpectedTokens(id: string, calls: int, f: Facts): (int, int) {
    if id in f.actuals && f.actuals[id].tokensIn.Some? && f.actuals[id].tokensOut.Some?
       && (f.actuals[id].tokensIn.value > 0.0 || f.actuals[id].tokensOut.value > 0.0)
    then (Truncated(f.actuals[id].tokensIn.value), Truncated(f.actuals[id].tokensOut.value))
    else if id in f.history && f.history[id].calls > 0
    then (f.history[id].tokensIn / f.history[id].calls * calls, f.history[id].tokensOut / f.history[id].calls * calls)
    else (MAX_CALL_TOKENS * calls * 2 / 3, MAX_CALL_TOKENS * calls / 3)
  }

  function RateFor(route: Route, f: Facts): Rate {
    if ZeroCost(route.provider) then PerCall(0.0) else f.catalog(route)
  }

  function CallCost(calls: int, usd: real): int {
    Micro(calls as real * usd)
  }

  /** What so many tokens cost at a rate a million. */
  function Charge(tokens: int, usd: real): real {
    tokens as real / 1000000.0 * usd
  }

  function TokenCost(tokens: (int, int), inUsd: real, outUsd: real): int {
    Micro(Charge(tokens.0, inUsd) + Charge(tokens.1, outUsd))
  }

  function CallsBilled(id: string, calls: int, f: Facts): int {
    if id in f.actuals && f.actuals[id].calls.Some? && f.actuals[id].calls.value >= 0.0
    then f.actuals[id].calls.value.Floor
    else calls
  }

  function PhaseCost(id: string, calls: int, rate: Rate, f: Facts): int
    requires !rate.Unpriced?
  {
    match rate
    case PerCall(usd) => CallCost(CallsBilled(id, calls, f), usd)
    case PerMillion(inUsd, outUsd) => TokenCost(ExpectedTokens(id, calls, f), inUsd, outUsd)
  }

  /** With no history the planning budget is spent whole: in and out together are the budget, at most
      one token short, and two thirds of it go in. */
  lemma PlanningBudget(id: string, calls: nat, f: Facts)
    requires id !in f.actuals && id !in f.history
    ensures var (tokensIn, tokensOut) := ExpectedTokens(id, calls, f);
            && MAX_CALL_TOKENS * calls - 1 <= tokensIn + tokensOut <= MAX_CALL_TOKENS * calls
            && 2 * tokensOut <= tokensIn <= 2 * tokensOut + 2
  {
  }

  /** n is the whole number nearest to x, the even one of two. */
  predicate Nearest(n: int, x: real) {
    && -0.5 <= x - n as real <= 0.5
    && (x - n as real == 0.5 || x - n as real == -0.5 ==> n % 2 == 0)
  }

  lemma MicroIsNearest(x: real)
    ensures Nearest(Micro(x), x * 1000000.0)
  {
    var scaled := x * 1000000.0;
    assert scaled.Floor as real <= scaled < scaled.Floor as real + 1.0;
  }

  lemma ChargeIs(tokens: int, usd: real)
    ensures Charge(tokens, usd) * 1000000.0 == tokens as real * usd
  {
  }

  lemma NearestSum(n: int, x: real, y: real, p: real, q: real)
    requires Nearest(n, (x + y) * 1000000.0) && x * 1000000.0 == p && y * 1000000.0 == q
    ensures Nearest(n, p + q)
  {
  }

  lemma PriceSum(x: real, y: real, p: real, q: real)
    requires x * 1000000.0 == p && y * 1000000.0 == q
    ensures Nearest(Micro(x + y), p + q)
  {
    MicroIsNearest(x + y);
    NearestSum(Micro(x + y), x, y, p, q);
  }

  lemma TokenCostNearest(tokens: (int, int), inUsd: real, outUsd: real)
    ensures Nearest(TokenCost(tokens, inUsd, outUsd), tokens.0 as real * inUsd + tokens.1 as real * outUsd)
  {
    ChargeIs(tokens.0, inUsd);
    ChargeIs(tokens.1, outUsd);
    PriceSum(Charge(tokens.0, inUsd), Charge(tokens.1, outUsd), tokens.0 as real * inUsd, tokens.1 as real * outUsd);
  }

  lemma CallCostNearest(calls: int, usd: real)
    ensures Nearest(CallCost(calls, usd), calls as real * usd * 1000000.0)
  {
    MicroIsNearest(calls as real * usd);
  }

  /** THE PRICE OF A PHASE in micro-dollars, to the nearest: its calls at a rate a call, */
  lemma CallPrice(id: string, calls: int, usd: real, f: Facts)
    ensures Nearest(PhaseCost(id, calls, PerCall(usd), f), CallsBilled(id, calls, f) as real * usd * 1000000.0)
  {
    CallCostNearest(CallsBilled(id, calls, f), usd);
  }

  /** or its tokens in and out, each at a rate a million. */
  lemma TokenPrice(id: string, calls: int, inUsd: real, outUsd: real, f: Facts)
    ensures var (tokensIn, tokensOut) := ExpectedTokens(id, calls, f);
            Nearest(PhaseCost(id, calls, PerMillion(inUsd, outUsd), f),
                    tokensIn as real * inUsd + tokensOut as real * outUsd)
  {
    TokenCostNearest(ExpectedTokens(id, calls, f), inUsd, outUsd);
  }

  /** n is x with its fraction cut off. */
  predicate WholePart(n: int, x: real) {
    if x >= 0.0 then n as real <= x < n as real + 1.0 else n as real - 1.0 < x <= n as real
  }

  /** A completed phase has tokens on record. */
  predicate TokensKnown(id: string, f: Facts) {
    id in f.actuals && f.actuals[id].tokensIn.Some? && f.actuals[id].tokensOut.Some?
    && (f.actuals[id].tokensIn.value > 0.0 || f.actuals[id].tokensOut.value > 0.0)
  }

  /** each is the whole average of what was measured over these calls. */
  predicate WholeAverage(each: int, total: int, calls: int) {
    each * calls <= total < (each + 1) * calls
  }

  lemma DivIsAverage(total: int, calls: int)
    requires calls > 0
    ensures WholeAverage(total / calls, total, calls)
  {
  }

  /** THE TOKENS OF A PHASE: those on record when it is complete; else the calls times the whole averages of the
      last run, in and out; else two thirds and one third of the planning budget. */
  lemma TokensExactly(id: string, calls: nat, f: Facts)
    ensures var (tokensIn, tokensOut) := ExpectedTokens(id, calls, f);
            if TokensKnown(id, f)
            then WholePart(tokensIn, f.actuals[id].tokensIn.value) && WholePart(tokensOut, f.actuals[id].tokensOut.value)
            else if id in f.history && f.history[id].calls > 0
            then var h := f.history[id];
                 exists a, b :: WholeAverage(a, h.tokensIn, h.calls) && WholeAverage(b, h.tokensOut, h.calls)
                                && tokensIn == a * calls && tokensOut == b * calls
            else 16000 * calls - 3 < 3 * tokensIn <= 16000 * calls && 8000 * calls - 3 < 3 * tokensOut <= 8000 * calls
  {
    if !TokensKnown(id, f) && id in f.history && f.history[id].calls > 0 {
      var h := f.history[id];
      DivIsAverage(h.tokensIn, h.calls);
      DivIsAverage(h.tokensOut, h.calls);
    }
  }

  /** HOW MANY CALLS: the measured number if it is positive, else the planned one, whole; with neither the phase
      stays uncounted. A completed phase is billed for the calls on record. */
  lemma CallsExactly(id: string, expected: int, f: Facts)
    ensures var n := Calls(id, f);
            if id in f.measured && f.measured[id] > 0.0 then n.Some? && WholePart(n.value, f.measured[id])
            else if id in f.plan && f.plan[id] > 0.0 then n.Some? && WholePart(n.value, f.plan[id])
            else n.None?
    ensures if id in f.actuals && f.actuals[id].calls.Some? && f.actuals[id].calls.value >= 0.0
            then WholePart(CallsBilled(id, expected, f), f.actuals[id].calls.value)
            else CallsBilled(id, expected, f) == expected
  {
  }

  /** Where one phase ends up. */
  datatype Fate =
    | NotRouted
    | Uncounted
    | Refused
    | Unknown
    | Priced(provider: string, cost: int)

  function Provider(route: Route): string {
    if route.provider == "" then "unknown" else route.provider
  }

  function FateOf(p: Phase, f: Facts): Fate {
    match p.route
    case None => NotRouted
    case Some(route) =>
      match Calls(p.id, f)
      case None => Uncounted
      case Some(calls) =>
        var rate := RateFor(route, f);
        if !rate.Unpriced? then Priced(Provider(route), PhaseCost(p.id, calls, rate, f))
        else if Ultra(f.mode) && !ZeroCost(Provider(route)) then Refused
        else Unknown
  }

  /** A phase on a flat-rate provider costs nothing and never stops a launch. */
  lemma ZeroCostIsFree(p: Phase, f: Facts)
    requires p.route.Some? && (p.route.value.provider == "ollama-cloud" || p.route.value.provider == "ollama_cloud")
    ensures FateOf(p, f).Uncounted? || FateOf(p, f) == Priced(p.route.value.provider, 0)
  {
    if Calls(p.id, f).Some? {
      FreeCalls(CallsBilled(p.id, Calls(p.id, f).value, f));
    }
  }

  /** A phase on any other provider is priced by the catalog, under that provider's name; without a rate it stops
      an ultra launch, whatever the spelling of the mode, and no other. */
  lemma PaidFateExactly(p: Phase, f: Facts)
    requires p.route.Some? && p.route.value.provider != "ollama-cloud" && p.route.value.provider != "ollama_cloud"
    ensures var fate, calls, rate := FateOf(p, f), Calls(p.id, f), f.catalog(p.route.value);
            && (calls.None? <==> fate == Uncounted)
            && (calls.Some? && !rate.Unpriced? <==> fate.Priced?)
            && (fate.Priced? ==> fate.cost == PhaseCost(p.id, calls.value, rate, f))
            && (fate.Priced? && p.route.value.provider != "" ==> fate.provider == p.route.value.provider)
            && (fate.Priced? && p.route.value.provider == "" ==> fate.provider == "unknown")
            && (fate == Refused <==> calls.Some? && rate.Unpriced? && Lower(Strip(f.mode)) == "ultra")
  {
  }

  /** How dear a mode is. */
  function Tier(mode: string): int {
    if mode == "economy" then 0 else if mode == "standard" then 1 else if mode == "ultra" then 2 else 3
  }

  lemma FreeCalls(calls: int)
    ensures CallCost(calls, 0.0) == 0
  {
    assert calls as real * 0.0 == 0.0;
    assert Micro(0.0) == 0;
  }

  // ---------------------------------------------------------------- the tally

  datatype Bucket = Bucket(estimate: int, phases: seq<string>)

  datatype Sheet = Sheet(buckets: Dict<Bucket>, refused: seq<string>, warned: seq<string>, routed: nat)

  function Into(buckets: Dict<Bucket>, provider: string, cost: int, id: string): Dict<Bucket> {
    match Get<Bucket>(buckets, provider)
    case None => Put(buckets, provider, Bucket(cost, [id]))
    case Some(b) => Put(buckets, provider, Bucket(b.estimate + cost, b.phases + [id]))
  }

  function Enter(s: Sheet, p: Phase, fate: Fate): Sheet {
    match fate
    case NotRouted => s
    case Uncounted => s.(warned := s.warned + [p.id], routed := s.routed + 1)
    case Unknown => s.(warned := s.warned + [p.id], routed := s.routed + 1)
    case Refused => s.(refused := s.refused + [p.id], routed := s.routed + 1)
    case Priced(provider, cost) => s.(buckets := Into(s.buckets, provider, cost, p.id), routed := s.routed + 1)
  }

  function Tally(phases: seq<Phase>, f: Facts): Sheet {
    if phases == [] then Sheet([], [], [], 0)
    else
      var p := phases[|phases| - 1];
      Enter(Tally(phases[..|phases| - 1], f), p, FateOf(p, f))
  }

  function Total(buckets: Dict<Bucket>): int {
    if buckets == [] then 0 else Total(buckets[..|buckets| - 1]) + buckets[|buckets| - 1].1.estimate
  }

  predicate Short(provider: string, b: Bucket, f: Facts) {
    provider in f.balances && f.balances[provider] < b.estimate as real
  }

  function Shorts(buckets: Dict<Bucket>, f: Facts): seq<string> {
    if buckets == [] then []
    else
      var last := buckets[|buckets| - 1];
      var rest := Shorts(buckets[..|buckets| - 1], f);
      if Short(last.0, last.1, f) then rest + [last.0] else rest
  }

  datatype Verdict = Verdict(total: int, sheet: Sheet, shorts: seq<string>, blocked: bool, downgrade: Option<string>)

  function NextMode(mode: string): Option<string> {
    if mode == "ultra" then Some("standard") else if mode == "standard" then Some("economy") else None
  }

  function VerdictOf(phases: seq<Phase>, f: Facts): Verdict {
    var s := Tally(phases, f);
    var shorts := Shorts(s.buckets, f);
    Verdict(Total(s.buckets), s, shorts, s.refused != [] || shorts != [],
            if shorts == [] || s.refused != [] then None else NextMode(f.mode))
  }

  /** The sum of the estimates, and the providers whose known balance is below theirs. */
  method CheckBalances(buckets: Dict<Bucket>, f: Facts) returns (total: int, shorts: seq<string>)
    ensures total == Total(buckets) && shorts == Shorts(buckets, f)
  {
    total, shorts := 0, [];
    for k := 0 to |buckets|
      invariant total == Total(buckets[..k]) && shorts == Shorts(buckets[..k], f)
    {
      assert buckets[..k + 1][..k] == buckets[..k];
      var (provider, bucket) := buckets[k];
      total := total + bucket.estimate;
      if provider in f.balances && f.balances[provider] < bucket.estimate as real {
        shorts := shorts + [provider];
      }
    }
    assert buckets[..|buckets|] == buckets;
  }

  method Preflight(phases: seq<Phase>, f: Facts) returns (v: Verdict)
    ensures v == VerdictOf(phases, f)
    ensures v.blocked <==> ShortSomewhere(phases, f) || RefusedSomewhere(phases, f)
    ensures v.total == Spend(phases, f)
    ensures v.downgrade.Some? <==>
              ShortSomewhere(phases, f) && !RefusedSomewhere(phases, f) && (f.mode == "ultra" || f.mode == "standard")
    ensures v.downgrade.Some? ==> Tier(v.downgrade.value) == Tier(f.mode) - 1
  {
    var buckets: Dict<Bucket>, refused: seq<string>, warned: seq<string>, routed: nat := [], [], [], 0;
    for i := 0 to |phases|
      invariant Sheet(buckets, refused, warned, routed) == Tally(phases[..i], f)
    {
      assert phases[..i + 1][..i] == phases[..i];
      var p := phases[i];
      if p.route.Some? {
        routed := routed + 1;
        var calls := Calls(p.id, f);
        var rate := RateFor(p.route.value, f);
        if calls.None? {
          warned := warned + [p.id];
        } else if rate.Unpriced? {
          if Ultra(f.mode) && !ZeroCost(Provider(p.route.value)) {
            refused := refused + [p.id];
          } else {
            warned := warned + [p.id];
          }
        } else {
          var cost := PhaseCost(p.id, calls.value, rate, f);
          buckets := Into(buckets, Provider(p.route.value), cost, p.id);
        }
      }
    }
    assert phases[..|phases|] == phases;
    var total, shorts := CheckBalances(buckets, f);
    v := Verdict(total, Sheet(buckets, refused, warned, routed), shorts, refused != [] || shorts != [],
                 if shorts == [] || refused != [] then None else NextMode(f.mode));
    BlockedExactly(phases, f);
    TotalIsSpend(phases, f);
  }

  // ---------------------------------------------------------------- every phase in one place

  /** The ids of the phases with a fate, in plan order. */
  function WithFate(phases: seq<Phase>, f: Facts, kind: Fate -> bool): seq<string> {
    if phases == [] then []
    else
      var rest := WithFate(phases[..|phases| - 1], f, kind);
      if kind(FateOf(phases[|phases| - 1], f)) then rest + [phases[|phases| - 1].id] else rest
  }

  predicate IsRefused(fate: Fate) { fate.Refused? }

  predicate IsWarned(fate: Fate) { fate.Uncounted? || fate.Unknown? }

  function PricedOn(provider: string): Fate -> bool {
    (fate: Fate) => fate.Priced? && fate.provider == provider
  }

  /** What the priced phases of one provider cost together. */
  function Estimate(phases: seq<Phase>, f: Facts, provider: string): int {
    if phases == [] then 0
    else
      var fate := FateOf(phases[|phases| - 1], f);
      Estimate(phases[..|phases| - 1], f, provider) + if PricedOn(provider)(fate) then fate.cost else 0
  }

  /** What all priced phases cost together. */
  function Spend(phases: seq<Phase>, f: Facts): int {
    if phases == [] then 0
    else
      var fate := FateOf(phases[|phases| - 1], f);
      Spend(phases[..|phases| - 1], f) + if fate.Priced? then fate.cost else 0
  }

  function Expected(phases: seq<Phase>, f: Facts, provider: string): Option<Bucket> {
    var ids := WithFate(phases, f, PricedOn(provider));
    if ids == [] then None else Some(Bucket(Estimate(phases, f, provider), ids))
  }

  lemma {:induction false} NoIdsNoCost(phases: seq<Phase>, f: Facts, provider: string)
    requires WithFate(phases, f, PricedOn(provider)) == []
    ensures Estimate(phases, f, provider) == 0
  {
    if phases != [] {
      NoIdsNoCost(phases[..|phases| - 1], f, provider);
    }
  }

  /** EVERY ROUTED PHASE IS IN EXACTLY ONE PLACE: a provider's bucket holds exactly its priced phases and
      their cost, the refusals and the warnings hold exactly the phases with those fates, all in plan
      order. */
  lemma {:induction false} TallySorts(phases: seq<Phase>, f: Facts)
    ensures var s := Tally(phases, f);
            && s.refused == WithFate(phases, f, IsRefused)
            && s.warned == WithFate(phases, f, IsWarned)
            && (forall provider :: Get<Bucket>(s.buckets, provider) == Expected(phases, f, provider))
  {
    if phases != [] {
      var front, p := phases[..|phases| - 1], phases[|phases| - 1];
      TallySorts(front, f);
      var before, fate := Tally(front, f), FateOf(p, f);
      forall provider
        ensures Get<Bucket>(Tally(phases, f).buckets, provider) == Expected(phases, f, provider)
      {
        assert Get<Bucket>(before.buckets, provider) == Expected(front, f, provider);
        BucketAfter(phases, f, before.buckets, provider);
      }
    }
  }

  lemma BucketAfter(phases: seq<Phase>, f: Facts, before: Dict<Bucket>, provider: string)
    requires phases != []
    requires Get<Bucket>(before, provider) == Expected(phases[..|phases| - 1], f, provider)
    ensures var fate := FateOf(phases[|phases| - 1], f);
            var after := if fate.Priced? then Into(before, fate.provider, fate.cost, phases[|phases| - 1].id) else before;
            Get<Bucket>(after, provider) == Expected(phases, f, provider)
  {
    var front, p := phases[..|phases| - 1], phases[|phases| - 1];
    var fate := FateOf(p, f);
    var ids := WithFate(front, f, PricedOn(provider));
    if fate.Priced? && fate.provider == provider {
      GetInto(before, provider, fate.cost, p.id, provider);
      assert PricedOn(provider)(fate);
      assert WithFate(phases, f, PricedOn(provider)) == ids + [p.id];
      assert Estimate(phases, f, provider) == Estimate(front, f, provider) + fate.cost;
      if ids == [] {
        NoIdsNoCost(front, f, provider);
        assert ids + [p.id] == [p.id];
      }
    } else {
      if fate.Priced? {
        GetInto(before, fate.provider, fate.cost, p.id, provider);
      }
      assert WithFate(phases, f, PricedOn(provider)) == ids;
    }
  }

  lemma GetInto(before: Dict<Bucket>, provider: string, cost: int, id: string, other: string)
    ensures Get<Bucket>(Into(before, provider, cost, id), other)
            == if other != provider then Get<Bucket>(before, other)
               else match Get<Bucket>(before, provider)
                 case None => Some(Bucket(cost, [id]))
                 case Some(b) => Some(Bucket(b.estimate + cost, b.phases + [id]))
  {
    match Get<Bucket>(before, provider)
    case None => GetPut(before, provider, Bucket(cost, [id]), other);
    case Some(b) => GetPut(before, provider, Bucket(b.estimate + cost, b.phases + [id]), other);
  }

  lemma {:induction false} UniqueBuckets(phases: seq<Phase>, f: Facts)
    ensures Unique(Tally(phases, f).buckets)
  {
    if phases != [] {
      var front, p := phases[..|phases| - 1], phases[|phases| - 1];
      UniqueBuckets(front, f);
      var before, fate := Tally(front, f).buckets, FateOf(p, f);
      if fate.Priced? {
        IntoUnique(before, fate.provider, fate.cost, p.id);
      }
    }
  }

  lemma IntoUnique(buckets: Dict<Bucket>, provider: string, cost: int, id: string)
    requires Unique(buckets)
    ensures Unique(Into(buckets, provider, cost, id))
  {
    GetFinds(buckets, provider);
    var b := match Get<Bucket>(buckets, provider)
      case None => Bucket(cost, [id])
      case Some(b) => Bucket(b.estimate + cost, b.phases + [id]);
    PutRows(buckets, provider, b);
  }

  lemma {:induction false} TotalPut(buckets: Dict<Bucket>, provider: string, b: Bucket)
    requires Unique(buckets)
    ensures Total(Put(buckets, provider, b)) == Total(buckets) + b.estimate
              - (if Get<Bucket>(buckets, provider).Some? then Get<Bucket>(buckets, provider).value.estimate else 0)
  {
    if buckets == [] {
      assert [(provider, b)][..0] == [];
    } else {
      TotalHead(buckets);
      TotalHead(Put(buckets, provider, b));
      if buckets[0].0 == provider {
        assert Put(buckets, provider, b)[1..] == buckets[1..];
      } else {
        assert Put(buckets, provider, b)[1..] == Put(buckets[1..], provider, b);
        TotalPut(buckets[1..], provider, b);
      }
    }
  }

  lemma {:induction false} TotalHead(buckets: Dict<Bucket>)
    requires buckets != []
    ensures Total(buckets) == buckets[0].1.estimate + Total(buckets[1..])
  {
    if |buckets| > 1 {
      TotalHead(buckets[..|buckets| - 1]);
      assert buckets[..|buckets| - 1][1..] == buckets[1..][..|buckets| - 2];
    }
  }

  /** The total is the sum of the provider estimates, and that is the cost of all priced phases. */
  lemma {:induction false} TotalIsSpend(phases: seq<Phase>, f: Facts)
    ensures Total(Tally(phases, f).buckets) == Spend(phases, f)
  {
    if phases != [] {
      var front, p := phases[..|phases| - 1], phases[|phases| - 1];
      TotalIsSpend(front, f);
      UniqueBuckets(front, f);
      var before, fate := Tally(front, f).buckets, FateOf(p, f);
      if fate.Priced? {
        TotalPut(before, fate.provider, match Get<Bucket>(before, fate.provider)
          case None => Bucket(fate.cost, [p.id])
          case Some(b) => Bucket(b.estimate + fate.cost, b.phases + [p.id]));
      }
    }
  }

  /** How many phases the buckets hold together. */
  function Filed(buckets: Dict<Bucket>): nat {
    if buckets == [] then 0 else |buckets[0].1.phases| + Filed(buckets[1..])
  }

  lemma {:induction false} FiledPut(buckets: Dict<Bucket>, provider: string, b: Bucket)
    ensures Filed(Put(buckets, provider, b)) == Filed(buckets) + |b.phases|
              - (if Get<Bucket>(buckets, provider).Some? then |Get<Bucket>(buckets, provider).value.phases| else 0)
    ensures Get<Bucket>(buckets, provider).Some? ==>
              |Get<Bucket>(buckets, provider).value.phases| <= Filed(buckets)
  {
    if buckets == [] {
      assert [(provider, b)][1..] == [];
    } else if buckets[0].0 == provider {
      assert Put(buckets, provider, b)[1..] == buckets[1..];
    } else {
      assert Put(buckets, provider, b)[1..] == Put(buckets[1..], provider, b);
      FiledPut(buckets[1..], provider, b);
    }
  }

  /** No routed phase is lost: buckets, refusals and warnings together are as many as the routed phases. */
  lemma {:induction false} NoPhaseLost(phases: seq<Phase>, f: Facts)
    ensures var s := Tally(phases, f); Filed(s.buckets) + |s.refused| + |s.warned| == s.routed
    ensures Tally(phases, f).routed == |WithFate(phases, f, IsRouted)|
  {
    if phases != [] {
      var front, p := phases[..|phases| - 1], phases[|phases| - 1];
      NoPhaseLost(front, f);
      var before, fate := Tally(front, f).buckets, FateOf(p, f);
      if fate.Priced? {
        FiledPut(before, fate.provider, match Get<Bucket>(before, fate.provider)
          case None => Bucket(fate.cost, [p.id])
          case Some(b) => Bucket(b.estimate + fate.cost, b.phases + [p.id]));
      }
    }
  }

  predicate IsRouted(fate: Fate) { !fate.NotRouted? }

  // ---------------------------------------------------------------- when the launch is blocked

  /** Some provider with a priced phase has a known balance below what its priced phases cost. */
  ghost predicate ShortSomewhere(phases: seq<Phase>, f: Facts) {
    exists provider: string :: ShortOn(phases, f, provider)
  }

  predicate ShortOn(phases: seq<Phase>, f: Facts, provider: string) {
    && provider in f.balances
    && WithFate(phases, f, PricedOn(provider)) != []
    && f.balances[provider] < Estimate(phases, f, provider) as real
  }

  /** In ultra mode some phase with a known call count has no rate, on a provider that is not flat-rate. */
  ghost predicate RefusedSomewhere(phases: seq<Phase>, f: Facts) {
    Ultra(f.mode) && exists i :: 0 <= i < |phases| && Unpriceable(phases[i], f)
  }

  predicate Unpriceable(p: Phase, f: Facts) {
    && p.route.Some? && Calls(p.id, f).Some?
    && !ZeroCost(p.route.value.provider) && f.catalog(p.route.value).Unpriced?
  }

  lemma {:induction false} ShortsAre(buckets: Dict<Bucket>, f: Facts)
    ensures Shorts(buckets, f) != [] <==> exists i :: 0 <= i < |buckets| && Short(buckets[i].0, buckets[i].1, f)
  {
    if buckets != [] {
      var front, n := buckets[..|buckets| - 1], |buckets| - 1;
      ShortsAre(front, f);
      if i :| 0 <= i < |buckets| && Short(buckets[i].0, buckets[i].1, f) {
        if i < n {
          assert Short(front[i].0, front[i].1, f);
        }
      }
      if i :| 0 <= i < n && Short(front[i].0, front[i].1, f) {
        assert Short(buckets[i].0, buckets[i].1, f);
      }
      if Short(buckets[n].0, buckets[n].1, f) {
        assert Shorts(buckets, f) != [];
      }
    }
  }

  lemma {:induction false} RefusedAre(phases: seq<Phase>, f: Facts)
    ensures WithFate(phases, f, IsRefused) != [] <==> RefusedSomewhere(phases, f)
  {
    if phases != [] {
      var front, n := phases[..|phases| - 1], |phases| - 1;
      RefusedAre(front, f);
      RefusedFate(phases[n], f);
      if RefusedSomewhere(phases, f) {
        var i :| 0 <= i < |phases| && Unpriceable(phases[i], f);
        if i < n {
          assert Unpriceable(front[i], f);
        }
      }
      if RefusedSomewhere(front, f) {
        var i :| 0 <= i < |front| && Unpriceable(front[i], f);
        assert Unpriceable(phases[i], f);
      }
    }
  }

  lemma RefusedFate(p: Phase, f: Facts)
    ensures FateOf(p, f).Refused? <==> Ultra(f.mode) && Unpriceable(p, f)
  {
  }

  /** THE VERDICT: blocked exactly when some known balance is below its provider's estimate, or the mode is
      ultra and a counted phase on a paid provider has no rate. */
  lemma BlockedExactly(phases: seq<Phase>, f: Facts)
    ensures Shorts(Tally(phases, f).buckets, f) != [] <==> ShortSomewhere(phases, f)
    ensures Tally(phases, f).refused != [] <==> RefusedSomewhere(phases, f)
  {
    var buckets := Tally(phases, f).buckets;
    TallySorts(phases, f);
    UniqueBuckets(phases, f);
    ShortsAre(buckets, f);
    RefusedAre(phases, f);
    if i :| 0 <= i < |buckets| && Short(buckets[i].0, buckets[i].1, f) {
      GetFinds(buckets, buckets[i].0);
      assert Expected(phases, f, buckets[i].0) == Some(buckets[i].1);
      assert ShortOn(phases, f, buckets[i].0);
    }
    if ShortSomewhere(phases, f) {
      var provider: string :| ShortOn(phases, f, provider);
      GetFinds(buckets, provider);
      assert Expected(phases, f, provider).Some?;
      var i :| 0 <= i < |buckets| && buckets[i].0 == provider;
      assert Short(buckets[i].0, buckets[i].1, f);
    }
  }

  ghost predicate SameButBalances(f: Facts, g: Facts) {
    && g.mode == f.mode && g.catalog == f.catalog && g.measured == f.measured && g.plan == f.plan
    && g.actuals == f.actuals && g.history == f.history
  }

  lemma SameCost(id: string, calls: int, rate: Rate, f: Facts, g: Facts)
    requires SameButBalances(f, g) && !rate.Unpriced?
    ensures PhaseCost(id, calls, rate, g) == PhaseCost(id, calls, rate, f)
  {
    assert ExpectedTokens(id, calls, g) == ExpectedTokens(id, calls, f);
    assert CallsBilled(id, calls, g) == CallsBilled(id, calls, f);
  }

  lemma SameFate(p: Phase, f: Facts, g: Facts)
    requires SameButBalances(f, g)
    ensures FateOf(p, g) == FateOf(p, f)
    ensures Unpriceable(p, g) == Unpriceable(p, f)
  {
    if p.route.Some? && Calls(p.id, f).Some? && !RateFor(p.route.value, f).Unpriced? {
      SameCost(p.id, Calls(p.id, f).value, RateFor(p.route.value, f), f, g);
    }
  }

  lemma {:induction false} SameFates(phases: seq<Phase>, f: Facts, g: Facts, provider: string)
    requires SameButBalances(f, g)
    ensures WithFate(phases, g, PricedOn(provider)) == WithFate(phases, f, PricedOn(provider))
    ensures Estimate(phases, g, provider) == Estimate(phases, f, provider)
  {
    if phases != [] {
      SameFates(phases[..|phases| - 1], f, g, provider);
      SameFate(phases[|phases| - 1], f, g);
    }
  }

  /** Raising known balances never turns proceed into blocked; learning a new one can. */
  lemma RaisingABalance(phases: seq<Phase>, f: Facts, g: Facts)
    requires SameButBalances(f, g)
    requires g.balances.Keys <= f.balances.Keys
    requires forall provider :: provider in g.balances ==> g.balances[provider] >= f.balances[provider]
    requires !VerdictOf(phases, f).blocked
    ensures !VerdictOf(phases, g).blocked
  {
    BlockedExactly(phases, f);
    BlockedExactly(phases, g);
    if ShortSomewhere(phases, g) {
      var provider: string :| ShortOn(phases, g, provider);
      SameFates(phases, f, g, provider);
      assert ShortOn(phases, f, provider);
    }
    forall i | 0 <= i < |phases|
      ensures Unpriceable(phases[i], g) == Unpriceable(phases[i], f)
    {
      SameFate(phases[i], f, g);
    }
  }
}
