/** Per-provider resolution: which account the question is about, which plan it is on, and how wide
    it may run. The rule is never to guess upward. */
module CapacityResolve {
  import opened Text
  import opened Dicts
  import opened CapacityNames
  import opened CapacityRecord
  import opened CapacityIsolation

  datatype Status = Measured | DeclaredUnverified | Undetermined | Parked | Failed

  datatype Width = Unbounded | Count(n: int) | Nothing

  datatype Resolution = Resolution(
    status: Status, provider: Option<string>, plan: Option<string>, available: Width,
    declaredMax: Option<int>)

  /** A detector's hit: the normalised account it routes to and, if the model names it, its plan. A
      detector that recognises no account is a miss. */
  datatype Route = Route(provider: string, plan: Option<string>)

  /** Everything a resolution reads on one box: the record (None when there is no file), whether the
      file is there but unreadable, the detected route, and the locked plan answers per provider. */
  datatype Box = Box(
    record: Option<Dict<Json>>, unreadable: bool, detected: Option<Route>, answers: map<string, string>)

  predicate NoCap(p: string, env: Env) {
    p == OPENROUTER || (!Structural(p) && p in env.declared)
  }

  function Min(a: int, b: int): int { if a <= b then a else b }
  function Max(a: int, b: int): int { if a <= b then b else a }

  function NormOpt(raw: Option<string>, env: Env): Option<string> {
    match raw case None => None case Some(s) => env.norm(s)
  }

  /** A declared number counts when it is a positive integer. */
  function Positive(max: Option<Json>): Option<int> {
    match max
    case Some(Number(n)) => if n >= 1 then Some(n) else None
    case _ => None
  }

  /** The four cases in their order: no cap, table row, park, unidentified. */
  function ResolveOverride(rawProvider: Option<string>, rawPlan: Option<string>, max: Option<Json>, env: Env)
    : Resolution
  {
    var p := NormOpt(rawProvider, env);
    var plan := NormalizePlan(rawPlan, p);
    var n := Positive(max);
    if p.Some? && NoCap(p.value, env) then
      Resolution(Measured, p, plan, if n.Some? then Count(n.value) else Unbounded, None)
    else if p.Some? && plan.Some? && CapTable(p.value, plan.value).Some? then
      var row := CapTable(p.value, plan.value).value;
      Resolution(Measured, p, plan, Count(if n.Some? then Min(n.value, row) else row), None)
    else if p.Some? && Structural(p.value) && plan.None? then
      Resolution(Parked, p, None, Nothing, None)
    else if n.Some? then
      Resolution(DeclaredUnverified, p, plan, Count(Min(n.value, DEFAULT_CONSERVATIVE)), None)
    else
      Resolution(Undetermined, p, plan, Count(DEFAULT_CONSERVATIVE), None)
  }

  function BoxEntries(box: Box, env: Env): seq<Entry> {
    if box.record.None? then [] else Entries(box.record.value, env)
  }

  function FirstIdentified(entries: seq<Entry>): Option<string> {
    if entries == [] then None
    else if entries[0].canonical.Some? then entries[0].canonical
    else FirstIdentified(entries[1..])
  }

  /** Stage 1: which account is the answer about? */
  function TargetOf(box: Box, requested: Option<string>, env: Env): Option<string> {
    if requested.Some? then env.norm(requested.value)
    else if box.detected.Some? then Some(box.detected.value.provider)
    else FirstIdentified(BoxEntries(box, env))
  }

  function EntryUsed(box: Box, requested: Option<string>, env: Env): Option<Entry> {
    var entries := BoxEntries(box, env);
    var target := TargetOf(box, requested, env);
    if target.Some? then EntryFor(entries, target.value)
    else if requested.None? && entries != [] then Some(entries[0])
    else None
  }

  function PlanField(e: Option<Entry>): Option<string> {
    if e.None? then None
    else match Get<Json>(e.value.record, "plan") case Some(Str(s)) => Some(s) case _ => None
  }

  function MaxField(e: Option<Entry>): Option<Json> {
    if e.None? then None else Get(e.value.record, "max_concurrent")
  }

  /** A source that comes before the record names the plan: the model, the route of the same account, or
      a recognised locked answer, in this order. */
  function StrongerPlan(box: Box, target: string, model: Option<string>): Option<string> {
    var slug := if model.Some? && model.value != "" then PlanFromModel(target, model.value) else None;
    if slug.Some? then slug
    else if box.detected.Some? && box.detected.value.provider == target
            && box.detected.value.plan.Some? && box.detected.value.plan != Some("") then box.detected.value.plan
    else if target in box.answers then NormalizePlan(Some(box.answers[target]), Some(target))
    else None
  }

  /** Stage 2: the plan of that account; the record comes last. */
  function PlanOf(box: Box, target: string, entry: Option<Entry>, model: Option<string>): Option<string> {
    var stronger := StrongerPlan(box, target, model);
    if stronger.Some? then stronger else NormalizePlan(PlanField(entry), Some(target))
  }

  function Detect(box: Box, requested: Option<string>, model: Option<string>, env: Env): Resolution {
    if box.unreadable then Resolution(Failed, None, None, Nothing, None)
    else
      var target := TargetOf(box, requested, env);
      var entry := EntryUsed(box, requested, env);
      if target.None? && entry.None? then
        Resolution(Undetermined, None, None, Count(DEFAULT_CONSERVATIVE), None)
      else
        var plan := if target.Some? then PlanOf(box, target.value, entry, model) else None;
        var raw := if target.Some? then target
                   else if requested.Some? then requested
                   else if entry.Some? then entry.value.declared else None;
        ResolveOverride(raw, plan, MaxField(entry), env).(declaredMax := Positive(MaxField(entry)))
  }

  // ---------------------------------------------------------------- never upward

  /** The question is about a structural account whose plan no source can name. */
  ghost predicate PlanUnknown(box: Box, requested: Option<string>, model: Option<string>, env: Env) {
    var target := TargetOf(box, requested, env);
    && !box.unreadable
    && target.Some?
    && env.norm(target.value).Some?
    && Structural(env.norm(target.value).value)
    && NormalizePlan(PlanOf(box, target.value, EntryUsed(box, requested, env), model),
                     env.norm(target.value)).None?
  }

  /** Every bound a resolution must respect, whatever the record, the route, the answers and the model. */
  ghost predicate Bounded(r: Resolution, env: Env) {
    && (r.available.Unbounded? ==> r.provider.Some? && NoCap(r.provider.value, env) && r.declaredMax.None?)
    && (r.provider.None? ==> !r.available.Unbounded? && (r.available.Count? ==> r.available.n <= 3))
    && (r.provider.Some? && Structural(r.provider.value) ==>
          (r.available.Count? ==>
             && r.plan.Some?
             && CapTable(r.provider.value, r.plan.value).Some?
             && r.available.n <= CapTable(r.provider.value, r.plan.value).value))
    && (r.available.Count? ==> r.available.n >= 1)
    && (r.available.Count? && r.declaredMax.Some? ==> r.available.n <= r.declaredMax.value)
    && (r.available.Nothing? <==> r.status == Parked || r.status == Failed)
  }

  lemma OverrideBounded(rawProvider: Option<string>, rawPlan: Option<string>, max: Option<Json>, env: Env)
    requires EnvOk(env)
    ensures Bounded(ResolveOverride(rawProvider, rawPlan, max, env).(declaredMax := Positive(max)), env)
    ensures ResolveOverride(rawProvider, rawPlan, max, env).status == Parked <==>
            NormOpt(rawProvider, env).Some? && Structural(NormOpt(rawProvider, env).value)
            && NormalizePlan(rawPlan, NormOpt(rawProvider, env)).None?
    ensures ResolveOverride(rawProvider, rawPlan, max, env).status != Failed
  {
    var p := NormOpt(rawProvider, env);
    if p.Some? {
      PlanHasRow(rawPlan, p.value);
      if NormalizePlan(rawPlan, p).Some? {
        RowPositive(p.value, NormalizePlan(rawPlan, p).value);
      }
    }
  }

  /** The answer is never lower than its bounds ask for: it is the declared number, the table row or the
      conservative default, and it is unbounded exactly for a no-cap provider with no declared number. */
  lemma OverrideAttains(rawProvider: Option<string>, rawPlan: Option<string>, max: Option<Json>, env: Env)
    requires EnvOk(env)
    ensures var r := ResolveOverride(rawProvider, rawPlan, max, env);
            var p, declared := NormOpt(rawProvider, env), Positive(max);
            && r.provider == p
            && (r.available.Unbounded? <==> p.Some? && NoCap(p.value, env) && declared.None?)
            && (r.available.Count? ==>
                  if p.Some? && NoCap(p.value, env) then declared == Some(r.available.n)
                  else if p.Some? && Structural(p.value)
                  then r.plan.Some? && (CapTable(p.value, r.plan.value) == Some(r.available.n)
                                        || declared == Some(r.available.n))
                  else r.available.n == DEFAULT_CONSERVATIVE || declared == Some(r.available.n))
  {
    var p := NormOpt(rawProvider, env);
    if p.Some? {
      PlanHasRow(rawPlan, p.value);
    }
  }

  lemma RowPositive(p: string, plan: string)
    ensures CapTable(p, plan).Some? ==> CapTable(p, plan).value >= 1
    ensures CapTable(p, plan).Some? <==> AccountLimit(p, plan).Some?
    ensures CapTable(p, plan).Some? ==>
              var (limit, reserve) := AccountLimit(p, plan).value;
              limit - reserve == CapTable(p, plan).value && limit >= 1
  {
  }

  /** NEVER UPWARD. Detection parks exactly when the account is structural and no source names its plan,
      and every answer respects the bounds. */
  lemma NeverUpward(box: Box, requested: Option<string>, model: Option<string>, env: Env)
    requires EnvOk(env)
    ensures Bounded(Detect(box, requested, model, env), env)
    ensures Detect(box, requested, model, env).status == Parked <==> PlanUnknown(box, requested, model, env)
  {
    var target := TargetOf(box, requested, env);
    var entry := EntryUsed(box, requested, env);
    FirstIdentifiedIs(BoxEntries(box, env));
    EntriesMatchNames(box, env);
    if !box.unreadable && (target.Some? || entry.Some?) {
      var plan := if target.Some? then PlanOf(box, target.value, entry, model) else None;
      var raw := if target.Some? then target
                 else if requested.Some? then requested
                 else if entry.Some? then entry.value.declared else None;
      OverrideBounded(raw, plan, MaxField(entry), env);
    }
  }

  lemma {:induction false} FirstIdentifiedIs(entries: seq<Entry>)
    ensures FirstIdentified(entries).None? && entries != [] ==> entries[0].canonical.None?
  {
  }

  lemma EntriesMatchNames(box: Box, env: Env)
    ensures var entries := BoxEntries(box, env);
            entries != [] ==> entries[0].canonical == NormOpt(entries[0].declared, env)
  {
    if box.record.Some? && LooksV2(box.record.value) && ProvidersOf(box.record.value).Some? {
      HeadMatchesName(ProvidersOf(box.record.value).value, env);
    }
  }

  lemma {:induction false} HeadMatchesName(blob: Dict<Json>, env: Env)
    ensures EntriesOf(blob, env) != [] ==>
              EntriesOf(blob, env)[0].canonical == NormOpt(EntriesOf(blob, env)[0].declared, env)
  {
    if blob != [] && !blob[0].1.Object? {
      HeadMatchesName(blob[1..], env);
    }
  }

  // ---------------------------------------------------------------- isolation of detection

  /** A resolution for a named account depends on the record only through that account's plan and
      declared number. */
  lemma DetectReadsOwnEntry(box: Box, other: Box, q: string, model: Option<string>, env: Env)
    requires box.unreadable == other.unreadable && box.detected == other.detected && box.answers == other.answers
    requires env.norm(q).Some?
    requires var p := env.norm(q).value;
             var e1, e2 := EntryFor(BoxEntries(box, env), p), EntryFor(BoxEntries(other, env), p);
             PlanField(e1) == PlanField(e2) && MaxField(e1) == MaxField(e2)
    ensures Detect(box, Some(q), model, env) == Detect(other, Some(q), model, env)
  {
    var p := env.norm(q).value;
    var e1, e2 := EntryFor(BoxEntries(box, env), p), EntryFor(BoxEntries(other, env), p);
    assert PlanOf(box, p, e1, model) == PlanOf(other, p, e2, model);
    if !box.unreadable {
      DetectIs(box, q, p, model, env);
      DetectIs(other, q, p, model, env);
    }
  }

  function PlanSaid(said: Option<Dict<Json>>): Option<string> {
    if said.None? then None
    else match Get<Json>(said.value, "plan") case Some(Str(s)) => Some(s) case _ => None
  }

  function MaxSaid(said: Option<Dict<Json>>): Option<Json> {
    if said.None? then None else Get(said.value, "max_concurrent")
  }

  lemma SaidFields(e: Option<Entry>)
    ensures PlanField(e) == PlanSaid(Said(e)) && MaxField(e) == MaxSaid(Said(e))
  {
    if e.Some? {
      GetWithout(e.value.record, "provider", "plan");
      GetWithout(e.value.record, "provider", "max_concurrent");
      assert |"plan"| != |"provider"| && |"max_concurrent"| != |"provider"|;
    }
  }

  /** Two statements about p that nobody asking for p can tell apart: the same positive number, and the
      same recognised plan unless a stronger source names it. */
  predicate SameAnswer(box: Box, p: string, model: Option<string>, one: Option<Dict<Json>>, two: Option<Dict<Json>>) {
    && Positive(MaxSaid(one)) == Positive(MaxSaid(two))
    && (StrongerPlan(box, p, model).Some?
        || NormalizePlan(PlanSaid(one), Some(p)) == NormalizePlan(PlanSaid(two), Some(p)))
  }

  /** An answer carries exactly the recognised plan and the positive declared number. */
  lemma AnswerTells(raw: Option<string>, plan1: Option<string>, max1: Option<Json>,
                    plan2: Option<string>, max2: Option<Json>, env: Env)
    requires EnvOk(env)
    ensures ResolveOverride(raw, plan1, max1, env).(declaredMax := Positive(max1))
            == ResolveOverride(raw, plan2, max2, env).(declaredMax := Positive(max2))
            <==> Positive(max1) == Positive(max2)
                 && NormalizePlan(plan1, NormOpt(raw, env)) == NormalizePlan(plan2, NormOpt(raw, env))
  {
  }

  lemma PlanTwice(raw: Option<string>, p: string)
    ensures NormalizePlan(NormalizePlan(raw, Some(p)), Some(p)) == NormalizePlan(raw, Some(p))
  {
    PlanHasRow(raw, p);
    if NormalizePlan(raw, Some(p)).Some? {
      PlanStable(NormalizePlan(raw, Some(p)).value, p);
    }
  }

  /** Two boxes that differ only in the record answer alike about q exactly when the records say the same
      of it, as far as an answer can tell. */
  lemma AnswersAlike(box: Box, other: Box, q: string, model: Option<string>, env: Env)
    requires EnvOk(env) && env.norm(q).Some?
    requires !box.unreadable && !other.unreadable
    requires box.detected == other.detected && box.answers == other.answers
    ensures var p := env.norm(q).value;
            var e1, e2 := EntryFor(BoxEntries(box, env), p), EntryFor(BoxEntries(other, env), p);
            Detect(box, Some(q), model, env) == Detect(other, Some(q), model, env)
            <==> SameAnswer(box, p, model, Said(e1), Said(e2))
  {
    var p := env.norm(q).value;
    assert env.norm(p) == Some(p);
    var e1, e2 := EntryFor(BoxEntries(box, env), p), EntryFor(BoxEntries(other, env), p);
    SaidFields(e1);
    SaidFields(e2);
    PlanTwice(PlanField(e1), p);
    PlanTwice(PlanField(e2), p);
    AnswerTells(Some(p), PlanOf(box, p, e1, model), MaxField(e1), PlanOf(other, p, e2, model), MaxField(e2), env);
    assert StrongerPlan(box, p, model) == StrongerPlan(other, p, model);
    DetectIs(box, q, p, model, env);
    DetectIs(other, q, p, model, env);
  }

  lemma DetectIs(box: Box, q: string, p: string, model: Option<string>, env: Env)
    requires !box.unreadable && env.norm(q) == Some(p)
    ensures var e := EntryFor(BoxEntries(box, env), p);
            Detect(box, Some(q), model, env)
            == ResolveOverride(Some(p), PlanOf(box, p, e, model), MaxField(e), env).(declaredMax := Positive(MaxField(e)))
  {
  }

  // ---------------------------------------------------------------- which plan an answer carries

  lemma PlanAnswered(box: Box, q: string, p: string, model: Option<string>, env: Env)
    requires EnvOk(env) && !box.unreadable && env.norm(q) == Some(p)
    ensures var e := EntryFor(BoxEntries(box, env), p);
            var plan := NormalizePlan(PlanOf(box, p, e, model), Some(p));
            var r := Detect(box, Some(q), model, env);
            r.provider == Some(p) && r.plan == plan
            && (plan.Some? ==> r.available.Count? && r.available.n <= CapTable(p, plan.value).value)
  {
    var e := EntryFor(BoxEntries(box, env), p);
    assert env.norm(p) == Some(p);
    DetectIs(box, q, p, model, env);
    PlanHasRow(PlanOf(box, p, e, model), p);
  }

  /** A recognised account has no cap of its own exactly when it is not on the table. */
  lemma NoCapExactly(p: string, env: Env)
    requires EnvOk(env) && env.norm(p) == Some(p)
    ensures NoCap(p, env) <==> p != "ollama-cloud" && p != "deepseek-direct"
  {
  }

  /** The declared number of an answer is the integer from 1 up in the account's own entry, if there is one. */
  lemma DeclaredExactly(box: Box, q: string, p: string, model: Option<string>, env: Env, n: int)
    requires !box.unreadable && env.norm(q) == Some(p)
    ensures Detect(box, Some(q), model, env).declaredMax == Some(n) <==>
            var e := EntryFor(BoxEntries(box, env), p);
            e.Some? && Get(e.value.record, "max_concurrent") == Some(Number(n)) && n >= 1
  {
    DetectIs(box, q, p, model, env);
  }

  /** The slug of a DeepSeek model names the plan, whatever the record, the route and the answers say. */
  lemma SlugDecides(box: Box, q: string, slug: string, env: Env)
    requires EnvOk(env) && !box.unreadable && env.norm(q) == Some("deepseek-direct")
    ensures var r := Detect(box, Some(q), Some(slug), env);
            && (Contains(Lower(slug), "pro") ==> r.plan == Some("v4-pro") && r.available.Count? && r.available.n <= 500)
            && (Contains(Lower(slug), "flash") && !Contains(Lower(slug), "pro") ==>
                  r.plan == Some("v4-flash") && r.available.Count? && r.available.n <= 2500)
  {
    PlanAnswered(box, q, DEEPSEEK, Some(slug), env);
    PlanStable(DS_PRO, DEEPSEEK);
    PlanStable(DS_FLASH, DEEPSEEK);
  }

  /** The model's name says nothing of the plan: no other account is looked up by it. */
  predicate SlugSilent(p: string, model: Option<string>) {
    model.Some? && p == "deepseek-direct" ==>
      !Contains(Lower(model.value), "pro") && !Contains(Lower(model.value), "flash")
  }

  predicate RouteNames(box: Box, p: string) {
    box.detected.Some? && box.detected.value.provider == p
    && box.detected.value.plan.Some? && box.detected.value.plan.value != ""
  }

  /** THE ORDER OF THE OTHER SOURCES. When the slug is silent the plan is that of a route to this very account;
      with no such route it is the locked answer's, if that is recognised; and only then the record's. */
  lemma PlanPrecedence(box: Box, q: string, p: string, model: Option<string>, env: Env)
    requires EnvOk(env) && !box.unreadable && env.norm(q) == Some(p) && SlugSilent(p, model)
    ensures var plan := Detect(box, Some(q), model, env).plan;
            var answer := if p in box.answers then NormalizePlan(Some(box.answers[p]), Some(p)) else None;
            if RouteNames(box, p) then plan == NormalizePlan(box.detected.value.plan, Some(p))
            else if answer.Some? then plan == answer
            else plan == NormalizePlan(PlanField(EntryFor(BoxEntries(box, env), p)), Some(p))
  {
    PlanAnswered(box, q, p, model, env);
    if p in box.answers {
      PlanTwice(Some(box.answers[p]), p);
    }
    PlanTwice(PlanField(EntryFor(BoxEntries(box, env), p)), p);
  }

  /** The record as the writer reads it: no file is the empty record. */
  function RecordOf(box: Box): Dict<Json> {
    if box.record.Some? then box.record.value else []
  }

  function Rewritten(box: Box, c: Declaration, env: Env): Box
    requires Declare(RecordOf(box), c, env).Written?
  {
    box.(record := Some(Declare(RecordOf(box), c, env).payload))
  }

  lemma BoxSays(box: Box, p: string, env: Env)
    requires Plain(Blob(RecordOf(box)))
    ensures Said(EntryFor(BoxEntries(box, env), p)) == Says(RecordOf(box), p, env)
  {
    RecordSays(RecordOf(box), p, env);
    if box.record.None? {
      assert Says([], p, env).None?;
    }
  }

  /** DECLARING ABOUT ONE ACCOUNT CHANGES THE ANSWER ABOUT ANOTHER exactly when what the record will say of
      it differs, as far as an answer can tell, from what the record says. */
  lemma AnswerKeptExactly(box: Box, c: Declaration, q: string, model: Option<string>, env: Env)
    requires EnvOk(env) && env.norm(c.provider) == Some(c.provider)
    requires !box.unreadable && Plain(Blob(RecordOf(box))) && Declare(RecordOf(box), c, env).Written?
    requires env.norm(q).Some? && env.norm(q) != Some(c.provider)
    ensures var record, p := RecordOf(box), env.norm(q).value;
            Detect(Rewritten(box, c, env), Some(q), model, env) == Detect(box, Some(q), model, env)
            <==> SameAnswer(box, p, model, Says(record, p, env), WillSay(record, p, env))
  {
    var p := env.norm(q).value;
    assert env.norm(p) == Some(p);
    BoxSays(box, p, env);
    WriteSays(RecordOf(box), c, p, env);
    AnswersAlike(box, Rewritten(box, c, env), q, model, env);
  }

  /** The record will say of p what it says: no later spelling is filed over p's own key, and no row about
      p comes out of a `providers` object that a flat record hides. */
  predicate LeavesAlone(record: Dict<Json>, p: string, env: Env) {
    if LooksV2(record) then !Collapsed(Blob(record), p, env) else FirstAbout(Blob(record), p, env).None?
  }

  /** ISOLATION. Declaring about p never changes the answer about q, for a record of either schema, with or
      without a providers object, for a flat record that names anybody or nobody, and with no file. */
  lemma DetectIsolated(box: Box, c: Declaration, q: string, model: Option<string>, env: Env)
    requires EnvOk(env) && env.norm(c.provider) == Some(c.provider)
    requires !box.unreadable && Plain(Blob(RecordOf(box))) && Declare(RecordOf(box), c, env).Written?
    requires env.norm(q).Some? && env.norm(q) != Some(c.provider)
    requires LeavesAlone(RecordOf(box), env.norm(q).value, env)
    ensures Detect(Rewritten(box, c, env), Some(q), model, env) == Detect(box, Some(q), model, env)
  {
    var record, p := RecordOf(box), env.norm(q).value;
    FirstAndLast(Blob(record), p, env);
    assert Says(record, p, env) == WillSay(record, p, env);
    AnswerKeptExactly(box, c, q, model, env);
  }

  // ---------------------------------------------------------------- questions that name no account

  /** Entry i is the first that names a recognised account. */
  ghost predicate FirstNamed(entries: seq<Entry>, i: nat) {
    i < |entries| && entries[i].canonical.Some? && forall j :: 0 <= j < i ==> entries[j].canonical.None?
  }

  lemma {:induction false} FirstNamedIs(entries: seq<Entry>, i: nat)
    requires FirstNamed(entries, i)
    ensures FirstIdentified(entries) == entries[i].canonical
  {
    if i > 0 {
      assert entries[0].canonical.None?;
      forall j | 0 <= j < i - 1
        ensures entries[1..][j].canonical.None?
      {
        assert entries[1..][j] == entries[j + 1];
      }
      FirstNamedIs(entries[1..], i - 1);
    }
  }

  lemma {:induction false} NoneNamed(entries: seq<Entry>)
    requires forall j :: 0 <= j < |entries| ==> entries[j].canonical.None?
    ensures FirstIdentified(entries).None?
  {
    if entries != [] {
      assert entries[0].canonical.None?;
      NoneNamed(entries[1..]);
    }
  }

  /** WITHOUT A QUESTION the answer is that about the account of the detected route, */
  lemma RouteAnswers(box: Box, model: Option<string>, env: Env)
    requires box.detected.Some? && env.norm(box.detected.value.provider) == Some(box.detected.value.provider)
    ensures Detect(box, None, model, env) == Detect(box, Some(box.detected.value.provider), model, env)
  {
  }

  /** or, with no route, about the first account the record names; */
  lemma FirstEntryAnswers(box: Box, model: Option<string>, env: Env, i: nat)
    requires EnvOk(env) && box.detected.None? && FirstNamed(BoxEntries(box, env), i)
    requires env.norm(BoxEntries(box, env)[i].canonical.value) == BoxEntries(box, env)[i].canonical
    ensures Detect(box, None, model, env) == Detect(box, Some(BoxEntries(box, env)[i].canonical.value), model, env)
  {
    FirstNamedIs(BoxEntries(box, env), i);
  }

  /** and when nothing is recognised it is the conservative three, or less if the first entry declares less. The
      same three are the answer to a name that is not recognised. */
  lemma NothingRecognised(box: Box, model: Option<string>, env: Env)
    requires EnvOk(env) && !box.unreadable && box.detected.None?
    requires forall j :: 0 <= j < |BoxEntries(box, env)| ==> BoxEntries(box, env)[j].canonical.None?
    ensures var entries, r := BoxEntries(box, env), Detect(box, None, model, env);
            var declared := if entries == [] then None else Positive(Get(entries[0].record, "max_concurrent"));
            && r.provider.None? && r.available == Count(if declared.Some? then Min(declared.value, 3) else 3)
            && r.declaredMax == declared
            && r.status == (if declared.Some? then DeclaredUnverified else Undetermined)
  {
    var entries := BoxEntries(box, env);
    NoneNamed(entries);
    EntriesMatchNames(box, env);
  }

  lemma UnknownNameAnswered(box: Box, q: string, model: Option<string>, env: Env)
    requires !box.unreadable && env.norm(q).None?
    ensures Detect(box, Some(q), model, env) == Resolution(Undetermined, None, None, Count(3), None)
  {
  }

  /** A file that is there and cannot be read gives no answer at all. */
  lemma UnreadableFails(box: Box, requested: Option<string>, model: Option<string>, env: Env)
    ensures Detect(box, requested, model, env).status == Failed <==> box.unreadable
    ensures box.unreadable ==> Detect(box, requested, model, env).available == Nothing
  {
  }

  // ---------------------------------------------------------------- two records that do change an answer

  /** A box with nothing but a record, on which the plan is the record's word alone. */
  function OnlyRecord(record: Dict<Json>): Box {
    Box(Some(record), false, None, map[])
  }

  lemma OnlyPlan(plan: string)
    ensures var said: Option<Dict<Json>> := Some([("plan", Str(plan))]);
            PlanSaid(said) == Some(plan) && MaxSaid(said).None?
  {
    var only: Dict<Json> := [("plan", Str(plan))];
    assert only[1..] == [] && Get<Json>(only[1..], "max_concurrent") == None;
    assert |"plan"| != |"max_concurrent"|;
  }

  /** What one word of a record is worth to a structural account. */
  lemma WordAnswer(plan: Option<string>, p: string, env: Env)
    requires env.norm(p) == Some(p) && Structural(p) && EnvOk(env)
    requires plan.Some? ==> CapTable(p, plan.value).Some?
    ensures var r := ResolveOverride(Some(p), NormalizePlan(plan, Some(p)), None, env);
            if plan.Some? then r.available == Count(CapTable(p, plan.value).value) else r.status == Parked
  {
    PlanTwice(plan, p);
    if plan.Some? {
      PlanStable(plan.value, p);
    }
  }

  /** What a record says of a plan and nothing else. */
  function Word(plan: Option<string>): Option<Dict<Json>> {
    if plan.Some? then Some([("plan", Str(plan.value))]) else None
  }

  /** The answer about the flat-plan account on a box where the record's word is all there is. */
  lemma RecordPlanAnswer(record: Dict<Json>, word: Option<string>, env: Env)
    requires EnvOk(env) && env.norm(OLLAMA) == Some(OLLAMA) && Plain(Blob(record))
    requires word.Some? ==> CapTable(OLLAMA, word.value).Some?
    requires Says(record, OLLAMA, env) == Word(word)
    ensures var r := Detect(OnlyRecord(record), Some(OLLAMA), None, env);
            if word.Some? then r.available == Count(CapTable(OLLAMA, word.value).value) else r.status == Parked
  {
    var box := OnlyRecord(record);
    var e := EntryFor(BoxEntries(box, env), OLLAMA);
    BoxSays(box, OLLAMA, env);
    SaidFields(e);
    if word.Some? {
      OnlyPlan(word.value);
    }
    DetectIs(box, OLLAMA, OLLAMA, None, env);
    assert PlanOf(box, OLLAMA, e, None) == NormalizePlan(word, Some(OLLAMA));
    WordAnswer(word, OLLAMA, env);
  }

  /** The two answers, before and after a declaration about another account. */
  lemma AnswersBeforeAndAfter(record: Dict<Json>, c: Declaration, now: Option<string>, next: Option<string>, env: Env)
    requires EnvOk(env) && env.norm(c.provider) == Some(c.provider) && Plain(Blob(record))
    requires env.norm(OLLAMA) == Some(OLLAMA) && c.provider != OLLAMA
    requires Declare(record, c, env).Written?
    requires now.Some? ==> CapTable(OLLAMA, now.value).Some?
    requires next.Some? ==> CapTable(OLLAMA, next.value).Some?
    requires Says(record, OLLAMA, env) == Word(now) && WillSay(record, OLLAMA, env) == Word(next)
    ensures var r := Detect(OnlyRecord(record), Some(OLLAMA), None, env);
            if now.Some? then r.available == Count(CapTable(OLLAMA, now.value).value) else r.status == Parked
    ensures var r := Detect(Rewritten(OnlyRecord(record), c, env), Some(OLLAMA), None, env);
            if next.Some? then r.available == Count(CapTable(OLLAMA, next.value).value) else r.status == Parked
  {
    RewrittenSays(record, c, OLLAMA, env);
    RecordPlanAnswer(record, now, env);
    RecordPlanAnswer(Declare(record, c, env).payload, next, env);
  }

  /** A flat record that hides a `providers` object: a declaration about another account brings the hidden
      row to life, and the answer goes from parked to the row's width. */
  lemma UpgradeRevivesHiddenEntries(named: set<string>, stamp: string)
    ensures var env := BoxEnv(named);
            var hidden := [(OLLAMA, Object([("plan", Str(OLLAMA_100))]))];
            var record := [("provider", Str(OPENROUTER)), ("providers", Object(hidden))];
            var c := Declaration(OPENROUTER, None, Some(4), Null, stamp);
            && Declare(record, c, env).Written?
            && Detect(OnlyRecord(record), Some(OLLAMA), None, env).status == Parked
            && Detect(Rewritten(OnlyRecord(record), c, env), Some(OLLAMA), None, env).available == Count(8)
  {
    var env := BoxEnv(named);
    var hidden: Dict<Json> := [(OLLAMA, Object([("plan", Str(OLLAMA_100))]))];
    var record: Dict<Json> := [("provider", Str(OPENROUTER)), ("providers", Object(hidden))];
    var c := Declaration(OPENROUTER, None, Some(4), Null, stamp);
    ShortOllama(DeclaredProviders(named));
    BoxEnvOk(named);
    FlatRecord(record, OPENROUTER, hidden, OLLAMA, env);
    WritableWhenPlain(record, c, env);
    AnswersBeforeAndAfter(record, c, None, Some(OLLAMA_100), env);
  }

  lemma TwoRows<V>(d: Dict<V>, k1: string, v1: V, k2: string, v2: V, k: string)
    requires d == [(k1, v1), (k2, v2)] && k1 != k2
    ensures Get(d, k) == if k == k1 then Some(v1) else if k == k2 then Some(v2) else None
  {
    var tail := d[1..];
    assert tail == [(k2, v2)] && tail[1..] == [];
    assert Get<V>(tail[1..], k) == None;
    assert Get<V>(tail, k) == if k == k2 then Some(v2) else None;
  }

  lemma FlatRecord(record: Dict<Json>, name: string, hidden: Dict<Json>, q: string, env: Env)
    requires record == [("provider", Str(name)), ("providers", Object(hidden))]
    requires |hidden| == 1 && hidden[0].0 == q && hidden[0].1.Object? && PlainRow(hidden[0]) && env.norm(q) == Some(q)
    requires env.norm(name).Some? && env.norm(name) != Some(q)
    ensures !LooksV2(record) && Blob(record) == hidden && Plain(hidden)
    ensures Says(record, q, env).None? && WillSay(record, q, env) == RowFields(Some(hidden[0]))
  {
    assert |"schema"| != |"provider"| && |"schema"| != |"providers"| && |"provider"| != |"providers"|;
    TwoRows(record, "provider", Str(name), "providers", Object(hidden), "schema");
    TwoRows(record, "provider", Str(name), "providers", Object(hidden), "provider");
    TwoRows(record, "provider", Str(name), "providers", Object(hidden), "providers");
  }

  lemma RewrittenSays(record: Dict<Json>, c: Declaration, q: string, env: Env)
    requires EnvOk(env) && env.norm(c.provider) == Some(c.provider) && Plain(Blob(record))
    requires env.norm(q) == Some(q) && q != c.provider
    requires Declare(record, c, env).Written?
    ensures var after := Declare(record, c, env).payload;
            Plain(Blob(after)) && Says(after, q, env) == WillSay(record, q, env)
  {
    WriteSays(record, c, q, env);
    RecordSays(Declare(record, c, env).payload, q, env);
  }

  /** Where every row is a sub-record a call without an expected revision always writes. */
  lemma WritableWhenPlain(record: Dict<Json>, c: Declaration, env: Env)
    requires Plain(Blob(record)) && forall i :: 0 <= i < |Blob(record)| ==> Blob(record)[i].1.Object?
    requires c.expected == Null
    ensures Declare(record, c, env).Written?
  {
    var blob, k := Blob(record), c.provider;
    GetFinds(blob, k);
    FiledIsObject(blob, k, env);
    if LooksV2(record) {
      assert Merged(record, env) == MergeEntries(blob, EntriesOf(blob, env));
      MergeGet(blob, blob, env, k);
    } else {
      MergedPlain(record, env);
      var e := EntryOf(record, env);
      if KeyOf(e).Some? {
        GetPut(blob, KeyOf(e).value, Object(Without(record, "provider")), k);
      }
    }
  }

  lemma {:induction false} FiledIsObject(blob: Dict<Json>, x: string, env: Env)
    ensures LastFiled(blob, x, env).Some? ==> LastFiled(blob, x, env).value.Object?
  {
    if blob != [] {
      FiledIsObject(blob[1..], x, env);
    }
  }

  /** A record with two spellings of one account: a declaration about another account files the later one
      over the first, and the answer falls from 8 to 3. */
  lemma RespellingMovesAnswer(named: set<string>, stamp: string)
    ensures var env := BoxEnv(named);
            var blob := [(OLLAMA, Object([("plan", Str(OLLAMA_100))])), ("ollama", Object([("plan", Str(OLLAMA_20))]))];
            var record := [("schema", Number(2)), ("providers", Object(blob))];
            var c := Declaration(OPENROUTER, None, Some(4), Null, stamp);
            && Plain(blob) && Collapsed(blob, OLLAMA, env)
            && Declare(record, c, env).Written?
            && Detect(OnlyRecord(record), Some(OLLAMA), None, env).available == Count(8)
            && Detect(Rewritten(OnlyRecord(record), c, env), Some(OLLAMA), None, env).available == Count(3)
  {
    var env := BoxEnv(named);
    var one, two := Object([("plan", Str(OLLAMA_100))]), Object([("plan", Str(OLLAMA_20))]);
    var blob: Dict<Json> := [(OLLAMA, one), ("ollama", two)];
    var record: Dict<Json> := [("schema", Number(2)), ("providers", Object(blob))];
    var c := Declaration(OPENROUTER, None, Some(4), Null, stamp);
    ShortOllama(DeclaredProviders(named));
    BoxEnvOk(named);
    assert |OLLAMA_100| != |OLLAMA_20|;
    TwoSpellings(record, blob, OLLAMA, "ollama", one, two, env);
    WritableWhenPlain(record, c, env);
    AnswersBeforeAndAfter(record, c, Some(OLLAMA_100), Some(OLLAMA_20), env);
  }

  lemma TwoSpellings(record: Dict<Json>, blob: Dict<Json>, q: string, other: string, one: Json, two: Json, env: Env)
    requires record == [("schema", Number(2)), ("providers", Object(blob))]
    requires blob == [(q, one), (other, two)] && q != other
    requires one.Object? && two.Object? && PlainRow((q, one)) && PlainRow((other, two))
    requires one != two && env.norm(q) == Some(q) && env.norm(other) == Some(q)
    ensures LooksV2(record) && Blob(record) == blob && Plain(blob) && Collapsed(blob, q, env)
    ensures Says(record, q, env) == Some(one.fields) && WillSay(record, q, env) == Some(two.fields)
  {
    assert |"schema"| != |"providers"|;
    TwoRows(record, "schema", Number(2), "providers", Object(blob), "schema");
    TwoRows(record, "schema", Number(2), "providers", Object(blob), "providers");
    assert blob[1..] == [(other, two)] && blob[1..][1..] == [];
    assert LastAbout(blob[1..], q, env) == Some((other, two));
    assert FirstAbout(blob, q, env) == Some((q, one)) && LastAbout(blob, q, env) == Some((other, two));
  }

  // ---------------------------------------------------------------- the account ceiling

  /** `reserve` is the operator's override: Some(n) only for a number that parsed; a negative one is ignored. */
  function AccountCeiling(provider: Option<string>, plan: Option<string>, declared: Option<int>, reserve: Option<int>)
    : Option<int>
  {
    if provider.None? || plan.None? || AccountLimit(provider.value, plan.value).None? then declared
    else
      var (limit, standard) := AccountLimit(provider.value, plan.value).value;
      var kept := if reserve.Some? && reserve.value >= 0 then reserve.value else standard;
      var ceiling := Max(1, limit - kept);
      Some(if declared.Some? && declared.value > 0 then Min(ceiling, declared.value) else ceiling)
  }

  function ResolveCapacity(box: Box, requested: Option<string>, model: Option<string>,
                           reserve: Option<int>, env: Env): Resolution
  {
    WithCeiling(Detect(box, requested, model, env), reserve)
  }

  function WithCeiling(r: Resolution, reserve: Option<int>): Resolution {
    if r.status == Measured && r.available.Count? && r.provider.Some? && r.plan.Some?
       && AccountLimit(r.provider.value, r.plan.value).Some?
    then match AccountCeiling(r.provider, r.plan, r.declaredMax, reserve)
         case Some(n) => r.(available := Count(n))
         case None => r
    else r
  }

  /** The width a resolution may run at, once the ceiling of its account is applied. */
  ghost predicate WithinLimits(r: Resolution, reserve: Option<int>, env: Env) {
    && (r.available.Count? ==> r.available.n >= 1)
    && (r.available.Count? && r.declaredMax.Some? ==> r.available.n <= r.declaredMax.value)
    && (r.available.Count? && r.provider.Some? && r.plan.Some?
        && AccountLimit(r.provider.value, r.plan.value).Some? && CapTable(r.provider.value, r.plan.value).Some? ==>
          var (limit, standard) := AccountLimit(r.provider.value, r.plan.value).value;
          && r.available.n <= limit
          && (reserve.None? || reserve.value < 0 || reserve.value >= standard ==>
                r.available.n <= CapTable(r.provider.value, r.plan.value).value))
    && (r.available.Unbounded? ==> r.provider.Some? && NoCap(r.provider.value, env) && r.declaredMax.None?)
  }

  lemma CeilingWithin(r: Resolution, reserve: Option<int>, env: Env)
    requires Bounded(r, env)
    ensures WithinLimits(WithCeiling(r, reserve), reserve, env)
  {
    if r.provider.Some? && r.plan.Some? {
      RowPositive(r.provider.value, r.plan.value);
    }
  }

  /** A width that keeps the reserve free, where one is always allowed, and respects the declared number. */
  predicate Affordable(m: int, limit: int, kept: int, declared: Option<int>) {
    m >= 1 && (m == 1 || m + kept <= limit) && (declared.Some? ==> m <= declared.value)
  }

  /** What the ceiling makes of a resolution. */
  ghost predicate LargestWidth(r: Resolution, w: Resolution, reserve: Option<int>) {
    && w == r.(available := w.available)
    && (r.available.Count? && r.provider.Some? && Structural(r.provider.value) ==>
          && r.plan.Some? && AccountLimit(r.provider.value, r.plan.value).Some?
          && var (limit, standard) := AccountLimit(r.provider.value, r.plan.value).value;
             var kept := if reserve.Some? && reserve.value >= 0 then reserve.value else standard;
             && w.available.Count? && Affordable(w.available.n, limit, kept, r.declaredMax)
             && forall m :: Affordable(m, limit, kept, r.declaredMax) ==> m <= w.available.n)
    && (!(r.available.Count? && r.provider.Some? && Structural(r.provider.value)) ==> w == r)
  }

  lemma CeilingLargest(r: Resolution, reserve: Option<int>, env: Env)
    requires Bounded(r, env) && (r.available.Count? && r.provider.Some? && Structural(r.provider.value) ==> r.status == Measured)
    requires r.declaredMax.Some? ==> r.declaredMax.value >= 1
    requires r.provider.Some? && !Structural(r.provider.value) ==> r.plan.None?
    ensures LargestWidth(r, WithCeiling(r, reserve), reserve)
  {
    if r.available.Count? && r.provider.Some? && Structural(r.provider.value) {
      RowPositive(r.provider.value, r.plan.value);
      var (limit, standard) := AccountLimit(r.provider.value, r.plan.value).value;
      var kept := if reserve.Some? && reserve.value >= 0 then reserve.value else standard;
      forall m | Affordable(m, limit, kept, r.declaredMax)
        ensures m <= WithCeiling(r, reserve).available.n
      {
        assert m <= Max(1, limit - kept);
      }
    }
  }

  /** On an account with a limit the resolved width is the largest affordable one: with the operator's reserve
      if that is a number from 0 up, with the table's otherwise. Any other answer is left as it is. */
  lemma CapacityIsLargest(box: Box, requested: Option<string>, model: Option<string>,
                          reserve: Option<int>, env: Env)
    requires EnvOk(env)
    ensures LargestWidth(Detect(box, requested, model, env), ResolveCapacity(box, requested, model, reserve, env), reserve)
  {
    NeverUpward(box, requested, model, env);
    DetectShape(box, requested, model, env);
    CeilingLargest(Detect(box, requested, model, env), reserve, env);
  }

  lemma DetectShape(box: Box, requested: Option<string>, model: Option<string>, env: Env)
    requires EnvOk(env)
    ensures var r := Detect(box, requested, model, env);
            && (r.available.Count? && r.provider.Some? && Structural(r.provider.value) ==> r.status == Measured)
            && (r.declaredMax.Some? ==> r.declaredMax.value >= 1)
            && (r.provider.Some? && !Structural(r.provider.value) ==> r.plan.None?)
  {
    var target := TargetOf(box, requested, env);
    var entry := EntryUsed(box, requested, env);
    if !box.unreadable && (target.Some? || entry.Some?) {
      var plan := if target.Some? then PlanOf(box, target.value, entry, model) else None;
      var raw := if target.Some? then target
                 else if requested.Some? then requested
                 else if entry.Some? then entry.value.declared else None;
      OverrideShape(raw, plan, MaxField(entry), env);
    }
  }

  lemma OverrideShape(raw: Option<string>, plan: Option<string>, max: Option<Json>, env: Env)
    requires EnvOk(env)
    ensures var r := ResolveOverride(raw, plan, max, env);
            && (r.available.Count? && r.provider.Some? && Structural(r.provider.value) ==> r.status == Measured)
            && (r.provider.Some? && !Structural(r.provider.value) ==> r.plan.None?)
  {
    if NormOpt(raw, env).Some? {
      PlanHasRow(plan, NormOpt(raw, env).value);
    }
  }

  /** A resolved width is at least 1 and never above the account limit or a declared number, for every
      reserve override; and unless the operator lowers the reserve it stays within the table row. */
  lemma CapacityWithinLimits(box: Box, requested: Option<string>, model: Option<string>,
                             reserve: Option<int>, env: Env)
    requires EnvOk(env)
    ensures WithinLimits(ResolveCapacity(box, requested, model, reserve, env), reserve, env)
  {
    NeverUpward(box, requested, model, env);
    CeilingWithin(Detect(box, requested, model, env), reserve, env);
  }
}
