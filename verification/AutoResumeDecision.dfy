/** The verdict for one run: which parks wait on a person, which resume on their own, and exactly when
    a resume is authorised, all read off the reason text, the locked plan answers and the ledger. */
module AutoResumeDecision {
  import opened Text
  import opened AutoResumeLedger
  import CapacityNames

  datatype FailureClass = OwnerDecision | ProviderError | MissingInput | VerifierSubstance | Transient | Unmapped

  datatype ParkClass = TransientInfra | ClientAction | OperatorAction

  const CREDENTIAL_MARKERS: seq<string> := ["has no resolvable key", "no store carries a plausible credential"]

  const PLAN_MARKERS: seq<string> :=
    ["resource plan pending", "resource-plan pending", "resource_plan answer",
     "plan is undeclared", "plan undeclared", "its plan is unknown"]

  const CLIENT_MISSING_MARKERS: seq<string> := ["missing intake"]

  const CLOSE_TIME_PHASES: seq<string> := ["CLOSE", "CERT-INTEGRITY", "CURATION", "SELF-AUDIT"]

  predicate Mentions(reason: string, markers: seq<string>) {
    exists i :: 0 <= i < |markers| && Contains(Lower(reason), markers[i])
  }

  predicate ConfigurationPark(reason: string) {
    Mentions(reason, CREDENTIAL_MARKERS) || Mentions(reason, PLAN_MARKERS)
  }

  // ---------------------------------------------------------------- the failure class

  const OWNER_MARKERS: seq<string> :=
    ["owner_skip_approval", "waiver", "waivers", "owner has", "owner-decision", "owner decision", "gate declined"]

  const PROVIDER_MARKERS: seq<string> :=
    ["http 402", "http 429", "http 5", "402", "429", "payment required", "insufficient", "can only afford",
     "quota", "rate limit", "connection", "timed out", "timeout", "bad gateway", "service unavailable",
     "provider", "deepseekcal"]

  const MISSING_MARKERS: seq<string> :=
    ["missing working/", "missing deliverables/", "no artifact", "produced nothing", "missing intake",
     "not found in working/"]

  const VERIFIER_MARKERS: seq<string> := ["substance check failed", "verifier", "verify"]

  /** What kind of failure a reason text names; an owner's decision is looked for first. */
  function ClassifyFailure(reason: string): FailureClass {
    if Mentions(reason, OWNER_MARKERS) then OwnerDecision
    else if Mentions(reason, PROVIDER_MARKERS) then ProviderError
    else if Mentions(reason, MISSING_MARKERS) then MissingInput
    else if Mentions(reason, VERIFIER_MARKERS) then VerifierSubstance
    else Transient
  }

  // ---------------------------------------------------------------- the plan answer

  /** The providers whose plan can be known, in the order they are looked for. */
  const PLAN_PROVIDERS: seq<string> := [CapacityNames.DEEPSEEK, CapacityNames.OLLAMA, CapacityNames.OPENROUTER]

  /** Where `needle` begins first in `hay`. */
  function Find(hay: string, needle: string): (at: Option<nat>)
    ensures at.Some? ==> at.value <= |hay| && needle <= hay[at.value..]
    ensures forall k :: 0 <= k <= |hay| && (at.None? || k < at.value) ==> !(needle <= hay[k..])
  {
    if needle <= hay then Some(0)
    else if hay == "" then None
    else
      var rest := Find(hay[1..], needle);
      assert forall k :: 0 < k <= |hay| ==> hay[k..] == hay[1..][k - 1..];
      if rest.Some? then Some(rest.value + 1) else None
  }

  predicate WordChar(c: char) {
    'a' <= c <= 'z' || 'A' <= c <= 'Z' || '0' <= c <= '9' || c == '_'
  }

  /** The id's first occurrence does not continue a longer word on its left; later ones are not looked at. */
  predicate Names(text: string, id: string) {
    var at := Find(text, id);
    at.Some? && (at.value == 0 || !WordChar(text[at.value - 1]))
  }

  /** The provider a reason asks about. */
  function ProviderOf(reason: string): Option<string> {
    var text := Lower(reason);
    var k := FirstWhere(PLAN_PROVIDERS, id => Names(text, id));
    if k < |PLAN_PROVIDERS| then Some(PLAN_PROVIDERS[k]) else None
  }

  /** The id begins somewhere, nowhere earlier, and there it does not continue a longer word. */
  ghost predicate StandsFirst(text: string, id: string) {
    exists k :: 0 <= k <= |text| && FirstAt(text, id, k) && (k == 0 || Boundary(text[k - 1] as int))
  }

  /** A character code that is no ASCII letter, digit or underscore. */
  predicate Boundary(code: int) {
    code < 48 || 57 < code < 65 || 90 < code < 95 || code == 96 || 122 < code
  }

  ghost predicate FirstAt(text: string, id: string, k: nat)
    requires k <= |text|
  {
    id <= text[k..] && forall j :: 0 <= j < k ==> !(id <= text[j..])
  }

  lemma FindIsFirst(text: string, id: string, k: nat)
    requires k <= |text|
    ensures FirstAt(text, id, k) <==> Find(text, id) == Some(k)
  {
    var at := Find(text, id);
    assert FirstAt(text, id, k) ==> at.Some? && at.value <= k;
  }

  lemma NamesExactly(text: string, id: string)
    ensures Names(text, id) <==> StandsFirst(text, id)
  {
    if Names(text, id) {
      FindIsFirst(text, id, Find(text, id).value);
    }
    if StandsFirst(text, id) {
      var k :| 0 <= k <= |text| && FirstAt(text, id, k) && (k == 0 || Boundary(text[k - 1] as int));
      FindIsFirst(text, id, k);
    }
  }

  /** The provider of a reason is the first in the list whose first occurrence stands on its own, and there is
      none exactly when no listed id stands so. */
  lemma ProviderOfExactly(reason: string)
    ensures var text := Lower(reason);
            match ProviderOf(reason)
            case None => forall n :: 0 <= n < |PLAN_PROVIDERS| ==> !StandsFirst(text, PLAN_PROVIDERS[n])
            case Some(id) => exists n :: 0 <= n < |PLAN_PROVIDERS| && PLAN_PROVIDERS[n] == id && StandsFirst(text, id)
                                         && forall m :: 0 <= m < n ==> !StandsFirst(text, PLAN_PROVIDERS[m])
  {
    var text := Lower(reason);
    var k := FirstWhere(PLAN_PROVIDERS, id => Names(text, id));
    forall n | 0 <= n < |PLAN_PROVIDERS|
      ensures Names(text, PLAN_PROVIDERS[n]) <==> StandsFirst(text, PLAN_PROVIDERS[n])
    {
      NamesExactly(text, PLAN_PROVIDERS[n]);
    }
    if k < |PLAN_PROVIDERS| {
      assert PLAN_PROVIDERS[k] == ProviderOf(reason).value;
    }
  }

  /** A provider's entry in the resource profile. */
  datatype PlanEntry = PlanEntry(locked: bool, tier: string)

  datatype PlanAnswer = NoAnswer | Tier | Decline

  /** What the profile says about the provider the reason names: only a locked entry is an answer. */
  function KnownAnswer(reason: string, profile: map<string, PlanEntry>): PlanAnswer {
    match ProviderOf(reason)
    case None => NoAnswer
    case Some(id) =>
      if id !in profile || !profile[id].locked then NoAnswer
      else if Strip(profile[id].tier) == "" then Decline
      else Tier
  }

  /** Only a locked entry of that provider is an answer: a tier if it has a visible one, and a decline if not. */
  lemma AnswerExactly(reason: string, profile: map<string, PlanEntry>)
    ensures var id, answer := ProviderOf(reason), KnownAnswer(reason, profile);
            && (answer == NoAnswer <==> id.None? || id.value !in profile || !profile[id.value].locked)
            && (answer == Tier <==>
                  id.Some? && id.value in profile && profile[id.value].locked && !Blank(profile[id.value].tier))
  {
    var id := ProviderOf(reason);
    if id.Some? && id.value in profile {
      StripEmpty(profile[id.value].tier);
    }
  }

  // ---------------------------------------------------------------- the park class

  predicate AtClose(phase: string) {
    phase in CLOSE_TIME_PHASES
  }

  /** The park class of the recorded park: configuration markers first, then the failure class. */
  function ClassifyPark(reason: string, phase: string, fclass: FailureClass): ParkClass {
    if Strip(reason) == "" then OperatorAction
    else if Mentions(reason, CREDENTIAL_MARKERS) then OperatorAction
    else if Mentions(reason, PLAN_MARKERS) then ClientAction
    else match fclass
         case OwnerDecision => ClientAction
         case ProviderError => TransientInfra
         case MissingInput => if Mentions(reason, CLIENT_MISSING_MARKERS) then ClientAction else TransientInfra
         case VerifierSubstance => if AtClose(phase) then OperatorAction else TransientInfra
         case Transient => TransientInfra
         case Unmapped => OperatorAction
  }

  datatype PinStatus = PinOk | Mismatch | Incomparable

  /** state.json as a decision reads it; unreadable when `readable` is false. */
  datatype View = View(readable: bool, terminal: string, phase: string, reason: string, book: Book)

  /** What is outside the state: the switch, the resource profile, the pin, and whether re-pin is there. */
  datatype Surroundings =
    Surroundings(enabled: bool, profile: map<string, PlanEntry>, pin: PinStatus, repin: Option<bool>)

  datatype Code =
    | Resume | NotBlocked | OwnerCode | CloseGate | CapExhausted | Backoff | Disabled | ManifestPin | Unreadable
    | ConfigurationPending | KnownPlan | ClientCode | OperatorCode | CrashResume | CrashCap | WrongShape

  datatype Decision = Decision(resume: bool, code: Code, parkClass: Option<ParkClass>, counted: Option<nat>)

  /** The verdict on a park of this class of failure, asking about a plan with this answer. */
  function Verdict(v: View, around: Surroundings, fclass: FailureClass, answer: PlanAnswer, now: int): Decision {
    if !around.enabled then Decision(false, Disabled, None, None)
    else if !v.readable then Decision(false, Unreadable, None, None)
    else if v.terminal != "BLOCKED" then Decision(false, NotBlocked, None, None)
    else
      var park := ClassifyPark(v.reason, v.phase, fclass);
      var configuration := ConfigurationPark(v.reason);
      if configuration && answer == NoAnswer then Decision(false, ConfigurationPending, Some(park), None)
      else if configuration && answer == Decline then Decision(false, KnownPlan, Some(park), None)
      else if fclass == OwnerDecision then Decision(false, OwnerCode, Some(park), None)
      else if AtClose(v.phase) && fclass != Transient && fclass != ProviderError
      then Decision(false, CloseGate, Some(park), None)
      else if !configuration && park == ClientAction then Decision(false, ClientCode, Some(park), None)
      else if !configuration && park == OperatorAction then Decision(false, OperatorCode, Some(park), None)
      else if around.pin == Mismatch && around.repin != Some(true)
      then Decision(false, ManifestPin, Some(park), None)
      else
        var counted := |Unified(v.book, now)|;
        if !CapLeft(All(v.book), now) then Decision(false, CapExhausted, Some(park), Some(counted))
        else if !Waited(All(v.book), now) then Decision(false, Backoff, Some(park), Some(counted))
        else Decision(true, if configuration then KnownPlan else Resume, Some(park), Some(counted))
  }

  function Evaluate(v: View, around: Surroundings, now: int): Decision {
    Verdict(v, around, ClassifyFailure(v.reason), KnownAnswer(v.reason, around.profile), now)
  }

  function EvaluateCrash(v: View, around: Surroundings, now: int): Decision {
    if !around.enabled then Decision(false, Disabled, None, None)
    else if !v.readable then Decision(false, Unreadable, None, None)
    else if v.terminal == "DONE" || v.terminal == "ABANDONED" || v.terminal == "BLOCKED"
    then Decision(false, WrongShape, None, None)
    else if around.pin == Mismatch && around.repin != Some(true) then Decision(false, ManifestPin, None, None)
    else
      var counted := |Unified(v.book, now)|;
      if !CapLeft(All(v.book), now) then Decision(false, CrashCap, None, Some(counted))
      else if !Waited(All(v.book), now) then Decision(false, Backoff, None, Some(counted))
      else Decision(true, CrashResume, None, Some(counted))
  }

  // ---------------------------------------------------------------- exactly when

  /** A park another attempt may cure with nobody acting: nothing was judged at a close-time gate, and
      what failed is outside, transient, or something the engine makes again. */
  predicate CuresItself(reason: string, phase: string, fclass: FailureClass) {
    && !Blank(reason)
    && (|| fclass == ProviderError
        || fclass == Transient
        || (fclass == MissingInput && !Mentions(reason, CLIENT_MISSING_MARKERS) && !AtClose(phase))
        || (fclass == VerifierSubstance && !AtClose(phase)))
  }

  /** The plan the park asks about is a locked tier, and neither an owner nor a close-time gate decides. */
  predicate PlanKnown(phase: string, fclass: FailureClass, answer: PlanAnswer) {
    answer == Tier && fclass != OwnerDecision && (AtClose(phase) ==> fclass == Transient || fclass == ProviderError)
  }

  predicate GatesOpen(v: View, around: Surroundings, fclass: FailureClass, answer: PlanAnswer) {
    && around.enabled && v.readable && v.terminal == "BLOCKED"
    && (if ConfigurationPark(v.reason) then PlanKnown(v.phase, fclass, answer)
        else CuresItself(v.reason, v.phase, fclass))
    && (around.pin != Mismatch || around.repin == Some(true))
  }

  /** Everything but the bounds. */
  predicate ParkGates(v: View, around: Surroundings) {
    GatesOpen(v, around, ClassifyFailure(v.reason), KnownAnswer(v.reason, around.profile))
  }

  predicate CrashGates(v: View, around: Surroundings) {
    && around.enabled && v.readable && v.terminal !in {"DONE", "ABANDONED", "BLOCKED"}
    && (around.pin != Mismatch || around.repin == Some(true))
  }

  lemma VerdictExactly(v: View, around: Surroundings, fclass: FailureClass, answer: PlanAnswer, now: int)
    ensures Verdict(v, around, fclass, answer, now).resume <==>
            GatesOpen(v, around, fclass, answer) && BoundsAllow(v.book, now)
  {
    if !ConfigurationPark(v.reason) {
      ParkClassExactly(v.reason, v.phase, fclass);
    }
  }

  /** AUTHORISED EXACTLY WHEN. A parked run resumes if and only if every gate stands open and the cap and
      the backoff allow it; the poll of a run uses the same two halves. */
  lemma ResumeExactly(v: View, around: Surroundings, now: int)
    ensures Evaluate(v, around, now).resume <==> ParkGates(v, around) && BoundsAllow(v.book, now)
  {
    VerdictExactly(v, around, ClassifyFailure(v.reason), KnownAnswer(v.reason, around.profile), now);
  }

  /** What a verdict tells about a park of this class of failure, asking about a plan with this answer: the park's
      class for every readable blocked run, the attempts spent exactly when only the bounds are left to decide,
      and as its code the first reason that stands against a resume. */
  ghost predicate Tells(d: Decision, v: View, around: Surroundings, fclass: FailureClass, answer: PlanAnswer, now: int) {
    var blocked, gates := around.enabled && v.readable && v.terminal == "BLOCKED", GatesOpen(v, around, fclass, answer);
    && d.parkClass == (if blocked then Some(ClassifyPark(v.reason, v.phase, fclass)) else None)
    && d.counted == (if gates then Some(|Unified(v.book, now)|) else None)
    && (d.code == Disabled <==> !around.enabled)
    && (d.code == Unreadable <==> around.enabled && !v.readable)
    && (d.code == NotBlocked <==> around.enabled && v.readable && v.terminal != "BLOCKED")
    && (d.code == ConfigurationPending <==> blocked && ConfigurationPark(v.reason) && answer == NoAnswer)
    && (d.code == CapExhausted <==> gates && |Unified(v.book, now)| >= CAP)
    && (d.code == Backoff <==> gates && |Unified(v.book, now)| < CAP && !BoundsAllow(v.book, now))
    && (d.code == Resume <==> d.resume && !ConfigurationPark(v.reason))
    && (d.code == KnownPlan <==> blocked && ConfigurationPark(v.reason) && (d.resume || answer == Decline))
  }

  lemma VerdictSays(v: View, around: Surroundings, fclass: FailureClass, answer: PlanAnswer, now: int)
    ensures Tells(Verdict(v, around, fclass, answer, now), v, around, fclass, answer, now)
  {
    if !(around.enabled && v.readable && v.terminal == "BLOCKED") {
    } else if ConfigurationPark(v.reason) {
      ConfigurationSays(v, around, fclass, answer, now);
    } else {
      ParkSays(v, around, fclass, answer, now);
    }
  }

  lemma ConfigurationSays(v: View, around: Surroundings, fclass: FailureClass, answer: PlanAnswer, now: int)
    requires around.enabled && v.readable && v.terminal == "BLOCKED" && ConfigurationPark(v.reason)
    ensures Tells(Verdict(v, around, fclass, answer, now), v, around, fclass, answer, now)
  {
  }

  lemma ParkSays(v: View, around: Surroundings, fclass: FailureClass, answer: PlanAnswer, now: int)
    requires around.enabled && v.readable && v.terminal == "BLOCKED" && !ConfigurationPark(v.reason)
    ensures Tells(Verdict(v, around, fclass, answer, now), v, around, fclass, answer, now)
  {
    ParkClassExactly(v.reason, v.phase, fclass);
  }

  /** WHAT THE VERDICT TELLS, for every state, profile and clock. */
  lemma VerdictTells(v: View, around: Surroundings, now: int)
    ensures Tells(Evaluate(v, around, now), v, around, ClassifyFailure(v.reason), KnownAnswer(v.reason, around.profile), now)
  {
    VerdictSays(v, around, ClassifyFailure(v.reason), KnownAnswer(v.reason, around.profile), now);
  }

  /** The same of a run whose engine died: what is not such a run is turned away before anything is counted. */
  lemma CrashVerdictTells(v: View, around: Surroundings, now: int)
    ensures var d := EvaluateCrash(v, around, now);
            && d.counted == (if CrashGates(v, around) then Some(|Unified(v.book, now)|) else None)
            && (d.code == WrongShape <==>
                  around.enabled && v.readable
                  && (v.terminal == "DONE" || v.terminal == "ABANDONED" || v.terminal == "BLOCKED"))
            && (d.code == CrashCap <==> CrashGates(v, around) && |Unified(v.book, now)| >= CAP)
            && (d.code == Backoff <==>
                  CrashGates(v, around) && |Unified(v.book, now)| < CAP && !BoundsAllow(v.book, now))
            && (d.code == CrashResume <==> d.resume)
  {
  }

  /** A crashed run resumes if and only if its gates and the same bounds allow it, and no state is ever
      resumed by both paths. */
  lemma CrashResumeExactly(v: View, around: Surroundings, now: int)
    ensures EvaluateCrash(v, around, now).resume <==> CrashGates(v, around) && BoundsAllow(v.book, now)
    ensures !(EvaluateCrash(v, around, now).resume && Evaluate(v, around, now).resume)
  {
  }

  lemma BlankHasNoMarkers(reason: string)
    requires Blank(reason)
    ensures !ConfigurationPark(reason)
  {
    MarkersVisible();
    forall i | 0 <= i < |CREDENTIAL_MARKERS|
      ensures !Contains(Lower(reason), CREDENTIAL_MARKERS[i])
    {
      BlankContainsNothing(reason, CREDENTIAL_MARKERS[i]);
    }
    forall i | 0 <= i < |PLAN_MARKERS|
      ensures !Contains(Lower(reason), PLAN_MARKERS[i])
    {
      BlankContainsNothing(reason, PLAN_MARKERS[i]);
    }
  }

  lemma MarkersVisible()
    ensures forall i :: 0 <= i < |CREDENTIAL_MARKERS| ==> !Blank(CREDENTIAL_MARKERS[i])
    ensures forall i :: 0 <= i < |PLAN_MARKERS| ==> !Blank(PLAN_MARKERS[i])
  {
    forall i | 0 <= i < |CREDENTIAL_MARKERS|
      ensures !Blank(CREDENTIAL_MARKERS[i])
    {
      assert !IsSpace(CREDENTIAL_MARKERS[i][0]);
    }
    forall i | 0 <= i < |PLAN_MARKERS|
      ensures !Blank(PLAN_MARKERS[i])
    {
      assert !IsSpace(PLAN_MARKERS[i][0]);
    }
  }

  /** WHO A PARK WAITS FOR, exactly. Transient: a reason with no configuration marker, and a failure the
      engine or a retry cures. Client: a plan answer is owed, or an owner decides, or the client's own
      input is missing, and no credential is. Everything else waits on the team. */
  lemma ParkClassExactly(reason: string, phase: string, fclass: FailureClass)
    ensures ClassifyPark(reason, phase, fclass) == TransientInfra <==>
              && !Blank(reason) && !ConfigurationPark(reason)
              && (|| fclass == ProviderError || fclass == Transient
                  || (fclass == MissingInput && !Mentions(reason, CLIENT_MISSING_MARKERS))
                  || (fclass == VerifierSubstance && !AtClose(phase)))
    ensures ClassifyPark(reason, phase, fclass) == ClientAction <==>
              && !Blank(reason) && !Mentions(reason, CREDENTIAL_MARKERS)
              && (|| Mentions(reason, PLAN_MARKERS) || fclass == OwnerDecision
                  || (fclass == MissingInput && Mentions(reason, CLIENT_MISSING_MARKERS)))
  {
    StripEmpty(reason);
  }

  /** A park with no reason text never resumes, whatever the classifier calls it, and waits on the team. */
  lemma NoReasonNeverResumes(v: View, around: Surroundings, now: int)
    requires Blank(v.reason)
    ensures !Evaluate(v, around, now).resume
    ensures ClassifyPark(v.reason, v.phase, ClassifyFailure(v.reason)) == OperatorAction
  {
    ResumeExactly(v, around, now);
    StripEmpty(v.reason);
    BlankHasNoMarkers(v.reason);
  }

  /** A PARK THAT WAITS ON A PERSON RESUMES EXACTLY when it is a configuration park whose provider has a
      locked plan tier. The check asks for any configuration marker, so a missing credential, which only
      the team can supply, counts like the missing plan answer. */
  lemma CredentialParkResumesOnKnownPlan(v: View, around: Surroundings, now: int)
    ensures var park := ClassifyPark(v.reason, v.phase, ClassifyFailure(v.reason));
            var allowed := ParkGates(v, around) && BoundsAllow(v.book, now);
            && (Evaluate(v, around, now).resume && park == OperatorAction
                <==> Mentions(v.reason, CREDENTIAL_MARKERS) && allowed)
            && (Evaluate(v, around, now).resume && park == ClientAction
                <==> !Mentions(v.reason, CREDENTIAL_MARKERS) && Mentions(v.reason, PLAN_MARKERS) && allowed)
    ensures ConfigurationPark(v.reason) && ParkGates(v, around) ==> KnownAnswer(v.reason, around.profile) == Tier
  {
    ResumeExactly(v, around, now);
    ParkClassExactly(v.reason, v.phase, ClassifyFailure(v.reason));
    if Blank(v.reason) {
      BlankHasNoMarkers(v.reason);
    }
  }

  // ---------------------------------------------------------------- the law of the markers

  /** Which class, exactly: the first of the four families one of whose markers occurs in the lower-case text. */
  lemma ClassExactly(reason: string)
    ensures var c := ClassifyFailure(reason);
            && (c == OwnerDecision <==> Mentions(reason, OWNER_MARKERS))
            && (c == ProviderError <==> Mentions(reason, PROVIDER_MARKERS) && !Mentions(reason, OWNER_MARKERS))
            && (c == MissingInput <==>
                  Mentions(reason, MISSING_MARKERS)
                  && !Mentions(reason, PROVIDER_MARKERS) && !Mentions(reason, OWNER_MARKERS))
            && (c == VerifierSubstance <==>
                  Mentions(reason, VERIFIER_MARKERS) && !Mentions(reason, MISSING_MARKERS)
                  && !Mentions(reason, PROVIDER_MARKERS) && !Mentions(reason, OWNER_MARKERS))
            && c != Unmapped
  {
  }

  /** What every resume of a park needs, whatever its reason. */
  predicate Resumable(v: View, around: Surroundings, now: int) {
    && around.enabled && v.readable && v.terminal == "BLOCKED"
    && (around.pin == Mismatch ==> around.repin == Some(true))
    && BoundsAllow(v.book, now)
  }

  /** AN OWNER'S DECISION IS NEVER RESUMED: no reason with an owner marker, whatever else it mentions, for any
      profile, phase, ledger and clock. */
  lemma OwnerNeverResumes(v: View, around: Surroundings, now: int)
    requires Mentions(v.reason, OWNER_MARKERS)
    ensures !Evaluate(v, around, now).resume
  {
    ResumeExactly(v, around, now);
  }

  /** A reason with neither an owner marker nor a configuration marker resumes exactly by its other markers. */
  lemma MarkersDecide(v: View, around: Surroundings, now: int)
    requires !Blank(v.reason) && !Mentions(v.reason, OWNER_MARKERS)
    requires !Mentions(v.reason, CREDENTIAL_MARKERS) && !Mentions(v.reason, PLAN_MARKERS)
    ensures Evaluate(v, around, now).resume <==>
              && Resumable(v, around, now)
              && (if Mentions(v.reason, PROVIDER_MARKERS) then true
                  else if Mentions(v.reason, MISSING_MARKERS)
                  then !Mentions(v.reason, CLIENT_MISSING_MARKERS) && v.phase !in CLOSE_TIME_PHASES
                  else if Mentions(v.reason, VERIFIER_MARKERS) then v.phase !in CLOSE_TIME_PHASES
                  else true)
  {
    ResumeExactly(v, around, now);
  }

  /** A configuration park resumes exactly when the plan it asks about is locked with a tier, no owner decides,
      and at a close-time gate only when the text names a provider or nothing at all. */
  lemma ConfigurationDecides(v: View, around: Surroundings, now: int)
    requires Mentions(v.reason, CREDENTIAL_MARKERS) || Mentions(v.reason, PLAN_MARKERS)
    ensures Evaluate(v, around, now).resume <==>
              && Resumable(v, around, now)
              && KnownAnswer(v.reason, around.profile) == Tier && !Mentions(v.reason, OWNER_MARKERS)
              && (v.phase in CLOSE_TIME_PHASES ==>
                    Mentions(v.reason, PROVIDER_MARKERS)
                    || (!Mentions(v.reason, MISSING_MARKERS) && !Mentions(v.reason, VERIFIER_MARKERS)))
  {
    ResumeExactly(v, around, now);
    ClassExactly(v.reason);
  }

  // ---------------------------------------------------------------- such a park

  /** The reason the router parks with when no key resolves for DeepSeek. */
  const KEY_PARK := "provider " + (CapacityNames.DEEPSEEK + (" " + (CREDENTIAL_MARKERS[0] + KEY_NOTE)))
  const KEY_NOTE := " (FIX 114: no " + ("store carries a " + "plausible credential)")

  /** `low` is the text in lower case, and two letters that every owner marker has one of are not in it. */
  predicate LowText(s: string, low: string) {
    Lower(s) == low && 'w' !in low && 'g' !in low
  }

  lemma LowAppend(a: string, la: string, b: string, lb: string)
    requires LowText(a, la) && LowText(b, lb)
    ensures LowText(a + b, la + lb)
  {
  }

  lemma NoteWords()
    ensures LowText(" (FIX 114: no ", " (fix 114: no ") && LowText("store carries a ", "store carries a ")
  {
  }

  lemma LastWords()
    ensures LowText("plausible credential)", "plausible credential)")
  {
  }

  lemma KeyNoteText() returns (low: string)
    ensures LowText(KEY_NOTE, low)
  {
    low := " (fix 114: no " + ("store carries a " + "plausible credential)");
    NoteWords();
    LastWords();
    LowAppend("store carries a ", "store carries a ", "plausible credential)", "plausible credential)");
    LowAppend(" (FIX 114: no ", " (fix 114: no ", "store carries a " + "plausible credential)",
              "store carries a " + "plausible credential)");
  }

  lemma FirstWords()
    ensures LowText("provider ", "provider ") && LowText(" ", " ")
    ensures LowText(CapacityNames.DEEPSEEK, CapacityNames.DEEPSEEK)
  {
  }

  lemma MarkerWords()
    ensures LowText(CREDENTIAL_MARKERS[0], CREDENTIAL_MARKERS[0])
  {
  }

  lemma KeyParkText() returns (note: string)
    ensures LowText(KEY_PARK, "provider " + (CapacityNames.DEEPSEEK + (" " + (CREDENTIAL_MARKERS[0] + note))))
  {
    note := KeyNoteText();
    var id, marker := CapacityNames.DEEPSEEK, CREDENTIAL_MARKERS[0];
    FirstWords();
    MarkerWords();
    LowAppend(marker, marker, KEY_NOTE, note);
    LowAppend(" ", " ", marker + KEY_NOTE, marker + note);
    LowAppend(id, id, " " + (marker + KEY_NOTE), " " + (marker + note));
    LowAppend("provider ", "provider ", id + (" " + (marker + KEY_NOTE)), id + (" " + (marker + note)));
  }

  lemma AbsentChar(hay: string, needle: string, k: nat)
    requires k < |needle| && needle[k] !in hay
    ensures !Contains(hay, needle)
  {
    forall i | 0 <= i <= |hay|
      ensures !(needle <= hay[i..])
    {
      if i + k < |hay| {
        assert hay[i..][k] == hay[i + k];
      }
    }
  }

  lemma NoOwner(text: string)
    requires 'w' !in text && 'g' !in text
    ensures forall i :: 0 <= i < |OWNER_MARKERS| ==> !Contains(text, OWNER_MARKERS[i])
  {
    forall i | 0 <= i < |OWNER_MARKERS|
      ensures !Contains(text, OWNER_MARKERS[i])
    {
      AbsentChar(text, OWNER_MARKERS[i], if i == 1 || i == 2 || i == 6 then 0 else 1);
    }
  }

  lemma KeyParkClass()
    ensures ClassifyFailure(KEY_PARK) == ProviderError
  {
    var note := KeyParkText();
    var text := Lower(KEY_PARK);
    NoOwner(text);
    assert text[0..] == text;
    assert PROVIDER_MARKERS[15] <= "provider " <= text[0..];
    assert Contains(text, PROVIDER_MARKERS[15]);
  }

  /** After eight characters and a blank the id begins, and not before. */
  lemma FindAfterWord(rest: string)
    ensures Find("provider " + (CapacityNames.DEEPSEEK + rest), CapacityNames.DEEPSEEK) == Some(9)
  {
    var front, id := "provider ", CapacityNames.DEEPSEEK;
    var text := front + (id + rest);
    assert text[9..] == id + rest;
    forall k | 0 <= k < 9
      ensures !(id <= text[k..])
    {
      assert text[k..][0] == text[k] == front[k];
      assert k < 7 ==> text[k..][2] == text[k + 2] == front[k + 2];
    }
  }

  lemma KeyParkProvider()
    ensures ProviderOf(KEY_PARK) == Some(CapacityNames.DEEPSEEK)
  {
    var note := KeyParkText();
    var text := Lower(KEY_PARK);
    FindAfterWord(" " + (CREDENTIAL_MARKERS[0] + note));
    assert text[8] == ' ';
    assert Names(text, PLAN_PROVIDERS[0]);
  }

  lemma KeyParkMarker()
    ensures Mentions(KEY_PARK, CREDENTIAL_MARKERS)
  {
    var note := KeyParkText();
    var text := Lower(KEY_PARK);
    assert text[25..] == CREDENTIAL_MARKERS[0] + note;
    assert Contains(text, CREDENTIAL_MARKERS[0]);
  }

  /** With a locked tier for DeepSeek on record, the park about its missing key is the team's to clear and
      resumes on its own. */
  lemma MissingKeyResumes(tier: string, now: int)
    requires !Blank(tier)
    ensures var v := View(true, "BLOCKED", "P4-COPY", KEY_PARK, Book(Missing, Missing, None));
            var around := Surroundings(true, map[CapacityNames.DEEPSEEK := PlanEntry(true, tier)], PinOk, None);
            && ClassifyPark(KEY_PARK, "P4-COPY", ClassifyFailure(KEY_PARK)) == OperatorAction
            && Evaluate(v, around, now).resume
  {
    var v := View(true, "BLOCKED", "P4-COPY", KEY_PARK, Book(Missing, Missing, None));
    var around := Surroundings(true, map[CapacityNames.DEEPSEEK := PlanEntry(true, tier)], PinOk, None);
    KeyParkClass();
    KeyParkProvider();
    KeyParkMarker();
    StripEmpty(tier);
    assert Unified(v.book, now) == [];
    CredentialParkResumesOnKnownPlan(v, around, now);
  }
}
