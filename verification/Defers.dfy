/** The gate expression of an optional phase: comparisons are replaced in the text, the rest is parsed
    and walked. Main result: the text of any boolean tree evaluates to the tree's direct meaning, and
    the evaluator opens a gate for no other text. */
module Defers {
  import opened Text

  // ---------------------------------------------------------------- intake answers

  /** A stored answer; Other carries the text Python's str() shows for a number, a list or an object. */
  datatype Answer = Null | Words(s: string) | Flag(b: bool) | Other(shown: string)

  /** The intake record: top-level answers, the capture block if it is an object, the recorded waivers. */
  datatype Intake = Intake(top: map<string, Answer>, capture: map<string, Answer>, waivers: set<string>)

  datatype WantKey = WantKey(captureKey: string, lowerKey: string, waiverRule: string, standard: string)

  function WantSpec(key: string): Option<WantKey> {
    if key == "want_sales_checkout"
    then Some(WantKey("WANT_SALES_CHECKOUT", "want_sales_checkout", "sales_checkout", "yes"))
    else if key == "want_vsl_page"
    then Some(WantKey("WANT_VSL_PAGE", "want_vsl_page", "vsl_page", "no"))
    else None
  }

  function Shown(a: Answer): string {
    match a
    case Null => "None"
    case Words(s) => s
    case Flag(b) => if b then "True" else "False"
    case Other(shown) => shown
  }

  function Canon(value: string): string {
    if value in {"yes", "true", "1", "y", "on"} then "yes"
    else if value in {"no", "false", "0", "n", "off"} then "no"
    else value
  }

  /** A stored, non-null answer, stripped and in lower case. */
  function Stored(m: map<string, Answer>, key: string): Option<string> {
    if key in m && m[key] != Answer.Null then Some(Lower(Strip(Shown(m[key])))) else None
  }

  function Upper(s: string): string {
    seq(|s|, i requires 0 <= i < |s| => if 'a' <= s[i] <= 'z' then (s[i] as int - 32) as char else s[i])
  }

  function Filled(v: Option<string>): bool {
    v.Some? && v.value != ""
  }

  /** `None` stands for an intake that is not an object. */
  function Resolve(intake: Option<Intake>, key: string): Option<string> {
    match intake
    case None => None
    case Some(rec) =>
      match WantSpec(key)
      case Some(spec) =>
        var c1 := Stored(rec.capture, spec.captureKey);
        var c2 := Stored(rec.capture, key);
        var c3 := Stored(rec.capture, spec.lowerKey);
        var top := Stored(rec.top, key);
        if Filled(c1) then Some(Canon(c1.value))
        else if Filled(c2) then Some(Canon(c2.value))
        else if Filled(c3) then Some(Canon(c3.value))
        else if Filled(top) then Some(Canon(top.value))
        else if spec.waiverRule in rec.waivers then Some("no")
        else Some(spec.standard)
      case None =>
        var top := Stored(rec.top, key);
        var c1 := Stored(rec.capture, key);
        if top.Some? then top
        else if c1.Some? then c1
        else Stored(rec.capture, Upper(key))
  }

  const INTAKE_PREFIX := "intake."

  function KeyOf(path: string): string {
    if INTAKE_PREFIX <= path then path[|INTAKE_PREFIX|..] else path
  }

  /** The direct meaning of one comparison. */
  predicate Holds(intake: Option<Intake>, path: string, want: string) {
    Resolve(intake, KeyOf(path)) == Some(Lower(Strip(want)))
  }

  /** Truth of comparisons by path and wanted value. */
  type Verdicts = (string, string) -> bool

  function Answers(intake: Option<Intake>): Verdicts {
    (path, want) => Holds(intake, path, want)
  }

  // ---------------------------------------------------------------- comparison reduction

  predicate IdStart(c: char) {
    'A' <= c <= 'Z' || 'a' <= c <= 'z' || c == '_'
  }

  predicate IdChar(c: char) {
    IdStart(c) || '0' <= c <= '9' || c == '.'
  }

  /** Length of the longest prefix of path characters, of blanks, of characters other than a quote. */
  function IdRun(s: string): nat {
    if s != "" && IdChar(s[0]) then 1 + IdRun(s[1..]) else 0
  }

  function SpaceRun(s: string): nat {
    if s != "" && IsSpace(s[0]) then 1 + SpaceRun(s[1..]) else 0
  }

  function QuoteFree(s: string): nat {
    if s != "" && s[0] != '"' then 1 + QuoteFree(s[1..]) else 0
  }

  lemma {:induction false} RunsFit(s: string)
    ensures IdRun(s) <= |s| && SpaceRun(s) <= |s| && QuoteFree(s) <= |s|
  {
    if s != "" {
      RunsFit(s[1..]);
    }
  }

  datatype Match = Match(path: string, want: string, size: nat)

  /** The pattern `path == "value"` at the start of the text. Greedy runs never need to give back: what
      must follow a run is not a character of the run. */
  function MatchHere(s: string): (m: Option<Match>)
    ensures m.Some? ==> 0 < m.value.size <= |s|
  {
    RunsFit(s);
    if s == "" || !IdStart(s[0]) then None
    else
      var n := IdRun(s);
      var s1 := s[n..];
      RunsFit(s1);
      var s2 := s1[SpaceRun(s1)..];
      if !("==" <= s2) then None
      else
        var s3 := s2[2..];
        RunsFit(s3);
        var s4 := s3[SpaceRun(s3)..];
        if s4 == "" || s4[0] != '"' then None
        else
          RunsFit(s4[1..]);
          var q := QuoteFree(s4[1..]);
          if 1 + q == |s4| then None
          else Some(Match(s[..n], s4[1..][..q], |s| - |s4| + q + 2))
  }

  function Literal(b: bool): string {
    if b then "True" else "False"
  }

  /** Every match, leftmost first, becomes True or False; everything else stays. */
  function Reduce(s: string, holds: Verdicts): string
    decreases |s|
  {
    if s == "" then ""
    else match MatchHere(s)
         case Some(m) => Literal(holds(m.path, m.want)) + Reduce(s[m.size..], holds)
         case None => [s[0]] + Reduce(s[1..], holds)
  }

  // ---------------------------------------------------------------- parse trees

  /** The expression node of Python's parser as the evaluator looks at it; Odd is any other kind of node. */
  datatype Py = Const(b: bool) | And(values: seq<Py>) | Or(values: seq<Py>) | Not(operand: Py) | Odd

  /** Pre-walk: is every node of the tree, evaluated or not, on the whitelist? */
  predicate Whitelisted(t: Py) {
    match t
    case Const(_) => true
    case And(values) => forall i :: 0 <= i < |values| ==> Whitelisted(values[i])
    case Or(values) => forall i :: 0 <= i < |values| ==> Whitelisted(values[i])
    case Not(operand) => Whitelisted(operand)
    case Odd => false
  }

  /** The walk with Python's short circuits: None when it reaches a node it refuses. */
  function Walk(t: Py): Option<bool>
    decreases t, 0
  {
    match t
    case Const(b) => Some(b)
    case And(values) => WalkMany(values, true)
    case Or(values) => WalkMany(values, false)
    case Not(operand) => (match Walk(operand) case None => None case Some(b) => Some(!b))
    case Odd => None
  }

  /** all() and any(): stops at the first value that differs from `unit`. */
  function WalkMany(values: seq<Py>, unit: bool): Option<bool>
    decreases values, 0
  {
    if values == [] then Some(unit)
    else match Walk(values[0])
         case None => None
         case Some(b) => if b != unit then Some(b) else WalkMany(values[1..], unit)
  }

  /** Truth of a whitelisted tree, without order of evaluation. */
  predicate Truth(t: Py) {
    match t
    case Const(b) => b
    case And(values) => forall i :: 0 <= i < |values| ==> Truth(values[i])
    case Or(values) => exists i :: 0 <= i < |values| && Truth(values[i])
    case Not(operand) => !Truth(operand)
    case Odd => false
  }

  lemma {:induction false} WalkIsTruth(t: Py)
    requires Whitelisted(t)
    ensures Walk(t) == Some(Truth(t))
    decreases t, 0
  {
    match t
    case Const(_) =>
    case And(values) => WalkManyIsTruth(values, true);
    case Or(values) => WalkManyIsTruth(values, false);
    case Not(operand) => WalkIsTruth(operand);
  }

  lemma {:induction false} WalkManyIsTruth(values: seq<Py>, unit: bool)
    requires forall i :: 0 <= i < |values| ==> Whitelisted(values[i])
    ensures WalkMany(values, unit) ==
            Some(if unit then forall i :: 0 <= i < |values| ==> Truth(values[i])
                 else exists i :: 0 <= i < |values| && Truth(values[i]))
    decreases values, 0
  {
    if values != [] {
      WalkIsTruth(values[0]);
      WalkManyIsTruth(values[1..], unit);
      assert forall i :: 0 <= i < |values[1..]| ==> values[1..][i] == values[i + 1];
      assert forall i :: 0 < i < |values| ==> values[i] == values[1..][i - 1];
    }
  }

  /** The evaluator; `parse` is Python's expression parser, None on a syntax error. An absent or empty
      expression is no gate; one that is not a string never opens. */
  datatype Gate = NoGate | NotText | Expr(text: string)

  function Evaluate(gate: Gate, intake: Option<Intake>, parse: string -> Option<Py>): bool {
    match gate
    case NoGate => true
    case NotText => false
    case Expr(text) =>
      if text == "" then true
      else
        var reduced := Strip(Reduce(Strip(text), Answers(intake)));
        if reduced == "" then false
        else match parse(reduced)
             case None => false
             case Some(tree) => Whitelisted(tree) && Walk(tree) == Some(true)
  }

  /** FAIL CLOSED. A non-empty expression opens the gate if and only if its reduced text parses to a tree
      made of nothing but booleans, and, or and not, and that tree is true; any other node closes it,
      even one a short circuit would skip. */
  lemma OpensExactly(text: string, intake: Option<Intake>, parse: string -> Option<Py>)
    requires text != ""
    ensures var reduced := Strip(Reduce(Strip(text), Answers(intake)));
            Evaluate(Expr(text), intake, parse) <==>
            reduced != "" && parse(reduced).Some? && Whitelisted(parse(reduced).value) && Truth(parse(reduced).value)
  {
    var tree := parse(Strip(Reduce(Strip(text), Answers(intake))));
    if tree.Some? && Whitelisted(tree.value) {
      WalkIsTruth(tree.value);
    }
  }

  /** A phase with no expression, or an empty one, has no gate; an expression that is no text never opens. */
  lemma NoExpression(intake: Option<Intake>, parse: string -> Option<Py>)
    ensures Evaluate(NoGate, intake, parse) && Evaluate(Expr(""), intake, parse) && !Evaluate(NotText, intake, parse)
  {
  }

  // ---------------------------------------------------------------- what a key resolves to

  /** An answer with a visible character is stored under the key. */
  predicate Visible(m: map<string, Answer>, key: string) {
    key in m && m[key] != Answer.Null && !Blank(Shown(m[key]))
  }

  /** The first answer that counts for a want key: the capture under its upper-case key, the key itself and
      the lower-case key, then the top level. */
  function Chosen(rec: Intake, spec: WantKey, key: string): Option<Answer> {
    if Visible(rec.capture, spec.captureKey) then Some(rec.capture[spec.captureKey])
    else if Visible(rec.capture, key) then Some(rec.capture[key])
    else if Visible(rec.capture, spec.lowerKey) then Some(rec.capture[spec.lowerKey])
    else if Visible(rec.top, key) then Some(rec.top[key])
    else None
  }

  lemma BlankLower(s: string)
    ensures Lower(s) == "" <==> s == ""
  {
    assert |Lower(s)| == |s|;
  }

  lemma FilledIsVisible(m: map<string, Answer>, key: string)
    ensures Filled(Stored(m, key)) <==> Visible(m, key)
  {
    if key in m && m[key] != Answer.Null {
      StripEmpty(Shown(m[key]));
      BlankLower(Strip(Shown(m[key])));
    }
  }

  /** Not empty, and none of the spellings that Canon folds. */
  predicate Settled(s: string) {
    s != "" && s !in {"true", "1", "y", "on", "false", "0", "n", "off"}
  }

  lemma StandardSettled(key: string)
    requires WantSpec(key).Some?
    ensures Settled(WantSpec(key).value.standard) && Settled("no")
  {
  }

  /** A WANT KEY, exactly. It resolves to yes or no exactly by the spellings of the answer that counts, stripped
      and in lower case, and to that text itself when it is neither; with no answer, to no if the client waived
      the branch and to the standard answer otherwise. */
  lemma WantKeyAnswered(rec: Intake, key: string)
    requires WantSpec(key).Some?
    ensures var spec := WantSpec(key).value;
            var chosen, value := Chosen(rec, spec, key), Resolve(Some(rec), key);
            match chosen
            case Some(answer) =>
              var text := Lower(Strip(Shown(answer)));
              && (value == Some("yes") <==> text in {"yes", "true", "1", "y", "on"})
              && (value == Some("no") <==> text in {"no", "false", "0", "n", "off"})
              && (value != Some("yes") && value != Some("no") ==> value == Some(text))
            case None => value == Some(if spec.waiverRule in rec.waivers then "no" else spec.standard)
    ensures Resolve(Some(rec), key).Some? && Settled(Resolve(Some(rec), key).value)
  {
    StandardSettled(key);
    var spec := WantSpec(key).value;
    FilledIsVisible(rec.capture, spec.captureKey);
    FilledIsVisible(rec.capture, key);
    FilledIsVisible(rec.capture, spec.lowerKey);
    FilledIsVisible(rec.top, key);
    if Chosen(rec, spec, key).Some? {
      CanonIs(Lower(Strip(Shown(Chosen(rec, spec, key).value))));
    }
  }

  lemma CanonIs(text: string)
    ensures Canon(text) == "yes" <==> text in {"yes", "true", "1", "y", "on"}
    ensures Canon(text) == "no" <==> text in {"no", "false", "0", "n", "off"}
    ensures Canon(text) in {"yes", "no", text}
  {
    assert |"yes"| != |"no"|;
  }

  /** A choice stored as a boolean counts like its word: True opens the branch, False declines it. */
  lemma BooleanChoice(rec: Intake, choice: bool)
    requires "WANT_SALES_CHECKOUT" in rec.capture && rec.capture["WANT_SALES_CHECKOUT"] == Answer.Flag(choice)
    ensures Resolve(Some(rec), "want_sales_checkout") == Some(if choice then "yes" else "no")
  {
    WantKeyAnswered(rec, "want_sales_checkout");
    ChoiceWord(choice);
  }

  /** With nothing stored the checkout page is built unless the client waived it, and the sales video page never. */
  lemma StandardAnswers(waivers: set<string>)
    ensures var blank := Intake(map[], map[], waivers);
            && Resolve(Some(blank), "want_sales_checkout") == Some(if "sales_checkout" in waivers then "no" else "yes")
            && Resolve(Some(blank), "want_vsl_page") == Some("no")
  {
  }

  /** So does a choice about the video page, which is looked up under its own name in upper case first. */
  lemma VideoChoice(rec: Intake, choice: bool)
    requires "WANT_VSL_PAGE" in rec.capture && rec.capture["WANT_VSL_PAGE"] == Answer.Flag(choice)
    ensures Resolve(Some(rec), "want_vsl_page") == Some(if choice then "yes" else "no")
  {
    WantKeyAnswered(rec, "want_vsl_page");
    ChoiceWord(choice);
  }

  lemma ChoiceWord(choice: bool)
    ensures var word := if choice then "True" else "False";
            !Blank(word) && Lower(Strip(word)) == if choice then "true" else "false"
  {
    var word := if choice then "True" else "False";
    assert Trimmed(word) && !Blank(word) by { assert !IsSpace(word[0]); }
    StripEnds(word);
    assert Lower(word) == if choice then "true" else "false";
  }

  /** A COMPARISON holds exactly when its key, with or without the prefix, resolves to the wanted text, stripped
      and in lower case; over an intake that is no object none holds. */
  lemma ComparisonExactly(intake: Option<Intake>, key: string, want: string)
    ensures Holds(intake, "intake." + key, want) <==> Resolve(intake, key) == Some(Lower(Strip(want)))
    ensures !("intake." <= key) ==> (Holds(intake, key, want) <==> Resolve(intake, key) == Some(Lower(Strip(want))))
    ensures intake.None? ==> !Holds(intake, key, want)
  {
    assert ("intake." + key)[|INTAKE_PREFIX|..] == key;
  }

  /** ANY OTHER KEY resolves to the first answer that is stored and not null, empty or not: at the top level, in
      the capture, in the capture under the upper-case key; and to nothing without one. */
  lemma GenericKeyExactly(rec: Intake, key: string)
    requires key != "want_sales_checkout" && key != "want_vsl_page"
    ensures var value := Resolve(Some(rec), key);
            if key in rec.top && rec.top[key] != Answer.Null then value == Some(Lower(Strip(Shown(rec.top[key]))))
            else if key in rec.capture && rec.capture[key] != Answer.Null
            then value == Some(Lower(Strip(Shown(rec.capture[key]))))
            else if Upper(key) in rec.capture && rec.capture[Upper(key)] != Answer.Null
            then value == Some(Lower(Strip(Shown(rec.capture[Upper(key)]))))
            else value.None?
    ensures |Upper(key)| == |key| && Lower(Upper(key)) == Lower(key)
    ensures forall i :: 0 <= i < |key| ==> !('a' <= Upper(key)[i] <= 'z')
  {
    assert Lower(Upper(key)) == Lower(key);
  }
}
