/** The declared-capacity record: reading it per provider, and the read-merge-write transaction. */
module CapacityRecord {
  import opened Text
  import opened Dicts
  import opened CapacityNames

  /** How names resolve on this box: the normaliser and the providers the client declared. */
  datatype Env = Env(norm: string -> Option<string>, declared: set<string>)

  ghost predicate EnvOk(env: Env) {
    && (forall raw :: env.norm(raw).Some? ==>
          var p := env.norm(raw).value;
          && env.norm(p) == Some(p)
          && p != ""
          && (Structural(p) || p == OPENROUTER || p in env.declared))
    && OLLAMA !in env.declared && DEEPSEEK !in env.declared && OPENROUTER !in env.declared
  }

  function BoxEnv(named: set<string>): Env {
    Env(raw => NormalizeProvider(raw, DeclaredProviders(named)), DeclaredProviders(named))
  }

  /** The environment of every box satisfies EnvOk, whatever the client's model plan names. */
  lemma BoxEnvOk(named: set<string>)
    ensures EnvOk(BoxEnv(named))
  {
    var env := BoxEnv(named);
    forall raw | env.norm(raw).Some?
      ensures var p := env.norm(raw).value;
              && env.norm(p) == Some(p)
              && p != ""
              && (Structural(p) || p == OPENROUTER || p in env.declared)
    {
      NormalizeIdempotent(raw, named);
    }
    DeclaredAvoidsTable(OLLAMA, named);
    DeclaredAvoidsTable(DEEPSEEK, named);
    DeclaredAvoidsTable(OPENROUTER, named);
  }

  // ---------------------------------------------------------------- reading

  /** One declared sub-record: which provider it is about, and its flat fields. */
  datatype Entry = Entry(canonical: Option<string>, declared: Option<string>, record: Dict<Json>)

  function EntryOf(flat: Dict<Json>, env: Env): Entry {
    match Get<Json>(flat, "provider")
    case Some(Str(s)) => Entry(env.norm(s), Some(s), flat)
    case _ => Entry(None, None, flat)
  }

  function WithProvider(fields: Dict<Json>, key: string): Dict<Json> {
    if Get(fields, "provider").Some? then fields else Put(fields, "provider", Str(key))
  }

  function EntriesOf(blob: Dict<Json>, env: Env): seq<Entry> {
    if blob == [] then []
    else if blob[0].1.Object?
    then [EntryOf(WithProvider(blob[0].1.fields, blob[0].0), env)] + EntriesOf(blob[1..], env)
    else EntriesOf(blob[1..], env)
  }

  predicate LooksV2(record: Dict<Json>) {
    || Get(record, "schema") == Some(Number(2))
    || (ProvidersOf(record).Some? && Get(record, "provider").None?)
  }

  function ProvidersOf(record: Dict<Json>): Option<Dict<Json>> {
    match Get<Json>(record, "providers")
    case Some(Object(blob)) => Some(blob)
    case _ => None
  }

  function Entries(record: Dict<Json>, env: Env): seq<Entry> {
    if !LooksV2(record) then [EntryOf(record, env)]
    else match ProvidersOf(record)
         case Some(blob) => EntriesOf(blob, env)
         case None => []
  }

  /** What a row of the providers object is read as: its own fields, with its key for a provider unless it names
      one, and the account that provider stands for; a row that is no object is not read. */
  lemma RowReads(key: string, value: Json, env: Env)
    ensures EntriesOf([(key, value)], env)
            == match value
               case Object(fields) =>
                 (match Get<Json>(fields, "provider")
                  case None => [Entry(env.norm(key), Some(key), fields + [("provider", Str(key))])]
                  case Some(Str(name)) => [Entry(env.norm(name), Some(name), fields)]
                  case Some(_) => [Entry(None, None, fields)])
               case _ => []
  {
    if value.Object? {
      PutRows(value.fields, "provider", Str(key));
      GetPut(value.fields, "provider", Str(key), "provider");
    }
    assert [(key, value)][1..] == [];
    assert EntriesOf([], env) == [];
  }

  /** Rows are read one by one, in order. */
  lemma {:induction false} RowsRead(a: Dict<Json>, b: Dict<Json>, env: Env)
    ensures EntriesOf(a + b, env) == EntriesOf(a, env) + EntriesOf(b, env)
  {
    if a == [] {
      assert a + b == b;
    } else {
      assert (a + b)[1..] == a[1..] + b;
      RowsRead(a[1..], b, env);
    }
  }

  /** A record is read row by row when it says schema 2, or has a providers object and no provider of its own.
      Otherwise it is flat, and all of it is about the one provider it names. */
  lemma RecordReads(record: Dict<Json>, env: Env)
    ensures var held := Get(record, "providers");
            var rows := held.Some? && held.value.Object?;
            var two, names := Get(record, "schema") == Some(Number(2)), Get(record, "provider").Some?;
            && (rows && (two || !names) ==> Entries(record, env) == EntriesOf(held.value.fields, env))
            && (!rows && two ==> Entries(record, env) == [])
            && (!two && (names || !rows) ==> Entries(record, env) == [WholeRecord(record, env)])
  {
  }

  function WholeRecord(record: Dict<Json>, env: Env): Entry {
    match Get<Json>(record, "provider")
    case Some(Str(name)) => Entry(env.norm(name), Some(name), record)
    case _ => Entry(None, None, record)
  }

  /** The first entry about this provider. */
  function EntryFor(entries: seq<Entry>, p: string): Option<Entry> {
    if entries == [] then None
    else if entries[0].canonical == Some(p) then Some(entries[0])
    else EntryFor(entries[1..], p)
  }

  // ---------------------------------------------------------------- writing

  /** A validated call of the writer. `expected` is Null when the caller passed no revision. */
  datatype Declaration = Declaration(
    provider: string, plan: Option<string>, maxConcurrent: Option<int>, expected: Json, stamp: string)

  datatype Outcome = Written(payload: Dict<Json>) | StaleRevision | BadSubRecord

  function KeyOf(e: Entry): Option<string> {
    if e.canonical.Some? then e.canonical
    else if e.declared == Some("") then None
    else e.declared
  }

  function MergeEntries(acc: Dict<Json>, entries: seq<Entry>): Dict<Json>
    decreases |entries|
  {
    if entries == [] then acc
    else
      var e := entries[0];
      MergeEntries(
        if KeyOf(e).Some? then Put(acc, KeyOf(e).value, Object(Without(e.record, "provider"))) else acc,
        entries[1..])
  }

  function Number0(j: Json): Option<int> {
    match j
    case Number(n) => Some(n)
    case Flag(b) => Some(if b then 1 else 0)
    case _ => None
  }

  /** Python equality: True equals 1 and False equals 0. */
  predicate PyEq(a: Json, b: Json) {
    a == b || (Number0(a).Some? && Number0(a) == Number0(b))
  }

  predicate Truthy(j: Json) {
    match j
    case Null => false
    case Flag(b) => b
    case Number(n) => n != 0
    case Str(s) => s != ""
    case List(items) => items != []
    case Object(fields) => fields != []
  }

  /** Value of a decimal numeral; None when some character is not a digit. */
  function ParseNat(s: string): Option<int> {
    if s == "" || !('0' <= s[|s| - 1] <= '9') then None
    else
      var low := s[|s| - 1] as int - '0' as int;
      if |s| == 1 then Some(low)
      else match ParseNat(s[..|s| - 1])
           case None => None
           case Some(high) => Some(10 * high + low)
  }

  function ParseInt(s: string): Option<int> {
    var t := Strip(s);
    if t != "" && t[0] == '-' then (match ParseNat(t[1..]) case None => None case Some(n) => Some(-n))
    else if t != "" && t[0] == '+' then ParseNat(t[1..])
    else ParseNat(t)
  }

  function NextRevision(current: Json): int {
    if !Truthy(current) then 1
    else match current
         case Number(n) => n + 1
         case Flag(b) => 2
         case Str(s) => (match ParseInt(s) case Some(n) => n + 1 case None => 1)
         case _ => 1
  }

  function FieldOr(record: Dict<Json>, k: string): Json {
    match Get<Json>(record, k)
    case Some(j) => j
    case None => Null
  }

  /** The sub-record a declaration leaves: plan, max_concurrent and every other field are apart. */
  function Amend(sub: Dict<Json>, c: Declaration): Dict<Json> {
    var planned := if c.plan.Some?
                   then Put(Put(sub, "plan", Str(c.plan.value)), "source", Str("interview")) else sub;
    var bounded := if c.maxConcurrent.Some?
                   then Put(Put(planned, "max_concurrent", Number(c.maxConcurrent.value)),
                            "source", Str("declaration")) else planned;
    Put(bounded, "declared_at", Str(c.stamp))
  }

  const NOTE := "Per-provider capacity declaration; each entry is honoured only for the provider it names."

  function Merged(existing: Dict<Json>, env: Env): Dict<Json> {
    MergeEntries(if ProvidersOf(existing).Some? then ProvidersOf(existing).value else [],
                 Entries(existing, env))
  }

  /** The transaction on the record as read; an absent file reads as the empty record. */
  function Declare(existing: Dict<Json>, c: Declaration, env: Env): Outcome {
    if c.expected != Null && !PyEq(FieldOr(existing, "revision"), c.expected) then StaleRevision
    else
      var providers := Merged(existing, env);
      var current := FieldOr(providers, c.provider);
      if Truthy(current) && !current.Object? then BadSubRecord
      else
        var sub := Amend(if current.Object? then current.fields else [], c);
        var r1 := Put(existing, "schema", Number(2));
        var r2 := Put(r1, "providers", Object(Put(providers, c.provider, Object(sub))));
        var r3 := Put(r2, "revision", Number(NextRevision(FieldOr(existing, "revision"))));
        Written(Put(r3, "_note", Str(NOTE)))
  }

  const OWNED: set<string> := {"schema", "revision", "providers", "_note"}

  datatype Refusal = UnknownPair | Unidentified | NonPositive | Empty

  datatype Checked = Accepted(c: Declaration) | Refused(why: Refusal)

  /** The checks made before the lock is taken. */
  function Validate(raw: string, plan: Option<string>, maxConcurrent: Option<int>,
                    expected: Json, stamp: string, env: Env): Checked
  {
    var p := env.norm(raw);
    var tier := NormalizePlan(plan, p);
    if plan.Some? && (p.None? || tier.None? || CapTable(p.value, tier.value).None?) then Refused(UnknownPair)
    else if p.None? then Refused(Unidentified)
    else if maxConcurrent.Some? && maxConcurrent.value < 1 then Refused(NonPositive)
    else if plan.None? && maxConcurrent.None? then Refused(Empty)
    else Accepted(Declaration(p.value, tier, maxConcurrent, expected, stamp))
  }

  /** What a call is refused for: a plan it cannot place, then a name it cannot place, then a number below 1, then
      nothing to write. Any other call is about the account the name stands for, with the plan as the table names it. */
  lemma ValidatedExactly(raw: string, plan: Option<string>, max: Option<int>, expected: Json, stamp: string, env: Env)
    ensures var (p, v) := (env.norm(raw), Validate(raw, plan, max, expected, stamp, env));
            var unplaced := plan.Some? && (p.None? || NormalizePlan(plan, p).None?);
            && (v == Refused(UnknownPair) <==> unplaced)
            && (v == Refused(Unidentified) <==> plan.None? && p.None?)
            && (v == Refused(NonPositive) <==> p.Some? && !unplaced && max.Some? && max.value < 1)
            && (v == Refused(Empty) <==> p.Some? && plan.None? && max.None?)
            && (v.Accepted? ==> v.c == Declaration(p.value, if plan.Some? then NormalizePlan(plan, p) else None,
                                                   max, expected, stamp))
  {
    if env.norm(raw).Some? && NormalizePlan(plan, env.norm(raw)).Some? {
      PlanHasRow(plan, env.norm(raw).value);
    }
  }

  // ---------------------------------------------------------------- the file as an object

  /** capacity_override.json: the record last written, if any. */
  class CapacityFile {
    var record: Dict<Json>
    var written: bool

    constructor ()
      ensures record == [] && !written
    {
      record, written := [], false;
    }

    /** Runs the transaction step by step; a refused call leaves the file as it was. */
    method DeclareLocked(c: Declaration, env: Env) returns (outcome: Outcome)
      modifies this
      ensures outcome == Declare(old(record), c, env)
      ensures outcome.Written? ==> record == outcome.payload && written
      ensures !outcome.Written? ==> record == old(record) && written == old(written)
    {
      var current := FieldOr(record, "revision");
      if c.expected != Null && !PyEq(current, c.expected) {
        return StaleRevision;
      }
      var entries := Entries(record, env);
      var providers := if ProvidersOf(record).Some? then ProvidersOf(record).value else [];
      var i := 0;
      while i < |entries|
        invariant 0 <= i <= |entries|
        invariant MergeEntries(providers, entries[i..]) == Merged(record, env)
      {
        var key := KeyOf(entries[i]);
        if key.Some? {
          providers := Put(providers, key.value, Object(Without(entries[i].record, "provider")));
        }
        assert entries[i..][1..] == entries[i + 1..];
        i := i + 1;
      }
      var found := FieldOr(providers, c.provider);
      if Truthy(found) && !found.Object? {
        return BadSubRecord;
      }
      var sub := if found.Object? then found.fields else [];
      if c.plan.Some? {
        sub := Put(sub, "plan", Str(c.plan.value));
        sub := Put(sub, "source", Str("interview"));
      }
      if c.maxConcurrent.Some? {
        sub := Put(sub, "max_concurrent", Number(c.maxConcurrent.value));
        sub := Put(sub, "source", Str("declaration"));
      }
      sub := Put(sub, "declared_at", Str(c.stamp));
      providers := Put(providers, c.provider, Object(sub));
      var payload := Put(record, "schema", Number(2));
      payload := Put(payload, "providers", Object(providers));
      payload := Put(payload, "revision", Number(NextRevision(current)));
      payload := Put(payload, "_note", Str(NOTE));
      record, written := payload, true;
      outcome := Written(payload);
    }
  }

  // ---------------------------------------------------------------- what a write keeps

  /** A write keeps every root field it does not own, and an integer revision rises by one. */
  lemma RootKept(existing: Dict<Json>, c: Declaration, env: Env, k: string)
    requires Declare(existing, c, env).Written?
    ensures var after := Declare(existing, c, env).payload;
            && (k !in OWNED ==> Get(after, k) == Get(existing, k))
            && Get(after, "schema") == Some(Number(2))
            && (forall n :: Get(existing, "revision") == Some(Number(n)) ==>
                  Get(after, "revision") == Some(Number(n + 1)))
  {
    WrittenFields(existing, c, env, k);
    WrittenFields(existing, c, env, "schema");
    WrittenFields(existing, c, env, "revision");
  }

  /** A call that expects a revision is refused exactly when the record has another one, and one that
      expects none never is. Python takes True for 1 and False for 0. */
  lemma StaleExactly(existing: Dict<Json>, c: Declaration, env: Env, n: int)
    requires Get(existing, "revision") == Some(Number(n))
    ensures Declare(existing, c, env).StaleRevision? <==>
            match c.expected
            case Null => false
            case Number(k) => k != n
            case Flag(b) => n != (if b then 1 else 0)
            case _ => true
  {
    assert FieldOr(existing, "revision") == Number(n);
  }

  /** Over a record without a revision every call that expects one is refused, and the first write makes it 1. */
  lemma StaleWithoutRevision(existing: Dict<Json>, c: Declaration, env: Env)
    requires Get(existing, "revision").None?
    ensures Declare(existing, c, env).StaleRevision? <==> c.expected != Null
    ensures Declare(existing, c, env).Written? ==>
              Get(Declare(existing, c, env).payload, "revision") == Some(Number(1))
  {
    if Declare(existing, c, env).Written? {
      WrittenFields(existing, c, env, "revision");
    }
  }

  /** A revision that is no number is compared as it is, and True and False as 1 and 0. */
  lemma StaleOtherwise(existing: Dict<Json>, c: Declaration, env: Env)
    ensures var rev, stale := FieldOr(existing, "revision"), Declare(existing, c, env).StaleRevision?;
            match rev
            case Number(_) => true
            case Flag(b) => (stale <==> c.expected !in {Null, Flag(b), Number(if b then 1 else 0)})
            case _ => (stale <==> c.expected != Null && c.expected != rev)
  {
  }

  /** A sub-record that is there and is neither an object nor an empty value makes the call fail. */
  lemma BadSubRecordExactly(existing: Dict<Json>, c: Declaration, env: Env)
    ensures var held := Get(Merged(existing, env), c.provider);
            Declare(existing, c, env).BadSubRecord? <==>
            && !Declare(existing, c, env).StaleRevision?
            && held.Some? && !held.value.Object?
            && held.value !in {Null, Flag(false), Number(0), Str(""), List([])}
  {
  }

  /** The decimal numeral of n. */
  function Decimal(n: nat): string {
    (if n < 10 then "" else Decimal(n / 10)) + [DigitChar(n % 10)]
  }

  function DigitChar(d: nat): (c: char)
    requires d < 10
    ensures IsDigit(c)
  {
    (48 + d) as char
  }

  lemma {:induction false} DecimalReads(n: nat)
    ensures ParseNat(Decimal(n)) == Some(n) && OnlyDigits(Decimal(n))
  {
    var front, d := if n < 10 then "" else Decimal(n / 10), n % 10;
    assert Decimal(n) == front + [DigitChar(d)];
    if n >= 10 {
      DecimalReads(n / 10);
      DigitReads(front, n / 10, d);
    } else {
      assert front + [DigitChar(d)] == [DigitChar(d)];
    }
  }

  lemma DigitReads(front: string, n: nat, d: nat)
    requires d < 10 && front != "" && ParseNat(front) == Some(n)
    ensures ParseNat(front + [DigitChar(d)]) == Some(10 * n + d)
  {
    var s := front + [DigitChar(d)];
    assert s[..|s| - 1] == front && s[|s| - 1] == DigitChar(d);
  }

  lemma {:induction false} NumeralExactly(s: string)
    ensures ParseNat(s).Some? <==> s != "" && OnlyDigits(s)
  {
    if s != "" {
      var front := s[..|s| - 1];
      assert s == front + [s[|s| - 1]];
      if |s| > 1 {
        NumeralExactly(front);
        assert OnlyDigits(s) <==> OnlyDigits(front) && IsDigit(s[|s| - 1]) by {
          assert forall i :: 0 <= i < |front| ==> front[i] == s[i];
        }
      }
    }
  }

  lemma SignedReads(s: string, sign: string, n: nat)
    requires sign in {"", "+", "-"} && Strip(s) == sign + Decimal(n)
    ensures ParseInt(s) == Some(n * if sign == "-" then -1 else 1)
  {
    DecimalReads(n);
    var digits := Decimal(n);
    assert digits != "" && IsDigit(digits[0]);
    if sign == "" {
      assert Strip(s) == digits;
    } else {
      assert Strip(s)[0] == sign[0] && Strip(s)[1..] == digits;
    }
  }

  /** A revision kept as a text counts on from the number it spells, with a sign or without one and between any
      blanks, and from 0 when it spells none. */
  lemma TextRevision(a: string, sign: string, n: nat, b: string)
    requires Blank(a) && Blank(b) && sign in {"", "+", "-"}
    ensures NextRevision(Str(a + (sign + Decimal(n)) + b)) == (if sign == "-" then 1 - n else n + 1)
  {
    DecimalReads(n);
    var numeral := sign + Decimal(n);
    assert numeral != "" && Trimmed(numeral) by {
      assert numeral[|numeral| - 1] == Decimal(n)[|Decimal(n)| - 1];
      assert sign == "" ==> numeral == Decimal(n);
    }
    StripBetween(a, numeral, b);
    SignedReads(a + numeral + b, sign, n);
  }

  lemma NoTextRevision(s: string)
    ensures var t := Strip(s);
            var digits := if t != "" && t[0] in "+-" then t[1..] else t;
            digits == "" || !OnlyDigits(digits) ==> NextRevision(Str(s)) == 1
  {
    var t := Strip(s);
    NumeralExactly(t);
    if t != "" {
      NumeralExactly(t[1..]);
    }
  }

  /** Any other value counts from 0, but True from 1. */
  lemma PlainRevision(j: Json)
    requires !j.Str?
    ensures NextRevision(j) == match j
                               case Number(n) => n + 1
                               case Flag(b) => (if b then 2 else 1)
                               case _ => 1
  {
  }

  /** Each root field of a written record. */
  lemma WrittenFields(existing: Dict<Json>, c: Declaration, env: Env, k: string)
    requires Declare(existing, c, env).Written?
    ensures var after := Declare(existing, c, env).payload;
            var providers := Merged(existing, env);
            var current := FieldOr(providers, c.provider);
            var sub := Amend(if current.Object? then current.fields else [], c);
            Get(after, k) ==
            if k == "_note" then Some(Str(NOTE))
            else if k == "revision" then Some(Number(NextRevision(FieldOr(existing, "revision"))))
            else if k == "providers" then Some(Object(Put(providers, c.provider, Object(sub))))
            else if k == "schema" then Some(Number(2))
            else Get(existing, k)
  {
    var providers := Merged(existing, env);
    var current := FieldOr(providers, c.provider);
    var sub := Amend(if current.Object? then current.fields else [], c);
    var r1 := Put(existing, "schema", Number(2));
    var blob := Object(Put(providers, c.provider, Object(sub)));
    var r2 := Put(r1, "providers", blob);
    var rev := Number(NextRevision(FieldOr(existing, "revision")));
    var r3 := Put(r2, "revision", rev);
    GetPut(existing, "schema", Number(2), k);
    GetPut(r1, "providers", blob, k);
    GetPut(r2, "revision", rev, k);
    GetPut(r3, "_note", Str(NOTE), k);
  }

  /** A plan write touches neither the self-throttle, nor the reserve, nor any unknown field; a
      throttle write touches neither the plan nor the reserve. */
  lemma AmendKeeps(sub: Dict<Json>, c: Declaration, k: string)
    requires k != "source" && k != "declared_at"
    ensures (c.plan.None? || k != "plan") && (c.maxConcurrent.None? || k != "max_concurrent") ==>
              Get(Amend(sub, c), k) == Get(sub, k)
    ensures c.plan.Some? ==> Get(Amend(sub, c), "plan") == Some(Str(c.plan.value))
    ensures c.maxConcurrent.Some? ==>
              Get(Amend(sub, c), "max_concurrent") == Some(Number(c.maxConcurrent.value))
  {
    AmendGet(sub, c, k);
    AmendGet(sub, c, "plan");
    AmendGet(sub, c, "max_concurrent");
  }

  lemma AmendGet(sub: Dict<Json>, c: Declaration, k: string)
    requires k != "source" && k != "declared_at"
    ensures Get(Amend(sub, c), k) ==
            if c.plan.Some? && k == "plan" then Some(Str(c.plan.value))
            else if c.maxConcurrent.Some? && k == "max_concurrent" then Some(Number(c.maxConcurrent.value))
            else Get(sub, k)
  {
    var s1 := sub;
    if c.plan.Some? {
      GetPut(sub, "plan", Str(c.plan.value), k);
      s1 := Put(sub, "plan", Str(c.plan.value));
      GetPut(s1, "source", Str("interview"), k);
      s1 := Put(s1, "source", Str("interview"));
    }
    var s2 := s1;
    if c.maxConcurrent.Some? {
      GetPut(s1, "max_concurrent", Number(c.maxConcurrent.value), k);
      s2 := Put(s1, "max_concurrent", Number(c.maxConcurrent.value));
      GetPut(s2, "source", Str("declaration"), k);
      s2 := Put(s2, "source", Str("declaration"));
    }
    GetPut(s2, "declared_at", Str(c.stamp), k);
  }
}
