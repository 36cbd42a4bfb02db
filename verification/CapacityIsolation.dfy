/** A declaration about one account is never a statement about another: what a write does to the
    entries of the other providers, exactly, for a current record and across the upgrade of an old one. */
module CapacityIsolation {
  import opened Text
  import opened Dicts
  import opened CapacityNames
  import opened CapacityRecord

  /** A dict of provider sub-records none of which names a provider of its own. A row that is no object is
      none to any reader. */
  ghost predicate Plain(blob: Dict<Json>) {
    && Unique(blob)
    && forall i :: 0 <= i < |blob| ==> PlainRow(blob[i])
  }

  predicate PlainRow(row: (string, Json)) {
    row.1.Object? ==> Get(row.1.fields, "provider").None?
  }

  /** A sub-record whose key resolves to q. */
  predicate About(row: (string, Json), q: string, env: Env) {
    row.1.Object? && env.norm(row.0) == Some(q)
  }

  /** The first and the last sub-record about q. */
  function FirstAbout(blob: Dict<Json>, q: string, env: Env): (row: Option<(string, Json)>)
    ensures row.Some? ==> row.value in blob && About(row.value, q, env)
  {
    if blob == [] then None
    else if About(blob[0], q, env) then Some(blob[0])
    else FirstAbout(blob[1..], q, env)
  }

  function LastAbout(blob: Dict<Json>, q: string, env: Env): (row: Option<(string, Json)>)
    ensures row.Some? ==> row.value in blob && About(row.value, q, env)
    ensures row.Some? <==> exists i :: 0 <= i < |blob| && About(blob[i], q, env)
  {
    if blob == [] then None
    else
      var later := LastAbout(blob[1..], q, env);
      assert forall i :: 0 < i < |blob| ==> blob[i] == blob[1..][i - 1];
      if later.Some? then later
      else if About(blob[0], q, env) then Some(blob[0])
      else None
  }

  /** q's own key, whatever stands under it, comes before every other spelling of q. */
  predicate OwnFirst(blob: Dict<Json>, q: string, env: Env) {
    blob != [] && (blob[0].0 == q || (!About(blob[0], q, env) && OwnFirst(blob[1..], q, env)))
  }

  /** q's own key comes first, and the last sub-record about q is not the first under that key: the merge
      files the last one there. */
  predicate Collapsed(blob: Dict<Json>, q: string, env: Env) {
    var first, last := FirstAbout(blob, q, env), LastAbout(blob, q, env);
    first.Some? && last.Some? && OwnFirst(blob, q, env) && first.value != (q, last.value.1)
  }

  lemma PlainTail(blob: Dict<Json>)
    requires Plain(blob) && blob != []
    ensures Plain(blob[1..])
    ensures forall i :: 0 <= i < |blob| - 1 ==> blob[1..][i].0 != blob[0].0
  {
    forall i, j | 0 <= i < j < |blob| - 1
      ensures blob[1..][i].0 != blob[1..][j].0
    {
      assert blob[1..][i] == blob[i + 1] && blob[1..][j] == blob[j + 1];
    }
    forall i | 0 <= i < |blob| - 1
      ensures PlainRow(blob[1..][i]) && blob[1..][i].0 != blob[0].0
    {
      assert blob[1..][i] == blob[i + 1];
    }
  }

  // ---------------------------------------------------------------- entries and rows

  lemma {:induction false} WithoutAbsent<V>(d: Dict<V>, k: string)
    requires Get(d, k).None?
    ensures Without(d, k) == d
  {
    if d != [] {
      WithoutAbsent(d[1..], k);
    }
  }

  lemma {:induction false} WithoutAppended<V>(d: Dict<V>, k: string, v: V)
    requires Get(d, k).None?
    ensures Without(Put(d, k, v), k) == d
  {
    if d != [] {
      WithoutAppended(d[1..], k, v);
      assert Put(d, k, v)[1..] == Put(d[1..], k, v);
    }
  }

  /** The entry of a plain row carries the row's own key and gives the row's fields back. */
  lemma PlainEntry(row: (string, Json), env: Env)
    requires PlainRow(row) && row.1.Object?
    ensures var e := EntryOf(WithProvider(row.1.fields, row.0), env);
            && e.canonical == env.norm(row.0)
            && e.declared == Some(row.0)
            && Without(e.record, "provider") == row.1.fields
  {
    GetPut(row.1.fields, "provider", Str(row.0), "provider");
    WithoutAppended(row.1.fields, "provider", Str(row.0));
  }

  lemma {:induction false} EntryForRow(blob: Dict<Json>, q: string, env: Env)
    requires Plain(blob)
    ensures EntryFor(EntriesOf(blob, env), q) ==
            match FirstAbout(blob, q, env)
            case None => None
            case Some(row) => Some(EntryOf(WithProvider(row.1.fields, row.0), env))
  {
    if blob != [] {
      assert PlainRow(blob[0]);
      PlainTail(blob);
      EntryForRow(blob[1..], q, env);
      if blob[0].1.Object? {
        PlainEntry(blob[0], env);
        var head := EntryOf(WithProvider(blob[0].1.fields, blob[0].0), env);
        assert EntriesOf(blob, env) == [head] + EntriesOf(blob[1..], env);
        assert EntriesOf(blob, env)[1..] == EntriesOf(blob[1..], env);
      }
    }
  }

  // ---------------------------------------------------------------- the merge loop

  /** The key the merge files a row under. */
  function Target(key: string, env: Env): Option<string> {
    if env.norm(key).Some? then env.norm(key) else if key == "" then None else Some(key)
  }

  function LastFiled(blob: Dict<Json>, x: string, env: Env): Option<Json> {
    if blob == [] then None
    else if LastFiled(blob[1..], x, env).Some? then LastFiled(blob[1..], x, env)
    else if blob[0].1.Object? && Target(blob[0].0, env) == Some(x) then Some(blob[0].1)
    else None
  }

  function FileRow(acc: Dict<Json>, row: (string, Json), env: Env): Dict<Json> {
    if row.1.Object? && Target(row.0, env).Some? then Put(acc, Target(row.0, env).value, row.1) else acc
  }

  lemma MergeStep(acc: Dict<Json>, blob: Dict<Json>, env: Env)
    requires Plain(blob) && blob != []
    ensures MergeEntries(acc, EntriesOf(blob, env)) ==
            MergeEntries(FileRow(acc, blob[0], env), EntriesOf(blob[1..], env))
  {
    assert PlainRow(blob[0]);
    if blob[0].1.Object? {
      PlainEntry(blob[0], env);
      var head := EntryOf(WithProvider(blob[0].1.fields, blob[0].0), env);
      assert EntriesOf(blob, env) == [head] + EntriesOf(blob[1..], env);
      assert EntriesOf(blob, env)[1..] == EntriesOf(blob[1..], env);
      assert KeyOf(head) == Target(blob[0].0, env);
    }
  }

  /** A lookup after the merge: the last row filed under the key, or what was there before. */
  lemma {:induction false} MergeGet(acc: Dict<Json>, blob: Dict<Json>, env: Env, x: string)
    requires Plain(blob)
    ensures Get(MergeEntries(acc, EntriesOf(blob, env)), x) ==
            if LastFiled(blob, x, env).Some? then LastFiled(blob, x, env) else Get(acc, x)
    decreases |blob|
  {
    if blob != [] {
      MergeStep(acc, blob, env);
      PlainTail(blob);
      var next := FileRow(acc, blob[0], env);
      MergeGet(next, blob[1..], env, x);
      if Target(blob[0].0, env).Some? {
        GetPut(acc, Target(blob[0].0, env).value, blob[0].1, x);
      }
    }
  }

  /** The merge keeps every old row's place and key; every new key is one a row is filed under. */
  lemma {:induction false} MergeRows(acc: Dict<Json>, blob: Dict<Json>, env: Env)
    requires Plain(blob) && Plain(acc)
    ensures var m := MergeEntries(acc, EntriesOf(blob, env));
            && |acc| <= |m| && Plain(m)
            && (forall i :: 0 <= i < |acc| ==> m[i].0 == acc[i].0)
            && (forall i :: |acc| <= i < |m| ==> LastFiled(blob, m[i].0, env).Some?)
    decreases |blob|
  {
    if blob != [] {
      MergeStep(acc, blob, env);
      PlainTail(blob);
      var next := FileRow(acc, blob[0], env);
      assert PlainRow(blob[0]);
      if Target(blob[0].0, env).Some? {
        PlainPut(acc, Target(blob[0].0, env).value, blob[0].1);
        PutRows(acc, Target(blob[0].0, env).value, blob[0].1);
      }
      MergeRows(next, blob[1..], env);
      var m := MergeEntries(acc, EntriesOf(blob, env));
      forall i | |acc| <= i < |m|
        ensures LastFiled(blob, m[i].0, env).Some?
      {
        if i < |next| {
          assert Target(blob[0].0, env) == Some(m[i].0);
        }
      }
    }
  }

  lemma PlainPut(d: Dict<Json>, k: string, v: Json)
    requires Plain(d) && PlainRow((k, v))
    ensures Plain(Put(d, k, v))
  {
    PutRows(d, k, v);
    GetFinds(d, k);
    var p := Put(d, k, v);
    forall i | 0 <= i < |p|
      ensures PlainRow(p[i])
    {
      if i < |d| && d[i].0 == k {
        GetPut(d, k, v, k);
        PutAt(d, i, k, v);
      } else if i < |d| {
        assert PlainRow(d[i]);
      }
    }
  }

  lemma {:induction false} PutAt<V>(d: Dict<V>, i: nat, k: string, v: V)
    requires Unique(d) && i < |d| && d[i].0 == k
    ensures i < |Put(d, k, v)| && Put(d, k, v)[i] == (k, v)
  {
    PutRows(d, k, v);
    if i > 0 {
      assert d[0].0 != d[i].0;
      assert Unique(d[1..]) by {
        forall a, b | 0 <= a < b < |d| - 1 ensures d[1..][a].0 != d[1..][b].0 {
          assert d[1..][a] == d[a + 1] && d[1..][b] == d[b + 1];
        }
      }
      PutAt(d[1..], i - 1, k, v);
    }
  }

  // ---------------------------------------------------------------- the exact effect on another account

  lemma {:induction false} FirstIndex(blob: Dict<Json>, q: string, env: Env) returns (j: nat)
    ensures FirstAbout(blob, q, env).Some? ==> j < |blob| && FirstAbout(blob, q, env) == Some(blob[j])
    ensures FirstAbout(blob, q, env).None? ==> j == |blob|
    ensures forall i :: 0 <= i < j ==> !About(blob[i], q, env)
  {
    if blob == [] {
      j := 0;
    } else if About(blob[0], q, env) {
      j := 0;
    } else {
      var t := FirstIndex(blob[1..], q, env);
      j := t + 1;
      forall i | 0 <= i < j ensures !About(blob[i], q, env) {
        if i > 0 { assert blob[i] == blob[1..][i - 1]; }
      }
    }
  }

  lemma {:induction false} FirstIs(blob: Dict<Json>, q: string, env: Env, j: nat)
    requires j <= |blob| && forall i :: 0 <= i < j ==> !About(blob[i], q, env)
    requires j < |blob| ==> About(blob[j], q, env)
    ensures FirstAbout(blob, q, env) == if j < |blob| then Some(blob[j]) else None
  {
    if j > 0 {
      assert !About(blob[0], q, env);
      forall i | 0 <= i < j - 1 ensures !About(blob[1..][i], q, env) {
        assert blob[1..][i] == blob[i + 1];
      }
      FirstIs(blob[1..], q, env, j - 1);
    }
  }

  /** Where q's own key is, if it comes first; otherwise it comes after the first sub-record about q. */
  lemma {:induction false} OwnIndex(blob: Dict<Json>, q: string, env: Env) returns (i: nat)
    ensures OwnFirst(blob, q, env) ==>
              i < |blob| && blob[i].0 == q && forall k :: 0 <= k < i ==> !About(blob[k], q, env)
    ensures !OwnFirst(blob, q, env) ==> forall k :: 0 <= k < |blob| && blob[k].0 == q ==>
              exists j :: 0 <= j < k && About(blob[j], q, env)
  {
    i := 0;
    if blob != [] && blob[0].0 != q && !About(blob[0], q, env) {
      var t := OwnIndex(blob[1..], q, env);
      i := t + 1;
      if OwnFirst(blob, q, env) {
        forall k | 0 <= k < i ensures !About(blob[k], q, env) {
          if k > 0 { assert blob[k] == blob[1..][k - 1]; }
        }
      } else {
        forall k | 0 <= k < |blob| && blob[k].0 == q
          ensures exists j :: 0 <= j < k && About(blob[j], q, env)
        {
          assert blob[1..][k - 1] == blob[k];
          var j :| 0 <= j < k - 1 && About(blob[1..][j], q, env);
          assert blob[j + 1] == blob[1..][j];
        }
      }
    }
  }

  /** Filing under q's own key is the same as being about q; filing under another spelling never happens. */
  lemma {:induction false} FiledAbout(blob: Dict<Json>, key: string, q: string, env: Env)
    requires EnvOk(env) && env.norm(key) == Some(q)
    ensures LastFiled(blob, key, env) ==
            if key == q && LastAbout(blob, q, env).Some? then Some(LastAbout(blob, q, env).value.1) else None
  {
    if blob != [] {
      FiledAbout(blob[1..], key, q, env);
      if env.norm(blob[0].0).Some? {
        var p := env.norm(blob[0].0).value;
        assert env.norm(p) == Some(p);
      }
    }
  }

  /** An old row whose key spells q, after the merge: only q's own key takes the last sub-record. */
  lemma MergedRow(blob: Dict<Json>, i: nat, q: string, env: Env)
    requires EnvOk(env) && Plain(blob) && i < |blob| && env.norm(blob[i].0) == Some(q)
    ensures var m := MergeEntries(blob, EntriesOf(blob, env));
            && i < |m|
            && m[i] == if blob[i].0 == q && LastAbout(blob, q, env).Some?
                       then (q, LastAbout(blob, q, env).value.1) else blob[i]
  {
    var m := MergeEntries(blob, EntriesOf(blob, env));
    MergeRows(blob, blob, env);
    MergeGet(blob, blob, env, blob[i].0);
    GetFinds(m, m[i].0);
    GetFinds(blob, blob[i].0);
    FiledAbout(blob, blob[i].0, q, env);
  }

  /** A row of the merge that is about q stood there before, or is the last one under q's own key. */
  lemma MergedAbout(blob: Dict<Json>, i: nat, q: string, env: Env)
    requires EnvOk(env) && Plain(blob) && env.norm(q) == Some(q)
    requires var m := MergeEntries(blob, EntriesOf(blob, env)); i < |m| && About(m[i], q, env)
    ensures LastAbout(blob, q, env).Some?
    ensures i < |blob| ==> blob[i].0 == q || About(blob[i], q, env)
  {
    var m := MergeEntries(blob, EntriesOf(blob, env));
    MergeRows(blob, blob, env);
    if i < |blob| {
      MergedRow(blob, i, q, env);
    } else {
      FiledAbout(blob, m[i].0, q, env);
    }
  }

  /** What the merge leaves first for q: the old first row, except that under q's own key, where that comes
      first, stands the last one that spells q. */
  lemma MergeFirst(blob: Dict<Json>, q: string, env: Env)
    requires EnvOk(env) && Plain(blob) && env.norm(q) == Some(q)
    ensures FirstAbout(MergeEntries(blob, EntriesOf(blob, env)), q, env) ==
            match LastAbout(blob, q, env)
            case None => None
            case Some(last) => if OwnFirst(blob, q, env) then Some((q, last.1)) else FirstAbout(blob, q, env)
  {
    var m := MergeEntries(blob, EntriesOf(blob, env));
    MergeRows(blob, blob, env);
    if LastAbout(blob, q, env).None? {
      forall i | 0 <= i < |m|
        ensures !About(m[i], q, env)
      {
        if About(m[i], q, env) {
          MergedAbout(blob, i, q, env);
        }
      }
      FirstIs(m, q, env, |m|);
    } else {
      MergeFirstAmong(blob, q, env);
    }
  }

  lemma MergeFirstAmong(blob: Dict<Json>, q: string, env: Env)
    requires EnvOk(env) && Plain(blob) && env.norm(q) == Some(q) && LastAbout(blob, q, env).Some?
    ensures FirstAbout(MergeEntries(blob, EntriesOf(blob, env)), q, env) ==
            if OwnFirst(blob, q, env) then Some((q, LastAbout(blob, q, env).value.1)) else FirstAbout(blob, q, env)
  {
    var m := MergeEntries(blob, EntriesOf(blob, env));
    MergeRows(blob, blob, env);
    var own := OwnIndex(blob, q, env);
    var first := FirstIndex(blob, q, env);
    var j := if OwnFirst(blob, q, env) then own else first;
    MergedRow(blob, j, q, env);
    forall i | 0 <= i < j
      ensures !About(m[i], q, env)
    {
      if About(m[i], q, env) {
        MergedAbout(blob, i, q, env);
      }
    }
    FirstIs(m, q, env, j);
  }

  /** Writing a row that is not about q leaves the first row about q where it was. */
  lemma PutKeepsFirst(d: Dict<Json>, p: string, v: Json, q: string, env: Env)
    requires env.norm(p) != Some(q)
    ensures FirstAbout(Put(d, p, v), q, env) == FirstAbout(d, q, env)
  {
    PutRows(d, p, v);
    var j := FirstIndex(d, q, env);
    if j < |d| {
      FirstIs(Put(d, p, v), q, env, j);
    } else {
      FirstIs(Put(d, p, v), q, env, |Put(d, p, v)|);
    }
  }

  lemma AmendPlain(sub: Dict<Json>, c: Declaration)
    requires Get(sub, "provider").None?
    ensures PlainRow((c.provider, Object(Amend(sub, c))))
  {
    AmendGet(sub, c, "provider");
  }

  /** Writing q's own row changes the first row about q, unless another spelling comes before it. */
  lemma PutOwnFirst(d: Dict<Json>, q: string, v: Json, env: Env)
    requires Unique(d) && env.norm(q) == Some(q) && v.Object?
    ensures var first := FirstAbout(d, q, env);
            FirstAbout(Put(d, q, v), q, env) == if first.None? || OwnFirst(d, q, env) then Some((q, v)) else first
  {
    PutRows(d, q, v);
    GetFinds(d, q);
    var own := OwnIndex(d, q, env);
    var j := FirstIndex(d, q, env);
    if OwnFirst(d, q, env) {
      PutAt(d, own, q, v);
      FirstIs(Put(d, q, v), q, env, own);
    } else {
      FirstIs(Put(d, q, v), q, env, j);
    }
  }

  /** The providers dict a write leaves, over a plain one. */
  lemma WrittenProviders(existing: Dict<Json>, blob: Dict<Json>, c: Declaration, env: Env)
    requires EnvOk(env) && env.norm(c.provider) == Some(c.provider)
    requires LooksV2(existing) && ProvidersOf(existing) == Some(blob) && Plain(blob)
    requires Declare(existing, c, env).Written?
    ensures var m := MergeEntries(blob, EntriesOf(blob, env));
            var after := Declare(existing, c, env).payload;
            && Plain(m)
            && LooksV2(after)
            && exists sub ::
                 && Get(sub, "provider").None?
                 && ProvidersOf(after) == Some(Put(m, c.provider, Object(Amend(sub, c))))
                 && (forall k :: Get(sub, k) == Field(m, c.provider, k))
  {
    var m := Merged(existing, env);
    MergeRows(blob, blob, env);
    var current := FieldOr(m, c.provider);
    var sub := if current.Object? then current.fields else [];
    GetFinds(m, c.provider);
    if Get(m, c.provider).Some? {
      var i :| 0 <= i < |m| && m[i].0 == c.provider;
      assert PlainRow(m[i]);
    }
    WrittenFields(existing, c, env, "schema");
    WrittenFields(existing, c, env, "providers");
    assert forall k :: Get(sub, k) == Field(m, c.provider, k);
  }

  /** One field of one sub-record. */
  function Field(blob: Dict<Json>, p: string, k: string): Option<Json> {
    match Get<Json>(blob, p)
    case Some(Object(fields)) => Get(fields, k)
    case _ => None
  }

  /** ISOLATION, exactly. Over a record whose sub-records carry no provider of their own, declaring
      about p leaves the entry every reader finds for q untouched if and only if q's own key is
      not collapsed with a later spelling of q that says something else. */
  lemma OtherEntryKept(existing: Dict<Json>, blob: Dict<Json>, c: Declaration, q: string, env: Env)
    requires EnvOk(env) && env.norm(c.provider) == Some(c.provider)
    requires LooksV2(existing) && ProvidersOf(existing) == Some(blob) && Plain(blob)
    requires env.norm(q) == Some(q) && q != c.provider
    requires Declare(existing, c, env).Written?
    ensures var after := Declare(existing, c, env).payload;
            EntryFor(Entries(after, env), q) == EntryFor(Entries(existing, env), q)
            <==> !Collapsed(blob, q, env)
  {
    var m := MergeEntries(blob, EntriesOf(blob, env));
    var after := Declare(existing, c, env).payload;
    WrittenProviders(existing, blob, c, env);
    var sub :| Get(sub, "provider").None?
               && ProvidersOf(after) == Some(Put(m, c.provider, Object(Amend(sub, c))));
    var row := Object(Amend(sub, c));
    AmendPlain(sub, c);
    PlainPut(m, c.provider, row);
    EntryForRow(Put(m, c.provider, row), q, env);
    EntryForRow(blob, q, env);
    PutKeepsFirst(m, c.provider, row, q, env);
    MergeFirst(blob, q, env);
    FirstAndLast(blob, q, env);
    if FirstAbout(blob, q, env).Some? {
      RowsTell(FirstAbout(blob, q, env).value, (q, LastAbout(blob, q, env).value.1), env);
    }
  }

  lemma FirstAndLast(blob: Dict<Json>, q: string, env: Env)
    requires Plain(blob)
    ensures var first, last := FirstAbout(blob, q, env), LastAbout(blob, q, env);
            && first.Some? == last.Some?
            && (first.Some? ==> PlainRow(first.value) && PlainRow(last.value))
  {
    var j := FirstIndex(blob, q, env);
  }

  /** Two plain rows make the same entry only when they are the same row. */
  lemma RowsTell(one: (string, Json), two: (string, Json), env: Env)
    requires PlainRow(one) && PlainRow(two) && one.1.Object? && two.1.Object?
    ensures EntryOf(WithProvider(one.1.fields, one.0), env) == EntryOf(WithProvider(two.1.fields, two.0), env)
            <==> one == two
  {
    PlainEntry(one, env);
    PlainEntry(two, env);
  }

  // ---------------------------------------------------------------- canonical keys

  ghost predicate CanonicalKeys(blob: Dict<Json>, env: Env) {
    forall i :: 0 <= i < |blob| ==> env.norm(blob[i].0) == Some(blob[i].0)
  }

  /** With canonical keys the merge is the identity, so every other sub-record stays identical and
      p's own fields change only as the call says. */
  lemma OthersIdentical(existing: Dict<Json>, blob: Dict<Json>, c: Declaration, env: Env, q: string, k: string)
    requires EnvOk(env) && env.norm(c.provider) == Some(c.provider)
    requires LooksV2(existing) && ProvidersOf(existing) == Some(blob)
    requires Plain(blob) && CanonicalKeys(blob, env)
    requires Declare(existing, c, env).Written?
    ensures var after := ProvidersOf(Declare(existing, c, env).payload);
            && after.Some?
            && (q != c.provider ==> Get(after.value, q) == Get(blob, q))
            && (k != "source" && k != "declared_at"
                && (c.plan.None? || k != "plan") && (c.maxConcurrent.None? || k != "max_concurrent") ==>
                  Field(after.value, c.provider, k) == Field(blob, c.provider, k))
  {
    WrittenProviders(existing, blob, c, env);
    forall i | 0 <= i < |blob|
      ensures Get(blob, blob[i].0) == Some(blob[i].1)
    {
      GetFinds(blob, blob[i].0);
    }
    MergeCanonical(blob, blob, env);
    var after := Declare(existing, c, env).payload;
    var sub :| Get(sub, "provider").None?
               && ProvidersOf(after) == Some(Put(blob, c.provider, Object(Amend(sub, c))))
               && (forall k :: Get(sub, k) == Field(blob, c.provider, k));
    GetPut(blob, c.provider, Object(Amend(sub, c)), q);
    GetPut(blob, c.provider, Object(Amend(sub, c)), c.provider);
    if k != "source" && k != "declared_at" {
      AmendKeeps(sub, c, k);
    }
  }

  lemma {:induction false} MergeCanonical(acc: Dict<Json>, blob: Dict<Json>, env: Env)
    requires Plain(blob) && CanonicalKeys(blob, env)
    requires forall i :: 0 <= i < |blob| ==> Get(acc, blob[i].0) == Some(blob[i].1)
    ensures MergeEntries(acc, EntriesOf(blob, env)) == acc
    decreases |blob|
  {
    if blob != [] {
      assert env.norm(blob[0].0) == Some(blob[0].0);
      MergeStep(acc, blob, env);
      PutSame(acc, blob[0].0, blob[0].1);
      PlainTail(blob);
      forall i | 0 <= i < |blob| - 1
        ensures env.norm(blob[1..][i].0) == Some(blob[1..][i].0)
        ensures Get(acc, blob[1..][i].0) == Some(blob[1..][i].1)
      {
        assert blob[1..][i] == blob[i + 1];
      }
      MergeCanonical(acc, blob[1..], env);
    }
  }

  // ---------------------------------------------------------------- any record, before and after

  /** The providers object of a record, whether or not a reader looks at it. */
  function Blob(record: Dict<Json>): Dict<Json> {
    if ProvidersOf(record).Some? then ProvidersOf(record).value else []
  }

  /** A flat record that names q. */
  predicate Names(record: Dict<Json>, q: string, env: Env) {
    match Get<Json>(record, "provider")
    case Some(Str(s)) => env.norm(s) == Some(q)
    case _ => false
  }

  /** What an entry says, apart from the name it goes by. */
  function Said(e: Option<Entry>): Option<Dict<Json>> {
    if e.None? then None else Some(Without(e.value.record, "provider"))
  }

  function RowFields(row: Option<(string, Json)>): Option<Dict<Json>> {
    if row.Some? && row.value.1.Object? then Some(row.value.1.fields) else None
  }

  /** What a record says about q. */
  function Says(record: Dict<Json>, q: string, env: Env): Option<Dict<Json>> {
    if LooksV2(record) then RowFields(FirstAbout(Blob(record), q, env))
    else if Names(record, q, env) then Some(Without(record, "provider"))
    else None
  }

  /** What it will say about q once somebody declared about another account. */
  function WillSay(record: Dict<Json>, q: string, env: Env): Option<Dict<Json>> {
    var blob := Blob(record);
    if LooksV2(record)
    then RowFields(if OwnFirst(blob, q, env) then LastAbout(blob, q, env) else FirstAbout(blob, q, env))
    else if Names(record, q, env) && (FirstAbout(blob, q, env).None? || OwnFirst(blob, q, env))
    then Some(Without(record, "provider"))
    else RowFields(FirstAbout(blob, q, env))
  }

  lemma RecordSays(record: Dict<Json>, q: string, env: Env)
    requires Plain(Blob(record))
    ensures Said(EntryFor(Entries(record, env), q)) == Says(record, q, env)
  {
    if LooksV2(record) {
      var blob := Blob(record);
      assert Entries(record, env) == EntriesOf(blob, env);
      EntryForRow(blob, q, env);
      var j := FirstIndex(blob, q, env);
      if j < |blob| {
        assert PlainRow(blob[j]);
        PlainEntry(blob[j], env);
      }
    }
  }

  /** The record that a flat one is filed as. */
  function FiledFlat(record: Dict<Json>, env: Env): Dict<Json> {
    var e := EntryOf(record, env);
    if KeyOf(e).Some? then Put(Blob(record), KeyOf(e).value, Object(Without(record, "provider"))) else Blob(record)
  }

  lemma MergedPlain(record: Dict<Json>, env: Env)
    requires Plain(Blob(record))
    ensures Plain(Merged(record, env))
    ensures !LooksV2(record) ==> Merged(record, env) == FiledFlat(record, env)
  {
    var blob := Blob(record);
    if LooksV2(record) {
      MergeRows(blob, blob, env);
    } else {
      var e := EntryOf(record, env);
      assert Entries(record, env) == [e];
      assert MergeEntries(blob, [e]) == MergeEntries(FiledFlat(record, env), []);
      GetWithout(record, "provider", "provider");
      if KeyOf(e).Some? {
        PlainPut(blob, KeyOf(e).value, Object(Without(record, "provider")));
      }
    }
  }

  lemma MergedSays(record: Dict<Json>, q: string, env: Env)
    requires EnvOk(env) && Plain(Blob(record)) && env.norm(q) == Some(q)
    ensures RowFields(FirstAbout(Merged(record, env), q, env)) == WillSay(record, q, env)
  {
    var blob := Blob(record);
    if LooksV2(record) {
      assert Merged(record, env) == MergeEntries(blob, EntriesOf(blob, env));
      MergeFirst(blob, q, env);
      FirstAndLast(blob, q, env);
    } else {
      MergedPlain(record, env);
      var e := EntryOf(record, env);
      if KeyOf(e).Some? {
        var flat := Object(Without(record, "provider"));
        if Names(record, q, env) {
          PutOwnFirst(blob, q, flat, env);
        } else {
          if e.canonical.Some? {
            assert env.norm(e.canonical.value) == e.canonical;
          }
          PutKeepsFirst(blob, KeyOf(e).value, flat, q, env);
        }
      } else {
        assert env.norm("") != Some(q) || !Names(record, q, env);
      }
    }
  }

  /** ANY WRITE, EXACTLY: after a declaration about p the record says about every other account what
      `WillSay` reads off the record before it. */
  lemma WriteSays(record: Dict<Json>, c: Declaration, q: string, env: Env)
    requires EnvOk(env) && env.norm(c.provider) == Some(c.provider) && Plain(Blob(record))
    requires env.norm(q) == Some(q) && q != c.provider
    requires Declare(record, c, env).Written?
    ensures var after := Declare(record, c, env).payload;
            && LooksV2(after) && Plain(Blob(after))
            && Said(EntryFor(Entries(after, env), q)) == WillSay(record, q, env)
  {
    var m := Merged(record, env);
    var after := Declare(record, c, env).payload;
    MergedPlain(record, env);
    var current := FieldOr(m, c.provider);
    var sub := if current.Object? then current.fields else [];
    GetFinds(m, c.provider);
    if Get(m, c.provider).Some? {
      var i :| 0 <= i < |m| && m[i].0 == c.provider;
      assert PlainRow(m[i]);
    }
    var row := Object(Amend(sub, c));
    AmendPlain(sub, c);
    PlainPut(m, c.provider, row);
    WrittenFields(record, c, env, "schema");
    WrittenFields(record, c, env, "providers");
    assert Blob(after) == Put(m, c.provider, row);
    RecordSays(after, q, env);
    PutKeepsFirst(m, c.provider, row, q, env);
    MergedSays(record, q, env);
  }

  /** THE UPGRADE of a flat record, whatever it names and whatever `providers` object it carries unseen:
      afterwards another account has an entry exactly when the record named it or the object has a row
      about it, and the record says the same about it exactly when no row about it was hidden, or the
      record named it and its own key comes first there, or the first hidden row says the same. */
  lemma UpgradeKept(record: Dict<Json>, c: Declaration, q: string, env: Env)
    requires EnvOk(env) && env.norm(c.provider) == Some(c.provider) && Plain(Blob(record))
    requires !LooksV2(record)
    requires env.norm(q) == Some(q) && q != c.provider
    requires Declare(record, c, env).Written?
    ensures var before := EntryFor(Entries(record, env), q);
            var after := EntryFor(Entries(Declare(record, c, env).payload, env), q);
            var hidden := FirstAbout(Blob(record), q, env);
            && (after.Some? <==> before.Some? || hidden.Some?)
            && (Said(after) == Said(before) <==>
                  hidden.None?
                  || (before.Some? && (OwnFirst(Blob(record), q, env)
                                       || hidden.value.1 == Object(Without(record, "provider")))))
  {
    RecordSays(record, q, env);
    WriteSays(record, c, q, env);
    FirstAndLast(Blob(record), q, env);
  }
}
