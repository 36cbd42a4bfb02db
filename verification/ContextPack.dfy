/** Packing whole files into a model's input budget: required files or a loud overflow, then protected
    research, then one slide's anchors, then optional files while they fit. */
module ContextPack {
  import opened Text

  const CHARACTERS_PER_TOKEN: int := 4
  const FIXED_OVERHEAD: int := 70000
  const MIN_AVAILABLE: int := 20000

  /** The run's files: what a pattern expands to, and what a path reads as (None when unreadable). */
  datatype Files = Files(expand: string -> seq<string>, read: string -> Option<string>)

  datatype File = File(path: string, text: string)

  datatype Standing = Required | Scoped | Protected | Anchor | Optional

  /** One line of the inclusion manifest. */
  datatype Row = Row(path: string, chars: int, standing: Standing, included: bool)

  datatype Pack = Pack(rows: seq<Row>, parts: seq<string>, total: int)

  datatype Outcome = Overflow(required: int, available: int) | Packed(pack: Pack)

  // ---------------------------------------------------------------- the budget

  /** A model's budget: the first row whose id occurs in its name, else the fallback. */
  function Budget(model: string, table: seq<(string, int)>, fallback: int): int {
    var name := Lower(Strip(model));
    var k := FirstWhere(table, (row: (string, int)) => Contains(name, row.0));
    if k < |table| then table[k].1 else fallback
  }

  function AvailableBudget(budget: int, maxOutputTokens: int): int {
    var room := budget - maxOutputTokens * CHARACTERS_PER_TOKEN - FIXED_OVERHEAD;
    if room > MIN_AVAILABLE then room else MIN_AVAILABLE
  }

  /** The first row one of whose ids the model's name contains, whatever its case and blanks, gives the budget. */
  lemma BudgetExactly(model: string, table: seq<(string, int)>, fallback: int, k: nat)
    requires k <= |table| && forall j :: 0 <= j < k ==> !Contains(Lower(Strip(model)), table[j].0)
    requires k < |table| ==> Contains(Lower(Strip(model)), table[k].0)
    ensures Budget(model, table, fallback) == if k < |table| then table[k].1 else fallback
  {
  }

  /** What is available is the larger of the floor and what the model leaves beside output and framing. */
  lemma AvailableExactly(budget: int, maxOutputTokens: int)
    ensures var a := AvailableBudget(budget, maxOutputTokens);
            && a >= 20000 && a >= budget - 4 * maxOutputTokens - 70000
            && (a == 20000 || Fits(a, budget, maxOutputTokens))
  {
  }

  /** Input, output reserve and framing together stay within what the model takes. */
  predicate Fits(total: int, budget: int, maxOutputTokens: int) {
    total + maxOutputTokens * CHARACTERS_PER_TOKEN + FIXED_OVERHEAD <= budget
  }

  /** The floor is not headroom: every pack within the available budget fits the model exactly when the
      model really has the minimum to spare. */
  lemma BudgetFits(budget: int, maxOutputTokens: int)
    ensures (forall total: int :: total <= AvailableBudget(budget, maxOutputTokens)
               ==> Fits(total, budget, maxOutputTokens))
            <==> Fits(MIN_AVAILABLE, budget, maxOutputTokens)
  {
    var a := AvailableBudget(budget, maxOutputTokens);
    if !Fits(MIN_AVAILABLE, budget, maxOutputTokens) {
      assert !Fits(a, budget, maxOutputTokens);
    }
  }

  /** A model that takes 50000 characters is granted 20000 beside a 64000-token reserve it cannot hold. */
  lemma SmallModelOverfilled()
    ensures AvailableBudget(50000, 64000) == MIN_AVAILABLE && !Fits(MIN_AVAILABLE, 50000, 64000)
  {
  }

  // ---------------------------------------------------------------- the required files

  function Readable(f: Files, paths: seq<string>): seq<File> {
    if paths == [] then []
    else
      var rest := Readable(f, paths[..|paths| - 1]);
      var p := paths[|paths| - 1];
      match f.read(p)
      case None => rest
      case Some(text) => rest + [File(p, text)]
  }

  function Gathered(f: Files, patterns: seq<string>): seq<File> {
    if patterns == [] then []
    else Gathered(f, patterns[..|patterns| - 1]) + Readable(f, f.expand(patterns[|patterns| - 1]))
  }

  function Chars(files: seq<File>): int {
    if files == [] then 0 else Chars(files[..|files| - 1]) + |files[|files| - 1].text|
  }

  lemma {:induction false} CharsParts(a: seq<File>, b: seq<File>)
    ensures Chars(a + b) == Chars(a) + Chars(b)
  {
    if b == [] {
      assert a + b == a;
    } else {
      assert (a + b)[..|a + b| - 1] == a + b[..|b| - 1];
      CharsParts(a, b[..|b| - 1]);
    }
  }

  method GatherRequired(f: Files, patterns: seq<string>) returns (files: seq<File>, chars: int)
    ensures files == Gathered(f, patterns) && chars == Chars(files)
  {
    files, chars := [], 0;
    for i := 0 to |patterns|
      invariant files == Gathered(f, patterns[..i]) && chars == Chars(files)
    {
      var paths := f.expand(patterns[i]);
      ghost var before := files;
      for j := 0 to |paths|
        invariant files == before + Readable(f, paths[..j]) && chars == Chars(files)
      {
        assert paths[..j + 1][..j] == paths[..j];
        match f.read(paths[j])
        case None =>
        case Some(text) =>
          CharsParts(files, [File(paths[j], text)]);
          assert [File(paths[j], text)][..0] == [];
          files := files + [File(paths[j], text)];
          chars := chars + |text|;
      }
      assert paths[..|paths|] == paths;
      assert patterns[..i + 1][..i] == patterns[..i];
    }
    assert patterns[..|patterns|] == patterns;
  }

  // ---------------------------------------------------------------- building the pack

  function Added(p: Pack, path: string, text: string, standing: Standing): Pack {
    Pack(p.rows + [Row(path, |text|, standing, true)], p.parts + [text], p.total + |text|)
  }

  function LeftOut(p: Pack, path: string, text: string, standing: Standing): Pack {
    p.(rows := p.rows + [Row(path, |text|, standing, false)])
  }

  predicate Listed(rows: seq<Row>, path: string) {
    exists i :: 0 <= i < |rows| && rows[i].path == path
  }

  /** A required file; a slide-scoped pack lists the whole research map but does not carry it. */
  function TakeOne(p: Pack, file: File, dropped: Option<string>): Pack {
    if dropped == Some(file.path) then LeftOut(p, file.path, file.text, Scoped)
    else Added(p, file.path, file.text, Required)
  }

  function TakeAll(files: seq<File>, dropped: Option<string>): Pack {
    if files == [] then Pack([], [], 0)
    else TakeOne(TakeAll(files[..|files| - 1], dropped), files[|files| - 1], dropped)
  }

  /** A file that goes in whole when it still fits at its turn. */
  function OfferOne(p: Pack, path: string, f: Files, available: int, standing: Standing): Pack {
    if Listed(p.rows, path) then p
    else
      match f.read(path)
      case None => p
      case Some(text) =>
        if p.total + |text| > available then LeftOut(p, path, text, standing)
        else Added(p, path, text, standing)
  }

  function OfferPaths(p: Pack, paths: seq<string>, f: Files, available: int, standing: Standing): Pack {
    if paths == [] then p
    else OfferOne(OfferPaths(p, paths[..|paths| - 1], f, available, standing), paths[|paths| - 1],
                  f, available, standing)
  }

  function OfferAll(p: Pack, patterns: seq<string>, f: Files, available: int, standing: Standing): Pack {
    if patterns == [] then p
    else OfferPaths(OfferAll(p, patterns[..|patterns| - 1], f, available, standing),
                    f.expand(patterns[|patterns| - 1]), f, available, standing)
  }

  /** Anchors go in one after another until the first that does not fit. */
  function AnchorAll(p: Pack, anchors: seq<string>, path: string, available: int): Pack
    decreases |anchors|
  {
    if anchors == [] || p.total + |anchors[0]| > available then p
    else AnchorAll(Added(p, path, anchors[0], Anchor), anchors[1..], path, available)
  }

  /** What the caller asks for; `required` has the extra patterns appended already. `anchors` is None unless a slide is scoped and the map file exists. */
  datatype Ask = Ask(required: seq<string>, protected: seq<string>, optional: seq<string>,
                     mapPath: string, anchorPath: string, anchors: Option<seq<string>>, available: int)

  function Dropped(a: Ask): Option<string> {
    if a.anchors.Some? then Some(a.mapPath) else None
  }

  function Anchors(a: Ask): seq<string> {
    if a.anchors.Some? then a.anchors.value else []
  }

  /** Protected patterns that nothing required names already; a scoped pack drops the map from them. */
  function StillProtected(a: Ask, patterns: seq<string>, covers: (string, string) -> bool): seq<string> {
    if patterns == [] then []
    else
      var rest := StillProtected(a, patterns[..|patterns| - 1], covers);
      var p := patterns[|patterns| - 1];
      if (a.anchors.Some? && p == a.mapPath) || Named(p, a.required, covers) then rest else rest + [p]
  }

  predicate Named(p: string, named: seq<string>, covers: (string, string) -> bool) {
    exists i :: 0 <= i < |named| && (covers(p, named[i]) || covers(named[i], p))
  }

  function Built(a: Ask, f: Files, covers: (string, string) -> bool): Outcome {
    var required := Gathered(f, a.required);
    if Chars(required) > a.available then Overflow(Chars(required), a.available)
    else
      var taken := TakeAll(required, Dropped(a));
      var guarded := OfferAll(taken, StillProtected(a, a.protected, covers), f, a.available, Protected);
      var anchored := AnchorAll(guarded, Anchors(a), a.anchorPath, a.available);
      Packed(OfferAll(anchored, a.optional, f, a.available, Optional))
  }

  method OfferPatterns(p: Pack, patterns: seq<string>, f: Files, available: int, standing: Standing)
    returns (q: Pack)
    ensures q == OfferAll(p, patterns, f, available, standing)
  {
    q := p;
    for i := 0 to |patterns|
      invariant q == OfferAll(p, patterns[..i], f, available, standing)
    {
      var paths := f.expand(patterns[i]);
      ghost var before := q;
      for j := 0 to |paths|
        invariant q == OfferPaths(before, paths[..j], f, available, standing)
      {
        assert paths[..j + 1][..j] == paths[..j];
        if !Listed(q.rows, paths[j]) {
          match f.read(paths[j])
          case None =>
          case Some(text) =>
            if q.total + |text| > available {
              q := q.(rows := q.rows + [Row(paths[j], |text|, standing, false)]);
            } else {
              q := Pack(q.rows + [Row(paths[j], |text|, standing, true)], q.parts + [text], q.total + |text|);
            }
        }
      }
      assert paths[..|paths|] == paths;
      assert patterns[..i + 1][..i] == patterns[..i];
    }
    assert patterns[..|patterns|] == patterns;
  }

  /** Every required file goes in, save the map of a scoped pack. */
  method TakeRequired(required: seq<File>, dropped: Option<string>) returns (p: Pack)
    ensures p == TakeAll(required, dropped)
  {
    p := Pack([], [], 0);
    for i := 0 to |required|
      invariant p == TakeAll(required[..i], dropped)
    {
      assert required[..i + 1][..i] == required[..i];
      if dropped == Some(required[i].path) {
        p := p.(rows := p.rows + [Row(required[i].path, |required[i].text|, Scoped, false)]);
      } else {
        p := Added(p, required[i].path, required[i].text, Required);
      }
    }
    assert required[..|required|] == required;
  }

  method BuildPack(a: Ask, f: Files, covers: (string, string) -> bool) returns (r: Outcome)
    ensures r == Built(a, f, covers)
    ensures r.Overflow? <==> Chars(Gathered(f, a.required)) > a.available
    ensures r.Packed? ==> Honest(r.pack, a.available)
  {
    var required, chars := GatherRequired(f, a.required);
    if chars > a.available {
      return Overflow(chars, a.available);
    }
    var p := TakeRequired(required, Dropped(a));
    p := OfferPatterns(p, StillProtected(a, a.protected, covers), f, a.available, Protected);
    var anchors := Anchors(a);
    var k := 0;
    ghost var guarded := p;
    while k < |anchors| && p.total + |anchors[k]| <= a.available
      invariant 0 <= k <= |anchors|
      invariant AnchorAll(guarded, anchors, a.anchorPath, a.available)
                == AnchorAll(p, anchors[k..], a.anchorPath, a.available)
    {
      assert anchors[k..][0] == anchors[k] && anchors[k..][1..] == anchors[k + 1..];
      p := Added(p, a.anchorPath, anchors[k], Anchor);
      k := k + 1;
    }
    p := OfferPatterns(p, a.optional, f, a.available, Optional);
    r := Packed(p);
    BuiltHonest(a, f, covers);
  }

  // ---------------------------------------------------------------- what every pack satisfies

  function Included(rows: seq<Row>): int {
    if rows == [] then 0
    else Included(rows[..|rows| - 1]) + if rows[|rows| - 1].included then rows[|rows| - 1].chars else 0
  }

  function IncludedCount(rows: seq<Row>): nat {
    if rows == [] then 0
    else IncludedCount(rows[..|rows| - 1]) + if rows[|rows| - 1].included then 1 else 0
  }

  /** Row `i` had its turn with the total of the rows before it: an offered file was left out exactly when
      it did not fit then. */
  predicate TurnHonest(rows: seq<Row>, i: nat, available: int)
    requires i < |rows|
  {
    match rows[i].standing
    case Required => rows[i].included
    case Scoped => !rows[i].included
    case Anchor => rows[i].included
    case Protected => rows[i].included <==> Included(rows[..i]) + rows[i].chars <= available
    case Optional => rows[i].included <==> Included(rows[..i]) + rows[i].chars <= available
  }

  /** The accounting of a pack: the total is the sum over included rows and within the budget, each
      included row's file is a part whole, and every row had an honest turn. */
  ghost predicate Honest(p: Pack, available: int) {
    && p.total == Included(p.rows) && p.total <= available
    && |p.parts| == IncludedCount(p.rows)
    && (forall i :: 0 <= i < |p.rows| && p.rows[i].included ==> Carried(p, i))
    && (forall i :: 0 <= i < |p.rows| ==> TurnHonest(p.rows, i, available))
  }

  /** The part of an included row is as long as the row says. */
  predicate Carried(p: Pack, i: nat) {
    && i < |p.rows| && IncludedCount(p.rows[..i]) < |p.parts|
    && |p.parts[IncludedCount(p.rows[..i])]| == p.rows[i].chars
  }

  lemma Extend(p: Pack, q: Pack, row: Row, available: int)
    requires Honest(p, available) && q.rows == p.rows + [row]
    requires q.parts == p.parts || (|q.parts| == |p.parts| + 1 && q.parts[..|p.parts|] == p.parts)
    requires row.included ==> |q.parts| == |p.parts| + 1 && |q.parts[|p.parts|]| == row.chars
    requires !row.included ==> q.parts == p.parts
    requires q.total == p.total + (if row.included then row.chars else 0) && q.total <= available
    requires TurnHonest(q.rows, |p.rows|, available)
    ensures Honest(q, available)
  {
    var n := |p.rows|;
    assert q.rows[..n] == p.rows && q.rows[n] == row;
    forall i | 0 <= i < n
      ensures TurnHonest(q.rows, i, available)
      ensures q.rows[i].included ==> Carried(q, i)
    {
      assert q.rows[i] == p.rows[i] && q.rows[..i] == p.rows[..i];
      assert TurnHonest(p.rows, i, available);
      if p.rows[i].included {
        assert Carried(p, i);
        assert q.parts[IncludedCount(p.rows[..i])] == p.parts[IncludedCount(p.rows[..i])];
      }
    }
  }

  lemma AddedHonest(p: Pack, path: string, text: string, standing: Standing, available: int)
    requires Honest(p, available) && p.total + |text| <= available && standing != Scoped
    ensures Honest(Added(p, path, text, standing), available)
  {
    var q := Added(p, path, text, standing);
    assert q.rows[..|p.rows|] == p.rows;
    Extend(p, q, Row(path, |text|, standing, true), available);
  }

  lemma LeftOutHonest(p: Pack, path: string, text: string, standing: Standing, available: int)
    requires Honest(p, available)
    requires standing.Scoped? || ((standing.Protected? || standing.Optional?) && p.total + |text| > available)
    ensures Honest(LeftOut(p, path, text, standing), available)
  {
    var q := LeftOut(p, path, text, standing);
    assert q.rows[..|p.rows|] == p.rows;
    Extend(p, q, Row(path, |text|, standing, false), available);
  }

  lemma {:induction false} TakenHonest(files: seq<File>, dropped: Option<string>, available: int)
    requires Chars(files) <= available
    ensures Honest(TakeAll(files, dropped), available)
    ensures TakeAll(files, dropped).total <= Chars(files)
  {
    if files == [] {
      assert 0 <= available;
    } else {
      var front, last := files[..|files| - 1], files[|files| - 1];
      TakenHonest(front, dropped, available);
      var p := TakeAll(front, dropped);
      if dropped == Some(last.path) {
        LeftOutHonest(p, last.path, last.text, Scoped, available);
      } else {
        AddedHonest(p, last.path, last.text, Required, available);
      }
    }
  }

  lemma OfferOneHonest(p: Pack, path: string, f: Files, available: int, standing: Standing)
    requires Honest(p, available) && (standing.Protected? || standing.Optional?)
    ensures Honest(OfferOne(p, path, f, available, standing), available)
  {
    if !Listed(p.rows, path) && f.read(path).Some? {
      var text := f.read(path).value;
      if p.total + |text| > available {
        LeftOutHonest(p, path, text, standing, available);
      } else {
        AddedHonest(p, path, text, standing, available);
      }
    }
  }

  lemma {:induction false} OfferedHonest(p: Pack, paths: seq<string>, f: Files, available: int, standing: Standing)
    requires Honest(p, available) && (standing.Protected? || standing.Optional?)
    ensures var q := OfferPaths(p, paths, f, available, standing);
            Honest(q, available) && p.rows <= q.rows && p.parts <= q.parts
  {
    if paths != [] {
      var front, last := paths[..|paths| - 1], paths[|paths| - 1];
      OfferedHonest(p, front, f, available, standing);
      OfferOneHonest(OfferPaths(p, front, f, available, standing), last, f, available, standing);
    }
  }

  lemma {:induction false} OfferAllHonest(p: Pack, patterns: seq<string>, f: Files, available: int, standing: Standing)
    requires Honest(p, available) && (standing.Protected? || standing.Optional?)
    ensures var q := OfferAll(p, patterns, f, available, standing);
            Honest(q, available) && p.rows <= q.rows && p.parts <= q.parts
  {
    if patterns != [] {
      OfferAllHonest(p, patterns[..|patterns| - 1], f, available, standing);
      OfferedHonest(OfferAll(p, patterns[..|patterns| - 1], f, available, standing),
                    f.expand(patterns[|patterns| - 1]), f, available, standing);
    }
  }

  function AnchorSeq(path: string, anchors: seq<string>, k: nat): seq<Row>
    requires k <= |anchors|
  {
    seq(k, i requires 0 <= i < k => Row(path, |anchors[i]|, Anchor, true))
  }

  lemma OneMoreAnchor(parts: seq<string>, path: string, anchors: seq<string>, k: nat)
    requires anchors != [] && k < |anchors|
    ensures (parts + [anchors[0]]) + anchors[1..][..k] == parts + anchors[..k + 1]
    ensures k + 1 < |anchors| ==> anchors[1..][k] == anchors[k + 1]
    ensures [Row(path, |anchors[0]|, Anchor, true)] + AnchorSeq(path, anchors[1..], k) == AnchorSeq(path, anchors, k + 1)
  {
  }

  lemma {:induction false} AnchorsHonest(p: Pack, anchors: seq<string>, path: string, available: int)
    requires Honest(p, available)
    ensures Honest(AnchorAll(p, anchors, path, available), available)
    decreases |anchors|
  {
    if anchors != [] && p.total + |anchors[0]| <= available {
      AddedHonest(p, path, anchors[0], Anchor, available);
      AnchorsHonest(Added(p, path, anchors[0], Anchor), anchors[1..], path, available);
    }
  }

  /** The anchors that go in are a prefix, and the first one that did not fit ends it, whatever follows. */
  lemma {:induction false} AnchorsArePrefix(p: Pack, anchors: seq<string>, path: string, available: int)
    returns (k: nat)
    ensures k <= |anchors|
    ensures var q := AnchorAll(p, anchors, path, available);
            && q.rows == p.rows + AnchorSeq(path, anchors, k)
            && q.parts == p.parts + anchors[..k]
            && (k < |anchors| ==> q.total + |anchors[k]| > available)
    decreases |anchors|
  {
    if anchors == [] || p.total + |anchors[0]| > available {
      k := 0;
    } else {
      var next := Added(p, path, anchors[0], Anchor);
      k := AnchorsArePrefix(next, anchors[1..], path, available);
      OneMoreAnchor(p.parts, path, anchors, k);
      assert next.rows + AnchorSeq(path, anchors[1..], k) == p.rows + AnchorSeq(path, anchors, k + 1);
      k := k + 1;
    }
  }

  lemma BuiltHonest(a: Ask, f: Files, covers: (string, string) -> bool)
    requires Chars(Gathered(f, a.required)) <= a.available
    ensures Built(a, f, covers).Packed? && Honest(Built(a, f, covers).pack, a.available)
    ensures TakeAll(Gathered(f, a.required), Dropped(a)).rows <= Built(a, f, covers).pack.rows
    ensures TakeAll(Gathered(f, a.required), Dropped(a)).parts <= Built(a, f, covers).pack.parts
  {
    var taken := TakeAll(Gathered(f, a.required), Dropped(a));
    TakenHonest(Gathered(f, a.required), Dropped(a), a.available);
    var patterns := StillProtected(a, a.protected, covers);
    OfferAllHonest(taken, patterns, f, a.available, Protected);
    var guarded := OfferAll(taken, patterns, f, a.available, Protected);
    var k := AnchorsArePrefix(guarded, Anchors(a), a.anchorPath, a.available);
    AnchorsHonest(guarded, Anchors(a), a.anchorPath, a.available);
    var anchored := AnchorAll(guarded, Anchors(a), a.anchorPath, a.available);
    OfferAllHonest(anchored, a.optional, f, a.available, Optional);
  }

  lemma {:induction false} TakenWhole(files: seq<File>)
    ensures |TakeAll(files, None).parts| == |files| == |TakeAll(files, None).rows|
    ensures forall i :: 0 <= i < |files| ==>
              && TakeAll(files, None).parts[i] == files[i].text
              && TakeAll(files, None).rows[i] == Row(files[i].path, |files[i].text|, Required, true)
  {
    if files != [] {
      TakenWhole(files[..|files| - 1]);
    }
  }

  /** With no slide scoped, packing overflows exactly when the required characters exceed the budget, and
      otherwise carries every readable required file whole and first, in order. */
  lemma RequiredWhole(a: Ask, f: Files, covers: (string, string) -> bool)
    requires a.anchors.None?
    ensures var files := Gathered(f, a.required);
            var out := Built(a, f, covers);
            && (out.Overflow? <==> Chars(files) > a.available)
            && (out.Packed? ==>
                  && |files| <= |out.pack.parts| && |files| <= |out.pack.rows|
                  && forall i :: 0 <= i < |files| ==>
                       && out.pack.parts[i] == files[i].text
                       && out.pack.rows[i] == Row(files[i].path, |files[i].text|, Required, true))
  {
    var files := Gathered(f, a.required);
    if Chars(files) <= a.available {
      BuiltHonest(a, f, covers);
      TakenWhole(files);
    }
  }

  lemma {:induction false} TakenRows(files: seq<File>, dropped: Option<string>)
    ensures var rows := TakeAll(files, dropped).rows;
            && |rows| == |files|
            && forall i :: 0 <= i < |files| ==>
                 rows[i] == Row(files[i].path, |files[i].text|, if dropped == Some(files[i].path) then Scoped else Required,
                                dropped != Some(files[i].path))
  {
    if files != [] {
      TakenRows(files[..|files| - 1], dropped);
    }
  }

  /** The rows of the slide's anchors. */
  function AnchorRows(rows: seq<Row>): seq<Row> {
    if rows == [] then []
    else
      var rest, last := AnchorRows(rows[..|rows| - 1]), rows[|rows| - 1];
      if last.standing == Anchor then rest + [last] else rest
  }

  lemma AnchorAppend(rows: seq<Row>, row: Row)
    ensures AnchorRows(rows + [row]) == if row.standing == Anchor then AnchorRows(rows) + [row] else AnchorRows(rows)
  {
    assert (rows + [row])[..|rows|] == rows;
  }

  lemma {:induction false} TakenNoAnchors(files: seq<File>, dropped: Option<string>)
    ensures AnchorRows(TakeAll(files, dropped).rows) == []
  {
    if files != [] {
      var front, last := files[..|files| - 1], files[|files| - 1];
      TakenNoAnchors(front, dropped);
      var standing := if dropped == Some(last.path) then Scoped else Required;
      AnchorAppend(TakeAll(front, dropped).rows, Row(last.path, |last.text|, standing, standing == Required));
    }
  }

  lemma OfferOneKeepsAnchors(p: Pack, path: string, f: Files, available: int, standing: Standing)
    requires standing != Anchor
    ensures AnchorRows(OfferOne(p, path, f, available, standing).rows) == AnchorRows(p.rows)
  {
    if f.read(path).Some? {
      var n := |f.read(path).value|;
      AnchorAppend(p.rows, Row(path, n, standing, true));
      AnchorAppend(p.rows, Row(path, n, standing, false));
    }
  }

  lemma {:induction false} OfferKeepsAnchors(p: Pack, paths: seq<string>, f: Files, available: int, standing: Standing)
    requires standing != Anchor
    ensures AnchorRows(OfferPaths(p, paths, f, available, standing).rows) == AnchorRows(p.rows)
  {
    if paths != [] {
      var front := paths[..|paths| - 1];
      OfferKeepsAnchors(p, front, f, available, standing);
      OfferOneKeepsAnchors(OfferPaths(p, front, f, available, standing), paths[|paths| - 1], f, available, standing);
    }
  }

  lemma {:induction false} OfferAllKeepsAnchors(p: Pack, patterns: seq<string>, f: Files, available: int, standing: Standing)
    requires standing != Anchor
    ensures AnchorRows(OfferAll(p, patterns, f, available, standing).rows) == AnchorRows(p.rows)
  {
    if patterns != [] {
      var front := patterns[..|patterns| - 1];
      OfferAllKeepsAnchors(p, front, f, available, standing);
      OfferKeepsAnchors(OfferAll(p, front, f, available, standing), f.expand(patterns[|patterns| - 1]),
                        f, available, standing);
    }
  }

  lemma {:induction false} AnchorsTaken(p: Pack, anchors: seq<string>, path: string, available: int) returns (k: nat)
    ensures k <= |anchors|
    ensures AnchorRows(AnchorAll(p, anchors, path, available).rows) ==
            AnchorRows(p.rows) + seq(k, i requires 0 <= i < k => Row(path, |anchors[i]|, Anchor, true))
    decreases |anchors|
  {
    if anchors == [] || p.total + |anchors[0]| > available {
      k := 0;
    } else {
      var first := Row(path, |anchors[0]|, Anchor, true);
      AnchorAppend(p.rows, first);
      var n := AnchorsTaken(Added(p, path, anchors[0], Anchor), anchors[1..], path, available);
      k := n + 1;
      assert seq(k, i requires 0 <= i < k => Row(path, |anchors[i]|, Anchor, true))
          == [first] + seq(n, i requires 0 <= i < n => Row(path, |anchors[1..][i]|, Anchor, true));
    }
  }

  /** A SCOPED PACK. Every readable required file has a row, in order; only the research map of a pack scoped to a
      slide is left out, and only there. The anchors of the slide that go in are its first ones, and a pack
      without a slide has none. */
  lemma ScopedExactly(a: Ask, f: Files, covers: (string, string) -> bool) returns (k: nat)
    requires Built(a, f, covers).Packed?
    ensures var files, rows := Gathered(f, a.required), Built(a, f, covers).pack.rows;
            && |files| <= |rows|
            && (forall i :: 0 <= i < |files| ==>
                  var dropped := a.anchors.Some? && files[i].path == a.mapPath;
                  rows[i] == Row(files[i].path, |files[i].text|, if dropped then Scoped else Required, !dropped))
    ensures a.anchors.None? ==> AnchorRows(Built(a, f, covers).pack.rows) == []
    ensures a.anchors.Some? ==>
              && k <= |a.anchors.value|
              && AnchorRows(Built(a, f, covers).pack.rows) ==
                 seq(k, i requires 0 <= i < k => Row(a.anchorPath, |a.anchors.value[i]|, Anchor, true))
  {
    var files := Gathered(f, a.required);
    var taken := TakeAll(files, Dropped(a));
    var patterns := StillProtected(a, a.protected, covers);
    var guarded := OfferAll(taken, patterns, f, a.available, Protected);
    TakenRows(files, Dropped(a));
    BuiltHonest(a, f, covers);
    TakenNoAnchors(files, Dropped(a));
    OfferAllKeepsAnchors(taken, patterns, f, a.available, Protected);
    k := AnchorsTaken(guarded, Anchors(a), a.anchorPath, a.available);
    OfferAllKeepsAnchors(AnchorAll(guarded, Anchors(a), a.anchorPath, a.available), a.optional, f, a.available, Optional);
  }

  // ---------------------------------------------------------------- which files have a row

  /** Some pattern names the file, and it can be read. */
  predicate Offers(patterns: seq<string>, f: Files, path: string) {
    f.read(path).Some? && exists k :: 0 <= k < |patterns| && path in f.expand(patterns[k])
  }

  lemma Lists(rows: seq<Row>, row: Row, path: string)
    ensures Listed(rows + [row], path) <==> Listed(rows, path) || row.path == path
  {
    if Listed(rows, path) {
      var i :| 0 <= i < |rows| && rows[i].path == path;
      assert (rows + [row])[i].path == path;
    }
    assert (rows + [row])[|rows|] == row;
  }

  lemma OfferOneLists(p: Pack, offered: string, f: Files, available: int, standing: Standing, path: string)
    ensures Listed(OfferOne(p, offered, f, available, standing).rows, path)
            <==> Listed(p.rows, path) || (offered == path && f.read(path).Some?)
  {
    if !Listed(p.rows, offered) && f.read(offered).Some? {
      var text := f.read(offered).value;
      Lists(p.rows, Row(offered, |text|, standing, p.total + |text| <= available), path);
    }
  }

  lemma {:induction false} OfferedListsExactly(p: Pack, paths: seq<string>, f: Files, available: int, standing: Standing,
                                               path: string)
    ensures Listed(OfferPaths(p, paths, f, available, standing).rows, path)
            <==> Listed(p.rows, path) || (path in paths && f.read(path).Some?)
  {
    if paths != [] {
      var front, last := paths[..|paths| - 1], paths[|paths| - 1];
      OfferedListsExactly(p, front, f, available, standing, path);
      OfferOneLists(OfferPaths(p, front, f, available, standing), last, f, available, standing, path);
      assert path in paths <==> path in front || path == last;
    }
  }

  lemma OffersParts(patterns: seq<string>, f: Files, path: string)
    requires patterns != []
    ensures var n := |patterns| - 1;
            Offers(patterns, f, path) <==>
              Offers(patterns[..n], f, path) || (f.read(path).Some? && path in f.expand(patterns[n]))
  {
    var n := |patterns| - 1;
    if k :| 0 <= k < |patterns| && path in f.expand(patterns[k]) {
      if k < n {
        assert path in f.expand(patterns[..n][k]);
      }
    }
    if k :| 0 <= k < n && path in f.expand(patterns[..n][k]) {
      assert path in f.expand(patterns[k]);
    }
  }

  lemma {:induction false} OfferAllListsExactly(p: Pack, patterns: seq<string>, f: Files, available: int,
                                                standing: Standing, path: string)
    ensures Listed(OfferAll(p, patterns, f, available, standing).rows, path)
            <==> Listed(p.rows, path) || Offers(patterns, f, path)
  {
    if patterns != [] {
      var n := |patterns| - 1;
      OfferAllListsExactly(p, patterns[..n], f, available, standing, path);
      OfferedListsExactly(OfferAll(p, patterns[..n], f, available, standing), f.expand(patterns[n]), f, available,
                          standing, path);
      OffersParts(patterns, f, path);
    }
  }

  predicate Holds(files: seq<File>, path: string) {
    exists i :: 0 <= i < |files| && files[i].path == path
  }

  lemma {:induction false} TakenLists(files: seq<File>, dropped: Option<string>, path: string)
    ensures Listed(TakeAll(files, dropped).rows, path) <==> Holds(files, path)
  {
    if files != [] {
      var front, last := files[..|files| - 1], files[|files| - 1];
      TakenLists(front, dropped, path);
      var p := TakeAll(front, dropped);
      Lists(p.rows, TakeOne(p, last, dropped).rows[|p.rows|], path);
      HoldsParts(front, [last], path);
      assert files == front + [last] && [last][0] == last;
    }
  }

  lemma HoldsParts(a: seq<File>, b: seq<File>, path: string)
    ensures Holds(a + b, path) <==> Holds(a, path) || Holds(b, path)
  {
    if i :| 0 <= i < |a| && a[i].path == path {
      assert (a + b)[i].path == path;
    }
    if i :| 0 <= i < |b| && b[i].path == path {
      assert (a + b)[|a| + i].path == path;
    }
  }

  lemma {:induction false} ReadableHolds(f: Files, paths: seq<string>, path: string)
    ensures Holds(Readable(f, paths), path) <==> path in paths && f.read(path).Some?
  {
    if paths != [] {
      var front, last := paths[..|paths| - 1], paths[|paths| - 1];
      ReadableHolds(f, front, path);
      if f.read(last).Some? {
        var file := File(last, f.read(last).value);
        HoldsParts(Readable(f, front), [file], path);
        assert [file][0] == file;
      }
      assert path in paths <==> path in front || path == last;
    }
  }

  lemma {:induction false} GatheredHolds(f: Files, patterns: seq<string>, path: string)
    ensures Holds(Gathered(f, patterns), path) <==> Offers(patterns, f, path)
  {
    if patterns != [] {
      var n := |patterns| - 1;
      GatheredHolds(f, patterns[..n], path);
      ReadableHolds(f, f.expand(patterns[n]), path);
      HoldsParts(Gathered(f, patterns[..n]), Readable(f, f.expand(patterns[n])), path);
      OffersParts(patterns, f, path);
    }
  }

  lemma {:induction false} AnchorsList(p: Pack, anchors: seq<string>, anchorPath: string, available: int, path: string)
    requires path != anchorPath
    ensures Listed(AnchorAll(p, anchors, anchorPath, available).rows, path) <==> Listed(p.rows, path)
    decreases |anchors|
  {
    if anchors != [] && p.total + |anchors[0]| <= available {
      Lists(p.rows, Row(anchorPath, |anchors[0]|, Anchor, true), path);
      AnchorsList(Added(p, anchorPath, anchors[0], Anchor), anchors[1..], anchorPath, available, path);
    }
  }

  /** A protected pattern that is not offered: something required names it, or it is a scoped map. */
  predicate Withheld(a: Ask, covers: (string, string) -> bool, p: string) {
    || (a.anchors.Some? && p == a.mapPath)
    || exists n :: n in a.required && (covers(p, n) || covers(n, p))
  }

  lemma WithheldIs(a: Ask, covers: (string, string) -> bool, p: string)
    ensures Withheld(a, covers, p) <==> (a.anchors.Some? && p == a.mapPath) || Named(p, a.required, covers)
  {
    if n :| n in a.required && (covers(p, n) || covers(n, p)) {
      var i :| 0 <= i < |a.required| && a.required[i] == n;
      assert covers(p, a.required[i]) || covers(a.required[i], p);
    }
    if Named(p, a.required, covers) {
      var i :| 0 <= i < |a.required| && (covers(p, a.required[i]) || covers(a.required[i], p));
      assert a.required[i] in a.required;
    }
  }

  /** Some protected pattern that is still offered names the file. */
  predicate ProtectedOffer(a: Ask, f: Files, covers: (string, string) -> bool, path: string) {
    f.read(path).Some?
    && exists k :: 0 <= k < |a.protected| && path in f.expand(a.protected[k]) && !Withheld(a, covers, a.protected[k])
  }

  lemma StillProtectedOffers(a: Ask, f: Files, covers: (string, string) -> bool, path: string)
    ensures Offers(StillProtected(a, a.protected, covers), f, path) <==> ProtectedOffer(a, f, covers, path)
  {
    var still := StillProtected(a, a.protected, covers);
    if Offers(still, f, path) {
      var k :| 0 <= k < |still| && path in f.expand(still[k]);
      StillProtectedIs(a, a.protected, covers, still[k]);
      WithheldIs(a, covers, still[k]);
      assert still[k] in still;
      var j :| 0 <= j < |a.protected| && a.protected[j] == still[k];
      assert path in f.expand(a.protected[j]) && !Withheld(a, covers, a.protected[j]);
    }
    if ProtectedOffer(a, f, covers, path) {
      var k :| 0 <= k < |a.protected| && path in f.expand(a.protected[k]) && !Withheld(a, covers, a.protected[k]);
      StillProtectedIs(a, a.protected, covers, a.protected[k]);
      WithheldIs(a, covers, a.protected[k]);
      assert a.protected[k] in still;
      var j :| 0 <= j < |still| && still[j] == a.protected[k];
      assert path in f.expand(still[j]);
    }
  }

  /** WHICH FILES HAVE A ROW in a built pack, exactly: the readable ones that a required or an optional
      pattern names, or a protected pattern that is not withheld. A protected file is silently missing
      exactly when every protected pattern that names it is withheld and nothing else names it. */
  lemma RowsExactly(a: Ask, f: Files, covers: (string, string) -> bool, path: string)
    requires Built(a, f, covers).Packed? && path != a.anchorPath
    ensures Listed(Built(a, f, covers).pack.rows, path)
            <==> Offers(a.required, f, path) || Offers(a.optional, f, path) || ProtectedOffer(a, f, covers, path)
  {
    var taken := TakeAll(Gathered(f, a.required), Dropped(a));
    TakenLists(Gathered(f, a.required), Dropped(a), path);
    GatheredHolds(f, a.required, path);
    var patterns := StillProtected(a, a.protected, covers);
    OfferAllListsExactly(taken, patterns, f, a.available, Protected, path);
    StillProtectedOffers(a, f, covers, path);
    var guarded := OfferAll(taken, patterns, f, a.available, Protected);
    AnchorsList(guarded, Anchors(a), a.anchorPath, a.available, path);
    OfferAllListsExactly(AnchorAll(guarded, Anchors(a), a.anchorPath, a.available), a.optional, f, a.available,
                         Optional, path);
  }

  /** One required brief withholds the protected pattern for all of them, so the second brief gets no row. */
  lemma SecondBriefMissing(a: Ask, f: Files, covers: (string, string) -> bool, briefs: string, one: string, two: string)
    requires a.required == [one] && a.protected == [briefs] && a.optional == [] && a.anchors.None?
    requires one != two && two != a.anchorPath && covers(one, briefs)
    requires f.expand(one) == [one] && f.expand(briefs) == [one, two] && f.read(two).Some?
    requires Built(a, f, covers).Packed?
    ensures two in f.expand(a.protected[0]) && !Listed(Built(a, f, covers).pack.rows, two)
  {
    RowsExactly(a, f, covers, two);
    assert a.required[0] == one && covers(a.required[0], briefs);
    assert Withheld(a, covers, briefs);
  }

  // ---------------------------------------------------------------- files that two patterns name

  /** Each path's first file. */
  function Once(files: seq<File>): seq<File> {
    if files == [] then []
    else
      var front, last := files[..|files| - 1], files[|files| - 1];
      if Holds(front, last.path) then Once(front) else Once(front) + [last]
  }

  /** The files whose path came before. */
  function Again(files: seq<File>): seq<File> {
    if files == [] then []
    else
      var front, last := files[..|files| - 1], files[|files| - 1];
      if Holds(front, last.path) then Again(front) + [last] else Again(front)
  }

  lemma OneMoreFile(files: seq<File>, last: File)
    ensures Chars(files + [last]) == Chars(files) + |last.text|
  {
    assert (files + [last])[..|files|] == files;
  }

  lemma {:induction false} OnceAndAgain(files: seq<File>)
    ensures Chars(files) == Chars(Once(files)) + Chars(Again(files))
    ensures Chars(Again(files)) >= 0
  {
    if files != [] {
      var front, last := files[..|files| - 1], files[|files| - 1];
      OnceAndAgain(front);
      OneMoreFile(Once(front), last);
      OneMoreFile(Again(front), last);
    }
  }

  predicate RepeatsEmpty(files: seq<File>) {
    forall i, j :: 0 <= i < j < |files| && files[i].path == files[j].path ==> files[j].text == ""
  }

  lemma AgainStep(front: seq<File>, last: File)
    ensures Chars(Again(front + [last])) ==
            Chars(Again(front)) + if Holds(front, last.path) then |last.text| else 0
  {
    assert (front + [last])[..|front|] == front;
    OneMoreFile(Again(front), last);
  }

  lemma {:induction false} AgainEmpty(files: seq<File>)
    ensures Chars(Again(files)) == 0 <==> RepeatsEmpty(files)
  {
    if files != [] {
      var front, last := files[..|files| - 1], files[|files| - 1];
      assert files == front + [last];
      AgainEmpty(front);
      OnceAndAgain(front);
      AgainStep(front, last);
      RepeatsParts(front, last);
    }
  }

  lemma RepeatsParts(front: seq<File>, last: File)
    ensures RepeatsEmpty(front + [last]) <==> RepeatsEmpty(front) && (Holds(front, last.path) ==> last.text == "")
  {
    var files := front + [last];
    assert files[|front|] == last && forall i :: 0 <= i < |front| ==> files[i] == front[i];
    if RepeatsEmpty(files) && Holds(front, last.path) {
      var i :| 0 <= i < |front| && front[i].path == last.path;
      assert files[i].path == files[|front|].path;
    }
    if RepeatsEmpty(files) {
      forall i, j | 0 <= i < j < |front| && front[i].path == front[j].path
        ensures front[j].text == ""
      {
        assert files[i].path == files[j].path;
      }
    }
  }

  /** COUNTED TWICE, exactly: what the budget is charged is the size of the files exactly when every file
      that is named again is empty; and a pack whose files fit once overflows exactly when what is left
      does not hold the repeats. */
  lemma OverlapExactly(a: Ask, f: Files, covers: (string, string) -> bool)
    ensures var files := Gathered(f, a.required);
            && (Chars(files) == Chars(Once(files)) <==> RepeatsEmpty(files))
            && (Chars(Once(files)) <= a.available ==>
                  (Built(a, f, covers).Overflow? <==> Chars(Again(files)) > a.available - Chars(Once(files))))
  {
    var files := Gathered(f, a.required);
    OnceAndAgain(files);
    AgainEmpty(files);
  }

  lemma OneFile(f: Files, p: string, path: string, text: string)
    requires f.expand(p) == [path] && f.read(path) == Some(text)
    ensures Gathered(f, [p]) == [File(path, text)] && Chars([File(path, text)]) == |text|
  {
    assert [path][..0] == [];
    assert Readable(f, [path]) == [File(path, text)];
    assert [p][..0] == [];
    assert [File(path, text)][..0] == [];
  }

  // ---------------------------------------------------------------- in which order

  function Stage(s: Standing): nat {
    match s
    case Required => 0
    case Scoped => 0
    case Protected => 1
    case Anchor => 2
    case Optional => 3
  }

  /** Stages only go up along the manifest, and no row is past stage `top`. */
  predicate Staged(rows: seq<Row>, top: nat) {
    && (forall i, j :: 0 <= i < j < |rows| ==> Stage(rows[i].standing) <= Stage(rows[j].standing))
    && (forall i :: 0 <= i < |rows| ==> Stage(rows[i].standing) <= top)
  }

  lemma OneMoreStaged(rows: seq<Row>, row: Row, top: nat)
    requires Staged(rows, top) && Stage(row.standing) == top
    ensures Staged(rows + [row], top)
  {
  }

  lemma {:induction false} TakenStaged(files: seq<File>, dropped: Option<string>)
    ensures Staged(TakeAll(files, dropped).rows, 0)
  {
    if files != [] {
      var front, last := files[..|files| - 1], files[|files| - 1];
      TakenStaged(front, dropped);
      OneMoreStaged(TakeAll(front, dropped).rows, TakeOne(TakeAll(front, dropped), last, dropped).rows[|front|], 0)
        by { TakenCount(front, dropped); }
    }
  }

  lemma {:induction false} TakenCount(files: seq<File>, dropped: Option<string>)
    ensures |TakeAll(files, dropped).rows| == |files|
  {
    if files != [] {
      TakenCount(files[..|files| - 1], dropped);
    }
  }

  lemma {:induction false} OfferedStaged(p: Pack, paths: seq<string>, f: Files, available: int, standing: Standing)
    requires Staged(p.rows, Stage(standing))
    ensures Staged(OfferPaths(p, paths, f, available, standing).rows, Stage(standing))
  {
    if paths != [] {
      var path := paths[|paths| - 1];
      OfferedStaged(p, paths[..|paths| - 1], f, available, standing);
      var mid := OfferPaths(p, paths[..|paths| - 1], f, available, standing);
      if !Listed(mid.rows, path) && f.read(path).Some? {
        var text := f.read(path).value;
        OneMoreStaged(mid.rows, Row(path, |text|, standing, mid.total + |text| <= available), Stage(standing));
      }
    }
  }

  lemma {:induction false} OfferAllStaged(p: Pack, patterns: seq<string>, f: Files, available: int, standing: Standing)
    requires Staged(p.rows, Stage(standing))
    ensures Staged(OfferAll(p, patterns, f, available, standing).rows, Stage(standing))
  {
    if patterns != [] {
      OfferAllStaged(p, patterns[..|patterns| - 1], f, available, standing);
      OfferedStaged(OfferAll(p, patterns[..|patterns| - 1], f, available, standing),
                    f.expand(patterns[|patterns| - 1]), f, available, standing);
    }
  }

  lemma {:induction false} AnchorsStaged(p: Pack, anchors: seq<string>, path: string, available: int)
    requires Staged(p.rows, 2)
    ensures Staged(AnchorAll(p, anchors, path, available).rows, 2)
    decreases |anchors|
  {
    if anchors != [] && p.total + |anchors[0]| <= available {
      OneMoreStaged(p.rows, Row(path, |anchors[0]|, Anchor, true), 2);
      AnchorsStaged(Added(p, path, anchors[0], Anchor), anchors[1..], path, available);
    }
  }

  lemma StagedMore(rows: seq<Row>, low: nat, top: nat)
    requires Staged(rows, low) && low <= top
    ensures Staged(rows, top)
  {
  }

  /** Protected files and then anchors, over a pack of required files. */
  lemma GuardedStaged(taken: Pack, patterns: seq<string>, f: Files, anchors: seq<string>, path: string, available: int)
    requires Staged(taken.rows, 0)
    ensures Staged(AnchorAll(OfferAll(taken, patterns, f, available, Protected), anchors, path, available).rows, 2)
  {
    var guarded := OfferAll(taken, patterns, f, available, Protected);
    StagedMore(taken.rows, 0, 1);
    OfferAllStaged(taken, patterns, f, available, Protected);
    StagedMore(guarded.rows, 1, 2);
    AnchorsStaged(guarded, anchors, path, available);
  }

  lemma OptionalStaged(p: Pack, patterns: seq<string>, f: Files, available: int)
    requires Staged(p.rows, 2)
    ensures Staged(OfferAll(p, patterns, f, available, Optional).rows, 3)
  {
    StagedMore(p.rows, 2, 3);
    OfferAllStaged(p, patterns, f, available, Optional);
  }

  /** Budget is spent in order: required files, protected research, the slide's anchors, optional files. */
  lemma SpentInOrder(a: Ask, f: Files, covers: (string, string) -> bool)
    requires Built(a, f, covers).Packed?
    ensures Staged(Built(a, f, covers).pack.rows, 3)
  {
    var taken := TakeAll(Gathered(f, a.required), Dropped(a));
    var patterns := StillProtected(a, a.protected, covers);
    TakenStaged(Gathered(f, a.required), Dropped(a));
    GuardedStaged(taken, patterns, f, Anchors(a), a.anchorPath, a.available);
    var guarded := OfferAll(taken, patterns, f, a.available, Protected);
    OptionalStaged(AnchorAll(guarded, Anchors(a), a.anchorPath, a.available), a.optional, f, a.available);
  }

  /** Which protected patterns are still offered: those nothing required names, less the scoped map. */
  lemma {:induction false} StillProtectedIs(a: Ask, patterns: seq<string>, covers: (string, string) -> bool, p: string)
    ensures p in StillProtected(a, patterns, covers) <==>
              p in patterns && !(a.anchors.Some? && p == a.mapPath) && !Named(p, a.required, covers)
  {
    if patterns != [] {
      StillProtectedIs(a, patterns[..|patterns| - 1], covers, p);
      assert patterns == patterns[..|patterns| - 1] + [patterns[|patterns| - 1]];
    }
  }

  /** A file that two required patterns name is counted twice, so a pack whose files fit once can
      overflow. */
  lemma OverlapCountsTwice(f: Files, p: string, q: string, path: string, text: string, a: Ask,
                           covers: (string, string) -> bool)
    requires f.expand(p) == [path] && f.expand(q) == [path] && f.read(path) == Some(text) && text != ""
    requires a.required == [p, q] && a.available == |text|
    ensures Chars(Gathered(f, [p])) == a.available
    ensures Built(a, f, covers) == Overflow(2 * |text|, a.available)
  {
    OneFile(f, p, path, text);
    OneFile(f, q, path, text);
    var one := [File(path, text)];
    assert [p, q][..1] == [p];
    assert Gathered(f, [p, q]) == one + Readable(f, [path]);
    assert [q][..0] == [] && Gathered(f, [q]) == [] + Readable(f, [path]);
    CharsParts(one, one);
  }
}
