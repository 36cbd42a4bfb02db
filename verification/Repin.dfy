/** Re-pinning a parked job to the current manifest: phase rows, the pin, and the hash-linked history,
    over one call and over any sequence of calls. */
module Repin {

  datatype Row = Row(id: string, status: string, added: bool)

  datatype Link = Link(oldSha: string, newSha: string, removed: seq<string>, added: seq<string>)

  /** The part of the state a re-pin touches. */
  datatype State = State(phases: seq<Row>, sha: string, version: int, history: seq<Link>)

  /** A manifest as loaded: its hash, its version and its phase ids in order. */
  datatype Manifest = Manifest(sha: string, version: int, ids: seq<string>)

  // ---------------------------------------------------------------- sorted sets of ids

  predicate Less(a: string, b: string) {
    if b == "" then false
    else if a == "" then true
    else a[0] < b[0] || (a[0] == b[0] && Less(a[1..], b[1..]))
  }

  lemma {:induction false} LessTotal(a: string, b: string)
    ensures Less(a, b) || a == b || Less(b, a)
    ensures !(Less(a, b) && Less(b, a)) && !Less(a, a)
  {
    if a != "" && b != "" {
      LessTotal(a[1..], b[1..]);
      LessTotal(a[1..], a[1..]);
      if a[0] == b[0] && a[1..] == b[1..] {
        assert a == [a[0]] + a[1..] && b == [b[0]] + b[1..];
      }
    }
    if a != "" {
      LessTotal(a[1..], a[1..]);
    }
  }

  lemma {:induction false} LessTrans(a: string, b: string, c: string)
    requires Less(a, b) && Less(b, c)
    ensures Less(a, c)
  {
    if a != "" && a[0] == b[0] && b[0] == c[0] {
      LessTrans(a[1..], b[1..], c[1..]);
    }
  }

  predicate Sorted(s: seq<string>) {
    forall i, j :: 0 <= i < j < |s| ==> Less(s[i], s[j])
  }

  /** Inserts an id in order; an id already there is not repeated. */
  function Insert(s: seq<string>, x: string): seq<string> {
    if s == [] then [x]
    else if Less(x, s[0]) then [x] + s
    else if x == s[0] then s
    else [s[0]] + Insert(s[1..], x)
  }

  lemma {:induction false} InsertSorted(s: seq<string>, x: string)
    requires Sorted(s)
    ensures Sorted(Insert(s, x))
    ensures forall y :: y in Insert(s, x) <==> y in s || y == x
  {
    if s != [] {
      LessTotal(x, s[0]);
      if Less(x, s[0]) {
        forall j | 0 < j < |s|
          ensures Less(x, s[j])
        {
          LessTrans(x, s[0], s[j]);
        }
      } else if x != s[0] {
        InsertSorted(s[1..], x);
        var t := Insert(s[1..], x);
        forall j | 0 <= j < |t|
          ensures Less(s[0], t[j])
        {
          assert t[j] in t;
          if t[j] != x {
            assert t[j] in s[1..];
          }
        }
      }
    }
  }

  /** `sorted(a - b)` for id collections. */
  function SortedMinus(a: seq<string>, b: seq<string>): seq<string> {
    if a == [] then []
    else
      var rest := SortedMinus(a[1..], b);
      if a[0] in b then rest else Insert(rest, a[0])
  }

  lemma {:induction false} SortedMinusIs(a: seq<string>, b: seq<string>)
    ensures Sorted(SortedMinus(a, b))
    ensures forall y :: y in SortedMinus(a, b) <==> y in a && y !in b
  {
    if a != [] {
      SortedMinusIs(a[1..], b);
      InsertSorted(SortedMinus(a[1..], b), a[0]);
      assert forall y :: y in a <==> y == a[0] || y in a[1..];
    }
  }

  // ---------------------------------------------------------------- one re-pin

  /** The ids of the rows that have one. */
  function RowIds(phases: seq<Row>): seq<string> {
    if phases == [] then []
    else
      var rest := RowIds(phases[..|phases| - 1]);
      if phases[|phases| - 1].id == "" then rest else rest + [phases[|phases| - 1].id]
  }

  function Retired(phases: seq<Row>, removed: seq<string>): seq<Row> {
    seq(|phases|, i requires 0 <= i < |phases| =>
      if phases[i].id in removed then phases[i].(status := "obsolete") else phases[i])
  }

  function NewRows(ids: seq<string>): seq<Row> {
    seq(|ids|, i requires 0 <= i < |ids| => Row(ids[i], "pending", true))
  }

  function Repinned(s: State, m: Manifest): State {
    if s.sha != "" && s.sha == m.sha then s
    else
      var removed := SortedMinus(RowIds(s.phases), m.ids);
      var added := SortedMinus(m.ids, RowIds(s.phases));
      State(Retired(s.phases, removed) + NewRows(added), m.sha, m.version,
            s.history + [Link(s.sha, m.sha, removed, added)])
  }

  class Job {
    var phases: seq<Row>
    var sha: string
    var version: int
    var history: seq<Link>

    constructor (s: State)
      ensures Now() == s
    {
      phases, sha, version, history := s.phases, s.sha, s.version, s.history;
    }

    function Now(): State
      reads this
    {
      State(phases, sha, version, history)
    }

    /** Marks the removed rows obsolete, one by one; the count is of those that were not yet. */
    method RetireRows(removed: seq<string>) returns (changed: nat)
      modifies this`phases
      ensures phases == Retired(old(phases), removed)
    {
      ghost var before := phases;
      changed := 0;
      var i := 0;
      while i < |phases|
        invariant 0 <= i <= |phases| && |phases| == |before|
        invariant phases[..i] == Retired(before, removed)[..i] && phases[i..] == before[i..]
      {
        assert phases[i] == phases[i..][0] == before[i];
        if phases[i].id in removed && phases[i].status != "obsolete" {
          phases := phases[i := phases[i].(status := "obsolete")];
          changed := changed + 1;
        }
        assert phases[i] == Retired(before, removed)[i];
        i := i + 1;
      }
    }

    /** The command, row by row. */
    method RepinTo(m: Manifest) returns (changed: nat)
      modifies this
      ensures Now() == Repinned(old(Now()), m)
      ensures sha == m.sha
    {
      changed := 0;
      if sha != "" && sha == m.sha {
        return;
      }
      var removed := SortedMinus(RowIds(phases), m.ids);
      var added := SortedMinus(m.ids, RowIds(phases));
      ghost var before := phases;
      changed := RetireRows(removed);
      var k := 0;
      while k < |added|
        invariant 0 <= k <= |added|
        invariant phases == Retired(before, removed) + NewRows(added)[..k]
        invariant Now() == old(Now()).(phases := phases)
      {
        phases := phases + [Row(added[k], "pending", true)];
        changed := changed + 1;
        k := k + 1;
      }
      history := history + [Link(sha, m.sha, removed, added)];
      sha, version := m.sha, m.version;
    }
  }

  // ---------------------------------------------------------------- what every sequence keeps

  predicate UniqueIds(phases: seq<Row>) {
    forall i, j :: 0 <= i < j < |phases| && phases[i].id != "" ==> phases[i].id != phases[j].id
  }

  /** Each link's new hash is the next link's old hash, and the last one is the live pin. */
  predicate Linked(history: seq<Link>, pin: string) {
    && (forall i :: 0 <= i < |history| - 1 ==> history[i].newSha == history[i + 1].oldSha)
    && (history != [] ==> history[|history| - 1].newSha == pin)
  }

  /** Every manifest id has a row, and every other row that has an id is obsolete. */
  predicate Covers(phases: seq<Row>, ids: seq<string>) {
    && (forall k :: 0 <= k < |ids| ==> ids[k] == "" || HasRow(phases, ids[k]))
    && (forall i :: 0 <= i < |phases| ==>
          phases[i].id == "" || phases[i].id in ids || phases[i].status == "obsolete")
  }

  predicate HasRow(phases: seq<Row>, id: string) {
    exists i :: 0 <= i < |phases| && phases[i].id == id
  }

  lemma {:induction false} RowIdsAre(phases: seq<Row>)
    ensures forall id :: id in RowIds(phases) <==> id != "" && HasRow(phases, id)
  {
    if phases != [] {
      var n := |phases| - 1;
      RowIdsAre(phases[..n]);
      forall id | id in RowIds(phases)
        ensures id != "" && HasRow(phases, id)
      {
        if id in RowIds(phases[..n]) {
          var i :| 0 <= i < n && phases[..n][i].id == id;
          assert phases[i].id == id;
        } else {
          assert phases[n].id == id;
        }
      }
      forall id | id != "" && HasRow(phases, id)
        ensures id in RowIds(phases)
      {
        var i :| 0 <= i < |phases| && phases[i].id == id;
        if i < n {
          assert phases[..n][i].id == id;
          assert HasRow(phases[..n], id);
        }
      }
    }
  }

  lemma KeepsRows(s: State, m: Manifest)
    requires !(s.sha != "" && s.sha == m.sha)
    ensures forall id :: HasRow(s.phases, id) ==> HasRow(Repinned(s, m).phases, id)
  {
    var t := Repinned(s, m);
    forall id | HasRow(s.phases, id)
      ensures HasRow(t.phases, id)
    {
      var i :| 0 <= i < |s.phases| && s.phases[i].id == id;
      assert t.phases[i].id == id;
    }
  }

  lemma GainsRows(s: State, m: Manifest, k: nat)
    requires !(s.sha != "" && s.sha == m.sha) && k < |m.ids| && m.ids[k] != ""
    ensures HasRow(Repinned(s, m).phases, m.ids[k])
  {
    KeepsRows(s, m);
    RowIdsAre(s.phases);
    SortedMinusIs(m.ids, RowIds(s.phases));
    var added := SortedMinus(m.ids, RowIds(s.phases));
    if !HasRow(s.phases, m.ids[k]) {
      assert m.ids[k] in added;
      var a :| 0 <= a < |added| && added[a] == m.ids[k];
      assert Repinned(s, m).phases[|s.phases| + a].id == m.ids[k];
    }
  }

  lemma RowsSettled(s: State, m: Manifest, i: nat)
    requires !(s.sha != "" && s.sha == m.sha) && i < |Repinned(s, m).phases|
    ensures var row := Repinned(s, m).phases[i]; row.id == "" || row.id in m.ids || row.status == "obsolete"
  {
    var n := |s.phases|;
    SortedMinusIs(RowIds(s.phases), m.ids);
    SortedMinusIs(m.ids, RowIds(s.phases));
    RowIdsAre(s.phases);
    var added := SortedMinus(m.ids, RowIds(s.phases));
    if i < n {
      assert s.phases[i].id != "" ==> HasRow(s.phases, s.phases[i].id);
    } else {
      assert Repinned(s, m).phases[i].id == added[i - n] && added[i - n] in added;
    }
  }

  lemma HistoryGrows(s: State, m: Manifest)
    requires Linked(s.history, s.sha) && !(s.sha != "" && s.sha == m.sha)
    ensures var t := Repinned(s, m);
            Linked(t.history, t.sha) && |t.history| == |s.history| + 1 && s.history <= t.history
  {
  }

  /** One real re-pin establishes the whole picture. */
  lemma RepinCovers(s: State, m: Manifest)
    requires UniqueIds(s.phases) && Linked(s.history, s.sha)
    requires !(s.sha != "" && s.sha == m.sha)
    ensures var t := Repinned(s, m);
            && UniqueIds(t.phases) && Linked(t.history, t.sha) && Covers(t.phases, m.ids)
            && (forall id :: HasRow(s.phases, id) ==> HasRow(t.phases, id))
            && |t.history| == |s.history| + 1 && s.history <= t.history
  {
    AddedAreNew(s, m, SortedMinus(m.ids, RowIds(s.phases)));
    KeepsRows(s, m);
    HistoryGrows(s, m);
    var rows := Repinned(s, m).phases;
    forall k | 0 <= k < |m.ids|
      ensures m.ids[k] == "" || HasRow(rows, m.ids[k])
    {
      if m.ids[k] != "" { GainsRows(s, m, k); }
    }
    forall i | 0 <= i < |rows|
      ensures rows[i].id == "" || rows[i].id in m.ids || rows[i].status == "obsolete"
    {
      RowsSettled(s, m, i);
    }
  }

  lemma AddedAreNew(s: State, m: Manifest, added: seq<string>)
    requires UniqueIds(s.phases) && added == SortedMinus(m.ids, RowIds(s.phases))
    requires !(s.sha != "" && s.sha == m.sha)
    ensures UniqueIds(Repinned(s, m).phases)
  {
    var t := Repinned(s, m);
    var n := |s.phases|;
    SortedMinusIs(m.ids, RowIds(s.phases));
    RowIdsAre(s.phases);
    forall i, j | 0 <= i < j < |t.phases| && t.phases[i].id != ""
      ensures t.phases[i].id != t.phases[j].id
    {
      if i < n && j < n {
        assert s.phases[i].id != s.phases[j].id;
      } else if i < n {
        assert HasRow(s.phases, s.phases[i].id);
        assert added[j - n] in added;
      } else {
        LessTotal(added[i - n], added[j - n]);
      }
    }
  }

  function RunRepins(s: State, ms: seq<Manifest>): State
    decreases |ms|
  {
    if ms == [] then s else RunRepins(Repinned(s, ms[0]), ms[1..])
  }

  /** Equal hashes mean equal phase lists. */
  ghost predicate HashesTell(ms: seq<Manifest>, contents: string -> seq<string>) {
    forall i :: 0 <= i < |ms| ==> ms[i].ids == contents(ms[i].sha)
  }

  ghost predicate Settled(s: State, contents: string -> seq<string>) {
    && UniqueIds(s.phases) && Linked(s.history, s.sha)
    && (s.history != [] ==> Covers(s.phases, contents(s.sha)))
  }

  /** OVER ANY SEQUENCE OF RE-PINS the history links end to end up to the live pin, ids stay unique and
      none disappears, and once anything was re-pinned the rows cover the pinned manifest. */
  lemma {:induction false} RepinsSettle(s: State, ms: seq<Manifest>, contents: string -> seq<string>)
    requires Settled(s, contents) && HashesTell(ms, contents)
    ensures var t := RunRepins(s, ms);
            && Settled(t, contents)
            && (forall id :: HasRow(s.phases, id) ==> HasRow(t.phases, id))
            && s.history <= t.history
            && (ms != [] ==> t.sha == ms[|ms| - 1].sha)
    decreases |ms|
  {
    if ms != [] {
      var m := ms[0];
      var next := Repinned(s, m);
      if !(s.sha != "" && s.sha == m.sha) {
        RepinCovers(s, m);
      }
      forall i | 0 <= i < |ms[1..]|
        ensures ms[1..][i].ids == contents(ms[1..][i].sha)
      {
        assert ms[1..][i] == ms[i + 1];
      }
      RepinsSettle(next, ms[1..], contents);
    }
  }

  /** Re-pinning to the manifest that is already pinned changes nothing, so a second re-pin never does. */
  lemma RepinTwice(s: State, m: Manifest)
    requires m.sha != ""
    ensures Repinned(Repinned(s, m), m) == Repinned(s, m)
  {
  }

  /** What a real re-pin does to a row that was there: it is obsolete afterwards exactly when it was, or its
      id left the manifest; and a row whose id is in the manifest stays as it is. */
  lemma RowStatusExactly(s: State, m: Manifest, i: nat)
    requires i < |s.phases| && !(s.sha != "" && s.sha == m.sha)
    ensures var after := Repinned(s, m).phases[i];
            && (after.status == "obsolete" <==>
                  s.phases[i].status == "obsolete" || (s.phases[i].id != "" && s.phases[i].id !in m.ids))
            && (s.phases[i].id == "" || s.phases[i].id in m.ids ==> after == s.phases[i])
  {
    SortedMinusIs(RowIds(s.phases), m.ids);
    RowIdsAre(s.phases);
    assert s.phases[i].id != "" ==> HasRow(s.phases, s.phases[i].id);
    assert Repinned(s, m).phases[i] == Retired(s.phases, SortedMinus(RowIds(s.phases), m.ids))[i];
  }

  /** The rows a real re-pin adds come last, are pending and marked as added, one for each manifest id that had none. */
  lemma AddedRowsExactly(s: State, m: Manifest, i: nat)
    requires |s.phases| <= i < |Repinned(s, m).phases| && !(s.sha != "" && s.sha == m.sha)
    ensures var row := Repinned(s, m).phases[i];
            row.status == "pending" && row.added && row.id in m.ids && (row.id == "" || !HasRow(s.phases, row.id))
  {
    var added := SortedMinus(m.ids, RowIds(s.phases));
    SortedMinusIs(m.ids, RowIds(s.phases));
    RowIdsAre(s.phases);
    assert Repinned(s, m).phases[i] == NewRows(added)[i - |s.phases|];
    assert added[i - |s.phases|] in added;
  }

  /** An obsolete row does not revive when its id returns: no new row is added and the status stays. */
  lemma ReturnedIdStaysObsolete(s: State, m: Manifest, i: nat)
    requires i < |s.phases| && s.phases[i].id in m.ids && s.phases[i].status == "obsolete"
    requires UniqueIds(s.phases)
    ensures Repinned(s, m).phases[i] == s.phases[i]
    ensures s.phases[i].id != "" ==>
              forall j :: 0 <= j < |Repinned(s, m).phases| && j != i ==> Repinned(s, m).phases[j].id != s.phases[i].id
  {
    if !(s.sha != "" && s.sha == m.sha) {
      AddedAreNew(s, m, SortedMinus(m.ids, RowIds(s.phases)));
      SortedMinusIs(RowIds(s.phases), m.ids);
      var t := Repinned(s, m);
      assert t.phases[i] == s.phases[i];
    }
  }
}
