/** Discarding a finished phase: its artifacts are moved aside to fresh names, all of them or none. */
module Invalidate {
  import opened Text

  // ---------------------------------------------------------------- names

  function Decimal(n: nat): string {
    if n < 10 then [(n + '0' as int) as char] else Decimal(n / 10) + [(n % 10 + '0' as int) as char]
  }

  function ValueOf(s: string): int {
    if s == "" then 0 else 10 * ValueOf(s[..|s| - 1]) + (s[|s| - 1] as int - '0' as int)
  }

  lemma {:induction false} DecimalValue(n: nat)
    ensures ValueOf(Decimal(n)) == n
    ensures Decimal(n) != "" && forall i :: 0 <= i < |Decimal(n)| ==> '0' <= Decimal(n)[i] <= '9'
  {
    if n >= 10 {
      DecimalValue(n / 10);
      assert Decimal(n)[..|Decimal(n)| - 1] == Decimal(n / 10);
    } else {
      assert Decimal(n)[..0] == "";
    }
  }

  /** A time stamp with its colons and dashes removed: no dash is left, and not every character is a digit. */
  predicate StampText(stamp: string) {
    && (forall i :: 0 <= i < |stamp| ==> stamp[i] != '-')
    && (exists i :: 0 <= i < |stamp| && !('0' <= stamp[i] <= '9'))
  }

  function Dashed(x: string, y: string): string {
    x + "-" + y
  }

  /** The name an artifact is first tried under, and the n-th one tried. */
  function AsideName(a: string, stamp: string): string {
    Dashed(a + ".invalidated", stamp)
  }

  function Candidate(name: string, n: nat): string {
    if n <= 1 then name else Dashed(name, Decimal(n))
  }

  predicate NoDash(s: string) {
    forall i :: 0 <= i < |s| ==> s[i] != '-'
  }

  lemma LastDash(x: string, y: string, x': string, y': string)
    requires Dashed(x, y) == Dashed(x', y') && NoDash(y) && NoDash(y')
    ensures x == x' && y == y'
  {
    var s := Dashed(x, y);
    assert s[|x|] == '-' && s[|x'|] == '-';
    forall i | |x| < i < |s|
      ensures s[i] != '-'
    {
      assert s[i] == y[i - |x| - 1];
    }
    forall i | |x'| < i < |s|
      ensures s[i] != '-'
    {
      assert s[i] == y'[i - |x'| - 1];
    }
    assert x == s[..|x|] && y == s[|x| + 1..];
    assert x' == s[..|x'|] && y' == s[|x'| + 1..];
  }

  /** Different artifacts never get the same aside name, whichever candidates are free. */
  lemma AsideNamesDiffer(a: string, b: string, stamp: string, n: nat, m: nat)
    requires StampText(stamp)
    requires Candidate(AsideName(a, stamp), n) == Candidate(AsideName(b, stamp), m)
    ensures a == b
  {
    DecimalValue(n);
    DecimalValue(m);
    var an, bn := AsideName(a, stamp), AsideName(b, stamp);
    if n <= 1 && m <= 1 {
      LastDash(a + ".invalidated", stamp, b + ".invalidated", stamp);
    } else if n <= 1 {
      LastDash(a + ".invalidated", stamp, bn, Decimal(m));
      assert false;
    } else if m <= 1 {
      LastDash(an, Decimal(n), b + ".invalidated", stamp);
      assert false;
    } else {
      LastDash(an, Decimal(n), bn, Decimal(m));
      LastDash(a + ".invalidated", stamp, b + ".invalidated", stamp);
    }
    assert (a + ".invalidated")[..|a|] == a && (b + ".invalidated")[..|b|] == b;
  }

  // ---------------------------------------------------------------- files

  /** Plain files by name, with their contents. */
  type Files = map<string, string>

  /** os.replace of an existing plain file. */
  function Rename(files: Files, src: string, dst: string): Files
    requires src in files
  {
    (files - {src})[dst := files[src]]
  }

  type Moves = seq<(string, string)>

  function Sources(moves: Moves): seq<string> {
    seq(|moves|, i requires 0 <= i < |moves| => moves[i].0)
  }

  function SourceSet(moves: Moves): set<string> {
    set i | 0 <= i < |moves| :: moves[i].0
  }

  function TargetSet(moves: Moves): set<string> {
    set i | 0 <= i < |moves| :: moves[i].1
  }

  predicate Distinct(names: seq<string>) {
    forall i, j :: 0 <= i < j < |names| ==> names[i] != names[j]
  }

  /** The targets are fresh, and two moves share a target only when they share the source. */
  predicate Fresh(files: Files, moves: Moves) {
    && (forall i :: 0 <= i < |moves| ==> moves[i].0 in files && moves[i].1 !in files)
    && (forall i, j :: 0 <= i < j < |moves| && moves[i].1 == moves[j].1 ==> moves[i].0 == moves[j].0)
  }

  /** The files after the moves: every source gone, every target in its place. */
  function MoveAll(files: Files, moves: Moves): Files
    requires Fresh(files, moves)
  {
    map f | f in (files.Keys - SourceSet(moves)) + TargetSet(moves) ::
      if f in TargetSet(moves) then files[SourceOf(moves, f)] else files[f]
  }

  function SourceOf(moves: Moves, dst: string): string
    requires dst in TargetSet(moves)
    ensures exists i :: 0 <= i < |moves| && moves[i] == (SourceOf(moves, dst), dst)
    decreases |moves|
  {
    var last := |moves| - 1;
    if moves[last].1 == dst then moves[last].0
    else
      assert dst in TargetSet(moves[..last]) by {
        var i :| 0 <= i < |moves| && moves[i].1 == dst;
        assert moves[..last][i] == moves[i];
      }
      var r := SourceOf(moves[..last], dst);
      assert forall i :: 0 <= i < last ==> moves[..last][i] == moves[i];
      r
  }

  /** One more move adds its two names. */
  lemma NamesGrow(moves: Moves, n: nat)
    requires n < |moves|
    ensures SourceSet(moves[..n + 1]) == SourceSet(moves[..n]) + {moves[n].0}
    ensures TargetSet(moves[..n + 1]) == TargetSet(moves[..n]) + {moves[n].1}
  {
    var a, b := moves[..n], moves[..n + 1];
    assert forall i :: 0 <= i < n ==> a[i] == b[i];
    forall f
      ensures f in SourceSet(b) <==> f in SourceSet(a) || f == moves[n].0
      ensures f in TargetSet(b) <==> f in TargetSet(a) || f == moves[n].1
    {
      NameGrows(moves, n, f);
    }
  }

  lemma NameGrows(moves: Moves, n: nat, f: string)
    requires n < |moves|
    ensures f in SourceSet(moves[..n + 1]) <==> f in SourceSet(moves[..n]) || f == moves[n].0
    ensures f in TargetSet(moves[..n + 1]) <==> f in TargetSet(moves[..n]) || f == moves[n].1
  {
    var a, b := moves[..n], moves[..n + 1];
    assert b[n] == moves[n];
    assert forall i :: 0 <= i < n ==> a[i] == b[i];
    if f in SourceSet(b) && f != moves[n].0 {
      var i :| 0 <= i < |b| && b[i].0 == f;
      assert a[i].0 == f;
    }
    if f in SourceSet(a) {
      var i :| 0 <= i < |a| && a[i].0 == f;
      assert b[i].0 == f;
    }
    if f in TargetSet(b) && f != moves[n].1 {
      var i :| 0 <= i < |b| && b[i].1 == f;
      assert a[i].1 == f;
    }
    if f in TargetSet(a) {
      var i :| 0 <= i < |a| && a[i].1 == f;
      assert b[i].1 == f;
    }
  }

  /** One more move is one rename, as long as its source is still there. */
  lemma MoveOne(files: Files, moves: Moves, n: nat)
    requires n < |moves| && Fresh(files, moves)
    ensures Fresh(files, moves[..n]) && Fresh(files, moves[..n + 1])
    ensures moves[n].0 in MoveAll(files, moves[..n]) <==> moves[n].0 !in SourceSet(moves[..n])
    ensures moves[n].0 !in SourceSet(moves[..n]) ==>
              && moves[n].1 !in MoveAll(files, moves[..n])
              && Rename(MoveAll(files, moves[..n]), moves[n].0, moves[n].1) == MoveAll(files, moves[..n + 1])
              && Rename(MoveAll(files, moves[..n + 1]), moves[n].1, moves[n].0) == MoveAll(files, moves[..n])
  {
    var a, b := moves[..n], moves[..n + 1];
    var (src, dst) := moves[n];
    assert b[..n] == a && b[n] == moves[n];
    assert forall i :: 0 <= i < n ==> a[i] == moves[i] && b[i] == moves[i];
    NamesGrow(moves, n);
    if src !in SourceSet(a) {
      forall i | 0 <= i < n
        ensures a[i].1 != dst
      {
        assert a[i].0 in SourceSet(a);
      }
      MovedMaps(files, a, b, src, dst);
    }
  }

  lemma MovedMaps(files: Files, a: Moves, b: Moves, src: string, dst: string)
    requires Fresh(files, a) && Fresh(files, b) && |b| == |a| + 1 && b[|a|] == (src, dst) && b[..|a|] == a
    requires SourceSet(b) == SourceSet(a) + {src} && TargetSet(b) == TargetSet(a) + {dst}
    requires src !in SourceSet(a) && dst !in TargetSet(a) && src in files && dst !in files
    ensures src in MoveAll(files, a) && dst in MoveAll(files, b) && dst !in MoveAll(files, a)
    ensures Rename(MoveAll(files, a), src, dst) == MoveAll(files, b)
    ensures Rename(MoveAll(files, b), dst, src) == MoveAll(files, a)
  {
    assert src !in TargetSet(a);
    assert SourceOf(b, dst) == src;
    assert forall f :: f in TargetSet(a) ==> SourceOf(b, f) == SourceOf(a, f);
    assert MoveAll(files, b)[dst] == files[src] == MoveAll(files, a)[src];
    assert Rename(MoveAll(files, a), src, dst) == MoveAll(files, b);
    assert Rename(MoveAll(files, b), dst, src) == MoveAll(files, a);
  }

  function Copies(files: Files, content: string): nat {
    |set f | f in files && files[f] == content|
  }

  lemma MovedOne(files: Files, moves: Moves, i: nat)
    requires Fresh(files, moves) && Distinct(Sources(moves)) && i < |moves|
    ensures var after := MoveAll(files, moves);
            moves[i].0 !in after && moves[i].1 in after && after[moves[i].1] == files[moves[i].0]
  {
    assert moves[i].1 in TargetSet(moves) && moves[i].0 in SourceSet(moves);
    assert moves[i].0 !in TargetSet(moves);
    var j :| 0 <= j < |moves| && moves[j] == (SourceOf(moves, moves[i].1), moves[i].1);
    assert moves[i].0 == moves[j].0;
  }

  lemma LeftAlone(files: Files, moves: Moves, f: string)
    requires Fresh(files, moves) && f in files && f !in Sources(moves)
    ensures f in MoveAll(files, moves) && MoveAll(files, moves)[f] == files[f]
  {
    forall i | 0 <= i < |moves|
      ensures moves[i].0 != f && moves[i].1 != f
    {
      assert Sources(moves)[i] == moves[i].0;
    }
    assert f !in SourceSet(moves) && f !in TargetSet(moves);
  }

  /** NOTHING LOST. When the sources are distinct, after the moves every source name is free, its bytes
      sit under its own target, and every other file is untouched. */
  lemma MovedFacts(files: Files, moves: Moves)
    requires Fresh(files, moves) && Distinct(Sources(moves))
    ensures var after := MoveAll(files, moves);
            && (forall i :: 0 <= i < |moves| ==>
                  moves[i].0 !in after && moves[i].1 in after && after[moves[i].1] == files[moves[i].0])
            && (forall f :: f in files && f !in Sources(moves) ==> f in after && after[f] == files[f])
  {
    var after := MoveAll(files, moves);
    forall i | 0 <= i < |moves|
      ensures moves[i].0 !in after && moves[i].1 in after && after[moves[i].1] == files[moves[i].0]
    {
      MovedOne(files, moves, i);
    }
    forall f | f in files && f !in Sources(moves)
      ensures f in after && after[f] == files[f]
    {
      LeftAlone(files, moves, f);
    }
  }

  /** The multiset of contents is the same: each content is under as many names as before. */
  lemma {:induction false} ContentsKept(files: Files, moves: Moves, content: string)
    requires Fresh(files, moves) && Distinct(Sources(moves))
    ensures Copies(MoveAll(files, moves), content) == Copies(files, content)
    decreases |moves|
  {
    if moves == [] {
      assert MoveAll(files, moves) == files;
    } else {
      var n := |moves| - 1;
      var short := moves[..n];
      MoveOne(files, moves, n);
      assert moves[..n + 1] == moves;
      DistinctLast(moves, n);
      DistinctLess(moves, n);
      ContentsKept(files, short, content);
      RenameCopies(MoveAll(files, short), moves[n].0, moves[n].1, content);
    }
  }

  lemma DistinctLess(moves: Moves, n: nat)
    requires n <= |moves| && Distinct(Sources(moves))
    ensures Distinct(Sources(moves[..n]))
  {
    var s, t := Sources(moves[..n]), Sources(moves);
    forall i, j | 0 <= i < j < n
      ensures s[i] != s[j]
    {
      assert s[i] == t[i] && s[j] == t[j];
    }
  }

  lemma RenameCopies(files: Files, src: string, dst: string, content: string)
    requires src in files && dst !in files
    ensures Copies(Rename(files, src, dst), content) == Copies(files, content)
  {
    var after := Rename(files, src, dst);
    var held := set f | f in files && files[f] == content;
    var now := set f | f in after && after[f] == content;
    forall f
      ensures f in now <==> if f == dst then files[src] == content else f in held && f != src
    {
    }
    if files[src] == content {
      SwapOne(held, now, src, dst);
    } else {
      assert now == held;
    }
  }

  lemma SwapOne(held: set<string>, now: set<string>, src: string, dst: string)
    requires src in held && dst !in held
    requires forall f :: f in now <==> f == dst || (f in held && f != src)
    ensures |now| == |held|
  {
    assert now == held - {src} + {dst};
  }

  // ---------------------------------------------------------------- the command

  datatype Record = Record(phase: string, moved: Moves, priorShas: map<string, Option<string>>, reason: string)

  datatype PhaseRow = PhaseRow(
    id: string, status: string, artifacts: seq<string>, shas: map<string, string>, invalidations: seq<Record>)

  datatype Refusal = NoReason | NoPhase | NotDone | NoArtifacts | Outside | MissingArtifact

  datatype Result = Refused(why: Refusal) | DryRun(moves: Moves) | RolledBack(at: nat) | Invalidated(moves: Moves)

  function Named(names: seq<string>): seq<string> {
    if names == [] then []
    else if names[0] == "" then Named(names[1..])
    else [names[0]] + Named(names[1..])
  }

  function FindPhase(phases: seq<PhaseRow>, pid: string): nat {
    if phases == [] || phases[0].id == pid then 0 else 1 + FindPhase(phases[1..], pid)
  }

  lemma {:induction false} FindPhaseFits(phases: seq<PhaseRow>, pid: string)
    ensures FindPhase(phases, pid) <= |phases|
    ensures FindPhase(phases, pid) < |phases| ==> phases[FindPhase(phases, pid)].id == pid
  {
    if phases != [] {
      FindPhaseFits(phases[1..], pid);
    }
  }

  /** The checks made before anything is touched; None when all pass. `inside` tells whether a path stays
      in the run directory. */
  function Check(phases: seq<PhaseRow>, files: Files, pid: string, reason: string, inside: string -> bool)
    : (r: Option<Refusal>)
    ensures r.None? ==>
              var i := FindPhase(phases, pid);
              && i < |phases|
              && forall k :: 0 <= k < |Named(phases[i].artifacts)| ==> Named(phases[i].artifacts)[k] in files
  {
    FindPhaseFits(phases, pid);
    var i := FindPhase(phases, pid);
    if Strip(reason) == "" then Some(NoReason)
    else if i == |phases| then Some(NoPhase)
    else if phases[i].status != "done" then Some(NotDone)
    else
      var artifacts := Named(phases[i].artifacts);
      if artifacts == [] then Some(NoArtifacts)
      else if exists k :: 0 <= k < |artifacts| && !inside(artifacts[k]) then Some(Outside)
      else if exists k :: 0 <= k < |artifacts| && artifacts[k] !in files then Some(MissingArtifact)
      else None
  }

  /** The row and the audit record a completed invalidation leaves. */
  function Reopened(row: PhaseRow, rec: Record): PhaseRow {
    row.(status := "pending", artifacts := [], shas := map[], invalidations := row.invalidations + [rec])
  }

  function PriorShas(row: PhaseRow): map<string, Option<string>> {
    map a | a in Named(row.artifacts) :: if a in row.shas then Some(row.shas[a]) else None
  }

  /** The audit record names every recorded file with its hash, or with none. */
  lemma PriorShasExactly(row: PhaseRow, a: string)
    ensures a in PriorShas(row) <==> a in row.artifacts && a != ""
    ensures a in PriorShas(row) ==> PriorShas(row)[a] == if a in row.shas then Some(row.shas[a]) else None
  {
    NamedIs(row.artifacts, a);
  }

  lemma {:induction false} NamedIs(names: seq<string>, a: string)
    ensures a in Named(names) <==> a in names && a != ""
  {
    if names != [] {
      NamedIs(names[1..], a);
      assert names == [names[0]] + names[1..];
    }
  }

  /** Row i is the first with this id. */
  ghost predicate FirstRow(phases: seq<PhaseRow>, pid: string, i: nat) {
    i < |phases| && phases[i].id == pid && forall j :: 0 <= j < i ==> phases[j].id != pid
  }

  lemma {:induction false} FoundIsFirst(phases: seq<PhaseRow>, pid: string, i: nat)
    requires FirstRow(phases, pid, i)
    ensures FindPhase(phases, pid) == i
  {
    if i > 0 {
      assert phases[0].id != pid;
      forall j | 0 <= j < i - 1
        ensures phases[1..][j].id != pid
      {
        assert phases[1..][j] == phases[j + 1];
      }
      FoundIsFirst(phases[1..], pid, i - 1);
    }
  }

  lemma {:induction false} NotFound(phases: seq<PhaseRow>, pid: string)
    requires forall i :: 0 <= i < |phases| ==> phases[i].id != pid
    ensures FindPhase(phases, pid) == |phases|
  {
    if phases != [] {
      NotFound(phases[1..], pid);
    }
  }

  /** A file the phase records. */
  predicate Recorded(row: PhaseRow, a: string) {
    a in row.artifacts && a != ""
  }

  /** WHICH REFUSAL, exactly, in the order of the checks: no reason, no such phase, a phase that is not done, one
      that records no file, a path outside the run, a file that is gone. */
  lemma RefusedExactly(phases: seq<PhaseRow>, files: Files, pid: string, reason: string, inside: string -> bool, i: nat)
    requires FirstRow(phases, pid, i)
    ensures var r := Check(phases, files, pid, reason, inside);
            if Blank(reason) then r == Some(NoReason)
            else if phases[i].status != "done" then r == Some(NotDone)
            else if forall a :: !Recorded(phases[i], a) then r == Some(NoArtifacts)
            else if exists a :: Recorded(phases[i], a) && !inside(a) then r == Some(Outside)
            else if exists a :: Recorded(phases[i], a) && a !in files then r == Some(MissingArtifact)
            else r.None?
  {
    StripEmpty(reason);
    FoundIsFirst(phases, pid, i);
    var row, names := phases[i], Named(phases[i].artifacts);
    forall a
      ensures a in names <==> Recorded(row, a)
    {
      NamedIs(row.artifacts, a);
    }
    if names != [] {
      assert names[0] in names;
    }
    forall k | 0 <= k < |names|
      ensures Recorded(row, names[k])
    {
      assert names[k] in names;
    }
    forall a | Recorded(row, a)
      ensures exists k :: 0 <= k < |names| && names[k] == a
    {
      assert a in names;
    }
  }

  lemma RefusedWithoutPhase(phases: seq<PhaseRow>, files: Files, pid: string, reason: string, inside: string -> bool)
    requires forall i :: 0 <= i < |phases| ==> phases[i].id != pid
    ensures Check(phases, files, pid, reason, inside) == Some(if Blank(reason) then NoReason else NoPhase)
  {
    StripEmpty(reason);
    NotFound(phases, pid);
  }

  /** A phase that lists one artifact twice passes every check, and its moves can never all go through. */
  lemma RepeatedArtifact(pid: string, a: string, content: string, reason: string, refusals: set<nat>, dst: string)
    requires a != "" && Strip(reason) != ""
    ensures var phases := [PhaseRow(pid, "done", [a, a], map[], [])];
            && Check(phases, map[a := content], pid, reason, (path: string) => true).None?
            && Named(phases[0].artifacts) == [a, a]
            && !Unhindered([(a, dst), (a, dst)], refusals)
  {
    var artifacts := [a, a];
    assert artifacts[1..] == [a] && artifacts[1..][1..] == [];
    assert Named(artifacts[1..]) == [a];
    var moves := [(a, dst), (a, dst)];
    assert Sources(moves)[0] == Sources(moves)[1];
  }

  /** Every rename will go through: none is refused and no artifact is listed twice. */
  predicate Unhindered(moves: Moves, refusals: set<nat>) {
    Distinct(Sources(moves)) && forall r :: r in refusals ==> r >= |moves|
  }

  lemma SourcesUpTo(moves: Moves, k: nat)
    requires k < |moves|
    ensures Sources(moves)[..k] == Sources(moves[..k])
    ensures moves[k].0 in SourceSet(moves[..k]) <==> Sources(moves)[k] in Sources(moves)[..k]
  {
    var before := Sources(moves)[..k];
    assert before == Sources(moves[..k]);
    if moves[k].0 in SourceSet(moves[..k]) {
      var i :| 0 <= i < k && moves[..k][i].0 == moves[k].0;
      assert before[i] == moves[k].0;
    }
    if Sources(moves)[k] in before {
      var i :| 0 <= i < k && before[i] == Sources(moves)[k];
      assert moves[..k][i].0 == moves[k].0;
    }
  }

  lemma StopMeans(moves: Moves, k: nat, refusals: set<nat>)
    requires k < |moves| && (k in refusals || moves[k].0 in SourceSet(moves[..k]))
    ensures !Unhindered(moves, refusals)
  {
    if k !in refusals && Distinct(Sources(moves)) {
      DistinctLast(moves, k);
    }
  }

  /** Putting the last of the first k + 1 moves back leaves the first k. */
  lemma BackOne(files: Files, moves: Moves, n: nat, k: nat)
    requires k < n <= |moves| && Fresh(files, moves) && Distinct(Sources(moves[..n]))
    ensures Fresh(files, moves[..k]) && Fresh(files, moves[..k + 1])
    ensures moves[k].1 in MoveAll(files, moves[..k + 1])
    ensures Rename(MoveAll(files, moves[..k + 1]), moves[k].1, moves[k].0) == MoveAll(files, moves[..k])
  {
    MoveOne(files, moves, k);
    DistinctLast(moves[..n], k);
    assert moves[..n][..k] == moves[..k];
    assert moves[..k + 1][k] == moves[k];
    assert moves[k].1 in TargetSet(moves[..k + 1]);
  }

  class RunDir {
    var files: Files
    var phases: seq<PhaseRow>
    var audit: seq<Record>

    constructor (files: Files, phases: seq<PhaseRow>)
      ensures this.files == files && this.phases == phases && audit == []
    {
      this.files, this.phases, this.audit := files, phases, [];
    }

    /** os.replace; fails when the system refuses it or the source is gone. */
    method Replace(src: string, dst: string, refused: bool) returns (ok: bool)
      modifies this`files
      ensures ok <==> !refused && src in old(files)
      ensures files == if ok then Rename(old(files), src, dst) else old(files)
    {
      ok := !refused && src in files;
      if ok {
        files := (files - {src})[dst := files[src]];
      }
    }

    /** The first candidate no file has. */
    method FreeName(name: string) returns (dst: string, ghost n: nat)
      ensures dst == Candidate(name, n) && dst !in files
      ensures forall k :: 1 <= k < n ==> Candidate(name, k) in files
    {
      if name !in files {
        return name, 1;
      }
      var m := 2;
      ghost var left := files.Keys;
      while Dashed(name, Decimal(m)) in files
        invariant m >= 2 && left <= files.Keys
        invariant forall k :: 1 <= k < m ==> Candidate(name, k) in files
        invariant forall k :: k >= m ==> Dashed(name, Decimal(k)) in files ==> Dashed(name, Decimal(k)) in left
        decreases |left|
      {
        ghost var taken := Dashed(name, Decimal(m));
        forall k | k > m
          ensures Dashed(name, Decimal(k)) != taken
        {
          DecimalValue(k);
          DecimalValue(m);
          if Dashed(name, Decimal(k)) == taken {
            LastDash(name, Decimal(k), name, Decimal(m));
          }
        }
        assert taken in left;
        assert |left - {taken}| < |left|;
        left := left - {taken};
        m := m + 1;
      }
      return Dashed(name, Decimal(m)), m;
    }

    /** Puts the first n moves back, newest first. */
    method RollBack(moves: Moves, n: nat, ghost before: Files)
      requires n <= |moves| && Fresh(before, moves) && Distinct(Sources(moves[..n]))
      requires Fresh(before, moves[..n]) && files == MoveAll(before, moves[..n])
      modifies this`files
      ensures files == before
    {
      var j := n;
      while j > 0
        invariant 0 <= j <= n && Fresh(before, moves[..j]) && files == MoveAll(before, moves[..j])
      {
        BackOne(before, moves, n, j - 1);
        var ok := Replace(moves[j - 1].1, moves[j - 1].0, false);
        j := j - 1;
      }
      assert moves[..0] == [];
    }

    /** One rename of the forward pass. */
    method MoveNext(moves: Moves, k: nat, refused: bool, ghost before: Files) returns (ok: bool)
      requires Fresh(before, moves) && k < |moves|
      requires Fresh(before, moves[..k]) && Distinct(Sources(moves[..k])) && files == MoveAll(before, moves[..k])
      modifies this`files
      ensures ok ==> Fresh(before, moves[..k + 1]) && Distinct(Sources(moves[..k + 1]))
      ensures ok ==> !refused && files == MoveAll(before, moves[..k + 1])
      ensures !ok ==> files == old(files) && (refused || moves[k].0 in SourceSet(moves[..k]))
    {
      MoveOne(before, moves, k);
      ok := Replace(moves[k].0, moves[k].1, refused);
      if ok {
        DistinctMore(moves, k);
      }
    }

    /** Moves until a rename fails: because it is refused, or because its source has already moved. */
    method MoveForward(moves: Moves, refusals: set<nat>) returns (k: nat)
      requires Fresh(files, moves)
      modifies this`files
      ensures k <= |moves| && Fresh(old(files), moves[..k]) && Distinct(Sources(moves[..k]))
      ensures files == MoveAll(old(files), moves[..k])
      ensures k == |moves| <==> Unhindered(moves, refusals)
      ensures k < |moves| ==> k in refusals || moves[k].0 in SourceSet(moves[..k])
      ensures forall j :: 0 <= j < k ==> j !in refusals
    {
      ghost var before := files;
      k := 0;
      assert MoveAll(before, moves[..0]) == before;
      var ok := true;
      while k < |moves| && ok
        invariant 0 <= k <= |moves| && Fresh(before, moves[..k]) && Distinct(Sources(moves[..k]))
        invariant files == MoveAll(before, moves[..k])
        invariant forall r :: r in refusals ==> r >= k
        invariant !ok ==> k < |moves| && !Unhindered(moves, refusals)
        invariant !ok ==> k in refusals || moves[k].0 in SourceSet(moves[..k])
        decreases |moves| - k, ok
      {
        ok := MoveNext(moves, k, k in refusals, before);
        if ok {
          k := k + 1;
        } else {
          StopMeans(moves, k, refusals);
        }
      }
      if ok {
        assert moves[..|moves|] == moves;
      }
    }

    /** The command. `refusals` are the positions of the renames the system refuses; the rollback's own
        renames go through. All or nothing: either every artifact has moved and the phase is open again,
        or files and state are what they were. It succeeds exactly when the checks pass, no rename is
        refused and no artifact is listed twice; otherwise it says how many moves it has put back. */
    method InvalidatePhase(givenId: string, givenReason: string, confirm: bool, stamp: string,
                           inside: string -> bool, refusals: set<nat>) returns (result: Result)
      requires StampText(stamp)
      modifies this
      ensures var problem := Check(old(phases), old(files), Strip(givenId), Strip(givenReason), inside);
              && (problem.Some? ==> result == Refused(problem.value))
              && (problem.None? ==> if confirm then result.Invalidated? || result.RolledBack? else result.DryRun?)
      ensures !result.Invalidated? ==> files == old(files) && phases == old(phases) && audit == old(audit)
      ensures result.DryRun? || result.Invalidated? ==>
                var i := FindPhase(old(phases), Strip(givenId));
                && i < |old(phases)|
                && Sources(result.moves) == Named(old(phases)[i].artifacts) && Fresh(old(files), result.moves)
      ensures result.Invalidated? ==>
                var i := FindPhase(old(phases), Strip(givenId));
                && Distinct(Sources(result.moves)) && files == MoveAll(old(files), result.moves)
                && |phases| == |old(phases)|
                && (forall j :: 0 <= j < |phases| && j != i ==> phases[j] == old(phases)[j])
                && var row, before := phases[i], old(phases)[i];
                   var rec := Record(Strip(givenId), result.moves, PriorShas(before), Strip(givenReason));
                   && row.id == before.id && row.status == "pending" && row.artifacts == [] && row.shas == map[]
                   && row.invalidations == before.invalidations + [rec]
                   && audit == old(audit) + [rec]
      ensures result.RolledBack? ==>
                var artifacts := Named(old(phases)[FindPhase(old(phases), Strip(givenId))].artifacts);
                && result.at < |artifacts|
                && (result.at in refusals || artifacts[result.at] in artifacts[..result.at])
                && (forall k :: 0 <= k < result.at ==> k !in refusals) && Distinct(artifacts[..result.at])
      ensures Check(old(phases), old(files), Strip(givenId), Strip(givenReason), inside).None? && confirm ==>
                var artifacts := Named(old(phases)[FindPhase(old(phases), Strip(givenId))].artifacts);
                result.Invalidated? <==> Distinct(artifacts) && forall k :: k in refusals ==> k >= |artifacts|
    {
      var pid, reason := Strip(givenId), Strip(givenReason);
      FindPhaseFits(phases, pid);
      var problem := Check(phases, files, pid, reason, inside);
      if problem.Some? {
        return Refused(problem.value);
      }
      var i := FindPhase(phases, pid);
      var row := phases[i];
      var artifacts := Named(row.artifacts);
      var moves := PlanMoves(artifacts, stamp);
      assert Sources(moves) == artifacts;
      if !confirm {
        return DryRun(moves);
      }
      var k := MoveForward(moves, refusals);
      if k < |moves| {
        RollBack(moves, k, old(files));
        SourcesUpTo(moves, k);
        return RolledBack(k);
      }
      assert moves[..|moves|] == moves;
      var rec := Record(pid, moves, PriorShas(row), reason);
      phases := phases[i := Reopened(row, rec)];
      audit := audit + [rec];
      result := Invalidated(moves);
    }

    /** One fresh target per artifact. */
    method PlanMoves(artifacts: seq<string>, stamp: string) returns (moves: Moves)
      requires StampText(stamp) && forall k :: 0 <= k < |artifacts| ==> artifacts[k] in files
      ensures |moves| == |artifacts| && forall k :: 0 <= k < |moves| ==> moves[k].0 == artifacts[k]
      ensures Fresh(files, moves)
    {
      moves := [];
      ghost var tries: seq<nat> := [];
      var k := 0;
      while k < |artifacts|
        invariant 0 <= k <= |artifacts| && |moves| == |tries| == k
        invariant forall j :: 0 <= j < k ==> moves[j].0 == artifacts[j] && moves[j].1 !in files
        invariant forall j :: 0 <= j < k ==> moves[j].1 == Candidate(AsideName(artifacts[j], stamp), tries[j])
      {
        ghost var n: nat;
        var dst;
        dst, n := FreeName(AsideName(artifacts[k], stamp));
        moves, tries := moves + [(artifacts[k], dst)], tries + [n];
        k := k + 1;
      }
      forall i, j | 0 <= i < j < |moves| && moves[i].1 == moves[j].1
        ensures moves[i].0 == moves[j].0
      {
        AsideNamesDiffer(artifacts[i], artifacts[j], stamp, tries[i], tries[j]);
      }
    }
  }

  lemma DistinctLast(moves: Moves, j: nat)
    requires Distinct(Sources(moves)) && j < |moves|
    ensures moves[j].0 !in SourceSet(moves[..j])
  {
    forall i | 0 <= i < j
      ensures moves[..j][i].0 != moves[j].0
    {
      assert Sources(moves)[i] != Sources(moves)[j];
    }
  }

  lemma DistinctMore(moves: Moves, k: nat)
    requires k < |moves| && Distinct(Sources(moves[..k])) && moves[k].0 !in SourceSet(moves[..k])
    ensures Distinct(Sources(moves[..k + 1]))
  {
    var s := Sources(moves[..k + 1]);
    forall i, j | 0 <= i < j < |s|
      ensures s[i] != s[j]
    {
      assert s[i] == moves[i].0 && s[j] == moves[j].0;
      assert moves[..k][i].0 in SourceSet(moves[..k]);
      if j < k {
        assert Sources(moves[..k])[i] == s[i] && Sources(moves[..k])[j] == s[j];
      }
    }
  }
}
