/** The store's lock and its durable write as an interleaving of steps of any number of processes and
    threads, with kills and power cuts at every point. Main result: every run is a sequential run. */
module CapacityStore {
  import opened Text
  import opened Dicts
  import opened CapacityRecord

  datatype Tid = Tid(proc: nat, thread: nat)

  /** A file's bytes: being written, or a whole record that has or has not reached the disk. */
  datatype Image = Partial | Complete(record: Dict<Json>, synced: bool)

  /** Where a thread is. Between operations it is Idle, inside the lock exactly when its depth is positive. */
  datatype Pc =
    | Idle
    | Entered
    | NeedFlock
    | HasRead(c: Declaration, seen: Dict<Json>)
    | Writing(c: Declaration, seen: Dict<Json>, payload: Dict<Json>, tmp: Image)
    | NeedDirSync
    | NeedUnflock
    | NeedUnmutex

  datatype Thread = Thread(pc: Pc, depth: nat)

  /** One directory entry of the store file, and how many calls had been decided when it was renamed. */
  datatype Rename = Rename(image: Image, at: nat)

  datatype Event = Event(c: Declaration, outcome: Outcome)

  /** What a call makes of the record it read. */
  type Decider = (Dict<Json>, Declaration) -> Outcome

  /** The writer of one box. */
  function Writer(env: Env): Decider {
    (record: Dict<Json>, c: Declaration) => Declare(record, c, env)
  }

  /** `renames` holds the entry known to be on disk and every later one; the last is what readers see. */
  datatype Sys = Sys(
    threads: map<Tid, Thread>, mutex: map<nat, (Tid, nat)>, flock: Option<Tid>,
    renames: seq<Rename>, log: seq<Event>)

  datatype Step =
    | EnterMutex(t: Tid) | BumpDepth(t: Tid) | TakeFlock(t: Tid) | NoLockFile(t: Tid)
    | Read(t: Tid, c: Declaration) | Decide(t: Tid) | WriteTmp(t: Tid) | SyncTmp(t: Tid)
    | Fail(t: Tid) | Replace(t: Tid) | SyncDir(t: Tid) | SkipDirSync(t: Tid)
    | Leave(t: Tid) | Unflock(t: Tid) | Unmutex(t: Tid)
    | Kill(proc: nat) | PowerCut(k: nat)

  function At(s: Sys, t: Tid): Thread {
    if t in s.threads then s.threads[t] else Thread(Idle, 0)
  }

  function Owner(s: Sys, proc: nat): Option<(Tid, nat)> {
    if proc in s.mutex then Some(s.mutex[proc]) else None
  }

  function Go(s: Sys, t: Tid, th: Thread): Sys {
    s.(threads := s.threads[t := th])
  }

  function Start(init: Dict<Json>): Sys {
    Sys(map[], map[], None, [Rename(Complete(init, true), 0)], [])
  }

  function Last<T>(s: seq<T>): T
    requires s != []
  {
    s[|s| - 1]
  }

  /** The record readers see. */
  function Visible(s: Sys): Image {
    if s.renames == [] then Partial else Last(s.renames).image
  }

  /** One step; None when the step is not possible in this state. */
  function Next(s: Sys, step: Step, decide: Decider): Option<Sys> {
    match step
    case EnterMutex(t) =>
      var owner := Owner(s, t.proc);
      if At(s, t).pc != Idle then None
      else if owner.None? then Some(Go(s, t, At(s, t).(pc := Entered)).(mutex := s.mutex[t.proc := (t, 1)]))
      else if owner.value.0 == t
      then Some(Go(s, t, At(s, t).(pc := Entered)).(mutex := s.mutex[t.proc := (t, owner.value.1 + 1)]))
      else None
    case BumpDepth(t) =>
      var th := At(s, t);
      if th.pc != Entered then None
      else Some(Go(s, t, Thread(if th.depth == 0 then NeedFlock else Idle, th.depth + 1)))
    case TakeFlock(t) =>
      if At(s, t).pc != NeedFlock || s.flock.Some? then None
      else Some(Go(s, t, At(s, t).(pc := Idle)).(flock := Some(t)))
    case NoLockFile(t) =>
      if At(s, t).pc != NeedFlock then None else Some(Go(s, t, At(s, t).(pc := Idle)))
    case Read(t, c) =>
      var th := At(s, t);
      if th.pc != Idle || th.depth == 0 || !Visible(s).Complete? then None
      else Some(Go(s, t, th.(pc := HasRead(c, Visible(s).record))))
    case Decide(t) =>
      var th := At(s, t);
      if !th.pc.HasRead? then None
      else
        var outcome := decide(th.pc.seen, th.pc.c);
        if outcome.Written?
        then Some(Go(s, t, th.(pc := Writing(th.pc.c, th.pc.seen, outcome.payload, Partial))))
        else Some(Go(s, t, th.(pc := Idle)).(log := s.log + [Event(th.pc.c, outcome)]))
    case WriteTmp(t) =>
      var th := At(s, t);
      if !th.pc.Writing? || th.pc.tmp != Partial then None
      else Some(Go(s, t, th.(pc := th.pc.(tmp := Complete(th.pc.payload, false)))))
    case SyncTmp(t) =>
      var th := At(s, t);
      if !th.pc.Writing? || !th.pc.tmp.Complete? then None
      else Some(Go(s, t, th.(pc := th.pc.(tmp := th.pc.tmp.(synced := true)))))
    case Fail(t) =>
      if At(s, t).pc.HasRead? || At(s, t).pc.Writing? then Some(Go(s, t, At(s, t).(pc := Idle))) else None
    case Replace(t) =>
      var th := At(s, t);
      if !th.pc.Writing? || !th.pc.tmp.Complete? || !th.pc.tmp.synced then None
      else Some(Go(s, t, th.(pc := NeedDirSync)).(
                  renames := s.renames + [Rename(th.pc.tmp, |s.log| + 1)],
                  log := s.log + [Event(th.pc.c, Written(th.pc.payload))]))
    case SyncDir(t) =>
      if At(s, t).pc != NeedDirSync || s.renames == [] then None
      else Some(Go(s, t, At(s, t).(pc := Idle)).(renames := [Last(s.renames)]))
    case SkipDirSync(t) =>
      if At(s, t).pc != NeedDirSync then None else Some(Go(s, t, At(s, t).(pc := Idle)))
    case Leave(t) =>
      var th := At(s, t);
      if th.pc != Idle || th.depth == 0 then None
      else Some(Go(s, t, Thread(if th.depth == 1 && s.flock == Some(t) then NeedUnflock else NeedUnmutex,
                                th.depth - 1)))
    case Unflock(t) =>
      if At(s, t).pc != NeedUnflock then None
      else Some(Go(s, t, At(s, t).(pc := NeedUnmutex)).(flock := None))
    case Unmutex(t) =>
      var owner := Owner(s, t.proc);
      if At(s, t).pc != NeedUnmutex || owner.None? || owner.value.0 != t then None
      else Some(Go(s, t, At(s, t).(pc := Idle)).(
                  mutex := if owner.value.1 <= 1 then s.mutex - {t.proc}
                           else s.mutex[t.proc := (t, owner.value.1 - 1)]))
    case Kill(p) =>
      Some(s.(threads := map t | t in s.threads && t.proc != p :: s.threads[t],
              mutex := s.mutex - {p},
              flock := if s.flock.Some? && s.flock.value.proc == p then None else s.flock))
    case PowerCut(k) =>
      if k >= |s.renames| then None
      else Some(Sys(map[], map[], None, [s.renames[k]], s.log[..Min(s.renames[k].at, |s.log|)]))
  }

  function Min(a: nat, b: nat): nat { if a <= b then a else b }

  function Run(s: Sys, steps: seq<Step>, decide: Decider): Option<Sys>
    decreases |steps|
  {
    if steps == [] then Some(s)
    else match Next(s, steps[0], decide)
         case None => None
         case Some(s') => Run(s', steps[1..], decide)
  }

  // ---------------------------------------------------------------- the sequential meaning

  /** The record after the calls of the log, one at a time. */
  function Replay(init: Dict<Json>, log: seq<Event>, decide: Decider): Dict<Json> {
    if log == [] then init
    else
      var before := Replay(init, log[..|log| - 1], decide);
      match decide(before, Last(log).c)
      case Written(payload) => payload
      case _ => before
  }

  /** Every logged outcome is the one the call has when the calls run one at a time. */
  predicate Agrees(init: Dict<Json>, log: seq<Event>, decide: Decider) {
    log == [] ||
    (Agrees(init, log[..|log| - 1], decide)
     && Last(log).outcome == decide(Replay(init, log[..|log| - 1], decide), Last(log).c))
  }

  // ---------------------------------------------------------------- the invariant

  /** Either every lock file opens, or all threads belong to one process. */
  datatype Mode = Openable | OneProcess(proc: nat)

  predicate Allowed(step: Step, mode: Mode) {
    match mode
    case Openable => !step.NoLockFile?
    case OneProcess(p) => !step.EnterMutex? || step.t.proc == p
  }

  predicate Extra(pc: Pc) {
    pc.Entered? || pc.NeedUnflock? || pc.NeedUnmutex?
  }

  /** The thread is inside: it may read and write the store. */
  predicate Inside(th: Thread) {
    th.depth > 0 && th.pc != NeedFlock
  }

  /** What one thread's position says about the mutex of its process and about the flock. */
  predicate LocksOk(s: Sys, t: Tid, mode: Mode) {
    var th := At(s, t);
    var owner := Owner(s, t.proc);
    && (if owner.Some? && owner.value.0 == t
        then owner.value.1 == th.depth + (if Extra(th.pc) then 1 else 0) && owner.value.1 > 0
        else th == Thread(Idle, 0))
    && (th.pc.HasRead? || th.pc.Writing? || th.pc.NeedDirSync? ==> th.depth > 0)
    && (th.pc.NeedFlock? ==> th.depth == 1)
    && (th.pc.NeedUnflock? ==> th.depth == 0)
    && (s.flock == Some(t) ==> Inside(th) || th.pc.NeedUnflock?)
    && (th.pc.NeedUnflock? ==> s.flock == Some(t))
    && (match mode
        case Openable => Inside(th) ==> s.flock == Some(t)
        case OneProcess(p) => th != Thread(Idle, 0) ==> t.proc == p)
  }

  /** What a thread in mid-transaction holds is what the file still says. */
  predicate WorkOk(s: Sys, t: Tid, decide: Decider) {
    match At(s, t).pc
    case HasRead(c, seen) => Visible(s).Complete? && seen == Visible(s).record
    case Writing(c, seen, payload, tmp) =>
      && Visible(s).Complete? && seen == Visible(s).record
      && decide(seen, c) == Written(payload)
      && (tmp.Complete? ==> tmp.record == payload)
    case NeedDirSync => s.renames != [] && Last(s.renames).at == |s.log|
    case _ => true
  }

  /** Every directory entry is a whole synced image of a prefix of the sequential run. */
  predicate DiskOk(init: Dict<Json>, s: Sys, decide: Decider) {
    && s.renames != []
    && (forall i :: 0 <= i < |s.renames| ==> EntryOk(init, s, s.renames[i], decide))
    && Visible(s).record == Replay(init, s.log, decide)
    && Agrees(init, s.log, decide)
  }

  predicate EntryOk(init: Dict<Json>, s: Sys, r: Rename, decide: Decider) {
    && r.image.Complete? && r.image.synced
    && r.at <= |s.log|
    && r.image.record == Replay(init, s.log[..r.at], decide)
  }

  ghost predicate Inv(init: Dict<Json>, s: Sys, mode: Mode, decide: Decider) {
    && (forall t :: LocksOk(s, t, mode))
    && (forall t :: WorkOk(s, t, decide))
    && DiskOk(init, s, decide)
  }

  /** MUTUAL EXCLUSION: never two threads inside. */
  lemma OneInside(s: Sys, mode: Mode, t: Tid, u: Tid)
    requires LocksOk(s, t, mode) && LocksOk(s, u, mode)
    requires Inside(At(s, t)) && Inside(At(s, u))
    ensures t == u
  {
  }

  lemma AgreesPrefix(init: Dict<Json>, log: seq<Event>, n: nat, decide: Decider)
    requires n <= |log| && Agrees(init, log, decide)
    ensures Agrees(init, log[..n], decide)
    decreases |log|
  {
    if n < |log| {
      AgreesPrefix(init, log[..|log| - 1], n, decide);
      assert log[..|log| - 1][..n] == log[..n];
    } else {
      assert log[..n] == log;
    }
  }

  lemma Appended(init: Dict<Json>, log: seq<Event>, e: Event, decide: Decider)
    requires Agrees(init, log, decide)
    requires e.outcome == decide(Replay(init, log, decide), e.c)
    ensures Agrees(init, log + [e], decide)
    ensures Replay(init, log + [e], decide) ==
            if e.outcome.Written? then e.outcome.payload else Replay(init, log, decide)
    ensures forall n :: 0 <= n <= |log| ==> (log + [e])[..n] == log[..n]
  {
    assert (log + [e])[..|log + [e]| - 1] == log;
  }

  /** Steps that touch neither the disk nor the log. */
  predicate LockStep(step: Step) {
    step.EnterMutex? || step.BumpDepth? || step.TakeFlock? || step.NoLockFile? || step.Leave?
    || step.Unflock? || step.Unmutex? || step.Kill?
  }

  /** A step of t that leaves mutex and flock alone only has to look at t. */
  lemma LocalLocks(s: Sys, s': Sys, t: Tid, u: Tid, mode: Mode)
    requires s'.mutex == s.mutex && s'.flock == s.flock && s'.threads == s.threads[t := At(s', t)]
    requires LocksOk(s, u, mode) && u != t
    ensures LocksOk(s', u, mode)
  {
    assert At(s', u) == At(s, u);
  }

  lemma MutexLocks(s: Sys, step: Step, s': Sys, mode: Mode, decide: Decider, u: Tid)
    requires Allowed(step, mode) && Next(s, step, decide) == Some(s')
    requires step.EnterMutex? || step.Unmutex?
    requires LocksOk(s, u, mode) && LocksOk(s, step.t, mode)
    ensures LocksOk(s', u, mode)
  {
    var t := step.t;
    if u != t {
      assert At(s', u) == At(s, u);
    }
  }

  lemma FlockLocks(s: Sys, step: Step, s': Sys, mode: Mode, decide: Decider, u: Tid)
    requires Allowed(step, mode) && Next(s, step, decide) == Some(s')
    requires step.TakeFlock? || step.Unflock?
    requires LocksOk(s, u, mode) && LocksOk(s, step.t, mode)
    ensures LocksOk(s', u, mode)
  {
    if u != step.t {
      assert At(s', u) == At(s, u);
    }
  }

  lemma OwnLocks(s: Sys, step: Step, s': Sys, mode: Mode, decide: Decider)
    requires Allowed(step, mode) && Next(s, step, decide) == Some(s')
    requires step.BumpDepth? || step.NoLockFile? || step.Leave?
    requires LocksOk(s, step.t, mode)
    ensures LocksOk(s', step.t, mode)
  {
  }

  lemma WorkLocks(s: Sys, step: Step, s': Sys, mode: Mode, decide: Decider)
    requires Allowed(step, mode) && Next(s, step, decide) == Some(s')
    requires !LockStep(step) && !step.PowerCut?
    requires LocksOk(s, step.t, mode)
    ensures LocksOk(s', step.t, mode)
    ensures s'.mutex == s.mutex && s'.flock == s.flock && s'.threads == s.threads[step.t := At(s', step.t)]
  {
  }

  lemma KillLocks(s: Sys, step: Step, s': Sys, mode: Mode, decide: Decider, u: Tid)
    requires Next(s, step, decide) == Some(s') && (step.Kill? || step.PowerCut?)
    requires LocksOk(s, u, mode)
    ensures LocksOk(s', u, mode)
  {
  }

  lemma LocksKept(init: Dict<Json>, s: Sys, step: Step, s': Sys, mode: Mode, decide: Decider)
    requires Inv(init, s, mode, decide) && Allowed(step, mode) && Next(s, step, decide) == Some(s')
    ensures forall t :: LocksOk(s', t, mode)
  {
    forall u
      ensures LocksOk(s', u, mode)
    {
      assert LocksOk(s, u, mode);
      if step.Kill? || step.PowerCut? {
        KillLocks(s, step, s', mode, decide, u);
      } else {
        assert LocksOk(s, step.t, mode);
        if step.EnterMutex? || step.Unmutex? {
          MutexLocks(s, step, s', mode, decide, u);
        } else if step.TakeFlock? || step.Unflock? {
          FlockLocks(s, step, s', mode, decide, u);
        } else if LockStep(step) {
          OwnLocks(s, step, s', mode, decide);
          if u != step.t { LocalLocks(s, s', step.t, u, mode); }
        } else {
          WorkLocks(s, step, s', mode, decide);
          if u != step.t { LocalLocks(s, s', step.t, u, mode); }
        }
      }
    }
  }

  /** A step that leaves the file and the log alone. */
  lemma SameDisk(init: Dict<Json>, s: Sys, s': Sys, decide: Decider)
    requires DiskOk(init, s, decide) && s'.renames == s.renames && s'.log == s.log
    ensures DiskOk(init, s', decide)
  {
    forall i | 0 <= i < |s'.renames|
      ensures EntryOk(init, s', s'.renames[i], decide)
    {
      assert EntryOk(init, s, s.renames[i], decide);
    }
  }

  lemma LockWork(s: Sys, step: Step, s': Sys, decide: Decider, u: Tid)
    requires LockStep(step) && Next(s, step, decide) == Some(s') && WorkOk(s, u, decide)
    ensures s'.renames == s.renames && s'.log == s.log && WorkOk(s', u, decide)
  {
  }

  lemma LockStepKeeps(init: Dict<Json>, s: Sys, step: Step, s': Sys, mode: Mode, decide: Decider)
    requires Inv(init, s, mode, decide) && LockStep(step) && Next(s, step, decide) == Some(s')
    ensures DiskOk(init, s', decide) && forall t :: WorkOk(s', t, decide)
  {
    forall u
      ensures s'.renames == s.renames && s'.log == s.log && WorkOk(s', u, decide)
    {
      LockWork(s, step, s', decide, u);
    }
    SameDisk(init, s, s', decide);
  }

  predicate QuietStep(step: Step) {
    step.Read? || step.WriteTmp? || step.SyncTmp? || step.Fail? || step.SkipDirSync?
  }

  lemma QuietWork(s: Sys, step: Step, s': Sys, decide: Decider, u: Tid)
    requires Next(s, step, decide) == Some(s') && (QuietStep(step) || (step.Decide? && s'.log == s.log))
    requires WorkOk(s, u, decide) && WorkOk(s, step.t, decide)
    ensures s'.renames == s.renames && s'.log == s.log && WorkOk(s', u, decide)
  {
  }

  /** Reading, writing aside, syncing and failing leave the file alone. */
  lemma QuietKeeps(init: Dict<Json>, s: Sys, step: Step, s': Sys, mode: Mode, decide: Decider)
    requires Inv(init, s, mode, decide) && Next(s, step, decide) == Some(s')
    requires QuietStep(step) || (step.Decide? && s'.log == s.log)
    ensures DiskOk(init, s', decide) && forall t :: WorkOk(s', t, decide)
  {
    forall u
      ensures s'.renames == s.renames && s'.log == s.log && WorkOk(s', u, decide)
    {
      QuietWork(s, step, s', decide, u);
    }
    SameDisk(init, s, s', decide);
  }

  /** A refusal is logged with the outcome it has in the sequential run. */
  lemma RefusalKeeps(init: Dict<Json>, s: Sys, step: Step, s': Sys, mode: Mode, decide: Decider)
    requires Inv(init, s, mode, decide) && Next(s, step, decide) == Some(s')
    requires step.Decide? && s'.log != s.log
    ensures DiskOk(init, s', decide) && forall t :: WorkOk(s', t, decide)
  {
    var e := Last(s'.log);
    var t := step.t;
    assert WorkOk(s, t, decide) && LocksOk(s, t, mode);
    Appended(init, s.log, e, decide);
    forall i | 0 <= i < |s'.renames|
      ensures EntryOk(init, s', s'.renames[i], decide)
    {
      assert EntryOk(init, s, s.renames[i], decide);
    }
    forall u
      ensures WorkOk(s', u, decide)
    {
      assert WorkOk(s, u, decide) && LocksOk(s, u, mode);
      if u != t && Inside(At(s, u)) {
        OneInside(s, mode, t, u);
      }
    }
  }

  lemma ReplaceDisk(init: Dict<Json>, s: Sys, t: Tid, s': Sys, decide: Decider)
    requires DiskOk(init, s, decide) && WorkOk(s, t, decide) && Next(s, Replace(t), decide) == Some(s')
    ensures DiskOk(init, s', decide)
  {
    var e := Last(s'.log);
    Appended(init, s.log, e, decide);
    assert s'.log[..|s'.log|] == s'.log;
    forall i | 0 <= i < |s'.renames|
      ensures EntryOk(init, s', s'.renames[i], decide)
    {
      if i < |s.renames| {
        assert EntryOk(init, s, s.renames[i], decide);
      }
    }
  }

  lemma ReplaceWork(s: Sys, t: Tid, s': Sys, u: Tid, mode: Mode, decide: Decider)
    requires LocksOk(s, t, mode) && LocksOk(s, u, mode) && Next(s, Replace(t), decide) == Some(s')
    ensures WorkOk(s', u, decide)
  {
    if u != t {
      if Inside(At(s, u)) {
        OneInside(s, mode, t, u);
      }
      assert At(s', u) == At(s, u);
    }
  }

  /** The rename publishes exactly the next sequential record, because no one else was inside. */
  lemma ReplaceKeeps(init: Dict<Json>, s: Sys, step: Step, s': Sys, mode: Mode, decide: Decider)
    requires Inv(init, s, mode, decide) && Next(s, step, decide) == Some(s')
    requires step.Replace?
    ensures DiskOk(init, s', decide) && forall t :: WorkOk(s', t, decide)
  {
    assert WorkOk(s, step.t, decide) && LocksOk(s, step.t, mode);
    ReplaceDisk(init, s, step.t, s', decide);
    forall u
      ensures WorkOk(s', u, decide)
    {
      assert LocksOk(s, u, mode);
      ReplaceWork(s, step.t, s', u, mode, decide);
    }
  }

  lemma DiskStepKeeps(init: Dict<Json>, s: Sys, step: Step, s': Sys, mode: Mode, decide: Decider)
    requires Inv(init, s, mode, decide) && Next(s, step, decide) == Some(s')
    requires step.SyncDir? || step.PowerCut?
    ensures DiskOk(init, s', decide) && forall t :: WorkOk(s', t, decide)
  {
    var k := if step.SyncDir? then |s.renames| - 1 else step.k;
    var r := s.renames[k];
    assert EntryOk(init, s, r, decide);
    assert s'.renames == [r];
    if step.PowerCut? {
      AgreesPrefix(init, s.log, r.at, decide);
      assert s'.log[..r.at] == s.log[..r.at] == s'.log;
    }
    assert EntryOk(init, s', r, decide);
    forall u
      ensures WorkOk(s', u, decide)
    {
      assert WorkOk(s, u, decide);
    }
  }

  lemma StepKeeps(init: Dict<Json>, s: Sys, step: Step, s': Sys, mode: Mode, decide: Decider)
    requires Inv(init, s, mode, decide) && Allowed(step, mode) && Next(s, step, decide) == Some(s')
    ensures Inv(init, s', mode, decide)
  {
    LocksKept(init, s, step, s', mode, decide);
    if LockStep(step) {
      LockStepKeeps(init, s, step, s', mode, decide);
    } else if step.Replace? {
      ReplaceKeeps(init, s, step, s', mode, decide);
    } else if step.SyncDir? || step.PowerCut? {
      DiskStepKeeps(init, s, step, s', mode, decide);
    } else if step.Decide? && s'.log != s.log {
      RefusalKeeps(init, s, step, s', mode, decide);
    } else {
      QuietKeeps(init, s, step, s', mode, decide);
    }
  }

  lemma {:induction false} RunKeeps(init: Dict<Json>, s: Sys, steps: seq<Step>, mode: Mode, decide: Decider)
    requires Inv(init, s, mode, decide)
    requires forall i :: 0 <= i < |steps| ==> Allowed(steps[i], mode)
    ensures Run(s, steps, decide).Some? ==> Inv(init, Run(s, steps, decide).value, mode, decide)
    decreases |steps|
  {
    if steps != [] && Next(s, steps[0], decide).Some? {
      var s' := Next(s, steps[0], decide).value;
      assert Allowed(steps[0], mode);
      StepKeeps(init, s, steps[0], s', mode, decide);
      forall i | 0 <= i < |steps[1..]|
        ensures Allowed(steps[1..][i], mode)
      {
        assert steps[1..][i] == steps[i + 1];
      }
      RunKeeps(init, s', steps[1..], mode, decide);
    }
  }

  lemma StartInv(init: Dict<Json>, mode: Mode, decide: Decider)
    ensures Inv(init, Start(init), mode, decide)
  {
    var s := Start(init);
    assert EntryOk(init, s, s.renames[0], decide);
  }

  /** SERIALISABILITY, whatever one call makes of a record. In every run in which every lock file opens
      (or one process writes), with kills and power cuts anywhere: the file is a whole image, namely the
      record the logged calls give one at a time; every logged outcome is the sequential one; and the
      flock is held exactly by the thread that is inside, or is about to unlock. */
  lemma Serialisable(init: Dict<Json>, steps: seq<Step>, mode: Mode, decide: Decider)
    requires forall i :: 0 <= i < |steps| ==> Allowed(steps[i], mode)
    ensures var end := Run(Start(init), steps, decide);
            end.Some? ==>
              && Visible(end.value) == Complete(Replay(init, end.value.log, decide), true)
              && Agrees(init, end.value.log, decide)
              && (mode.Openable? ==> forall t :: end.value.flock == Some(t) <==>
                    Inside(At(end.value, t)) || At(end.value, t).pc.NeedUnflock?)
              && (forall t, u :: Inside(At(end.value, t)) && Inside(At(end.value, u)) ==> t == u)
  {
    var s := Start(init);
    StartInv(init, mode, decide);
    RunKeeps(init, s, steps, mode, decide);
    var end := Run(s, steps, decide);
    if end.Some? {
      assert EntryOk(init, end.value, Last(end.value.renames), decide);
      forall t, u | Inside(At(end.value, t)) && Inside(At(end.value, u))
        ensures t == u
      {
        assert LocksOk(end.value, t, mode) && LocksOk(end.value, u, mode);
        OneInside(end.value, mode, t, u);
      }
      forall t
        ensures mode.Openable? ==>
                  (end.value.flock == Some(t) <==>
                   Inside(At(end.value, t)) || At(end.value, t).pc.NeedUnflock?)
      {
        assert LocksOk(end.value, t, mode);
      }
    }
  }

  /** The run ends in the record its logged calls give one at a time, with the outcomes they reported. */
  ghost predicate Sequential(init: Dict<Json>, steps: seq<Step>, decide: Decider) {
    var end := Run(Start(init), steps, decide);
    end.Some? ==>
      Visible(end.value) == Complete(Replay(init, end.value.log, decide), true) && Agrees(init, end.value.log, decide)
  }

  lemma AllowedSequential(init: Dict<Json>, steps: seq<Step>, mode: Mode, decide: Decider)
    requires forall i :: 0 <= i < |steps| ==> Allowed(steps[i], mode)
    ensures Sequential(init, steps, decide)
  {
    Serialisable(init, steps, mode, decide);
  }

  // ---------------------------------------------------------------- revisions

  function Writes(log: seq<Event>): nat {
    if log == [] then 0
    else Writes(log[..|log| - 1]) + (if Last(log).outcome.Written? then 1 else 0)
  }

  /** A call raises an integer revision by one if it writes, and is refused for the revision exactly when it
      expects another one. */
  ghost predicate RevisedBy(record: Dict<Json>, c: Declaration, outcome: Outcome) {
    forall n :: Get(record, "revision") == Some(Number(n)) ==>
      && (outcome.Written? ==> Get(outcome.payload, "revision") == Some(Number(n + 1)))
      && (c.expected.Number? ==> (outcome.StaleRevision? <==> c.expected.n != n))
      && (c.expected == Null ==> !outcome.StaleRevision?)
  }

  ghost predicate Revising(decide: Decider) {
    forall record, c :: RevisedBy(record, c, decide(record, c))
  }

  lemma WriterRevises(env: Env)
    ensures Revising(Writer(env))
  {
    forall record: Dict<Json>, c: Declaration
      ensures RevisedBy(record, c, Writer(env)(record, c))
    {
      forall n | Get(record, "revision") == Some(Number(n))
        ensures var outcome := Declare(record, c, env);
                && (outcome.Written? ==> Get(outcome.payload, "revision") == Some(Number(n + 1)))
                && (c.expected.Number? ==> (outcome.StaleRevision? <==> c.expected.n != n))
                && (c.expected == Null ==> !outcome.StaleRevision?)
      {
        StaleExactly(record, c, env, n);
        if Declare(record, c, env).Written? {
          RootKept(record, c, env, "revision");
        }
      }
    }
  }

  lemma {:induction false} LogRevision(init: Dict<Json>, log: seq<Event>, n: int, decide: Decider)
    requires Revising(decide) && Agrees(init, log, decide) && Get(init, "revision") == Some(Number(n))
    ensures Get(Replay(init, log, decide), "revision") == Some(Number(n + Writes(log)))
  {
    if log != [] {
      LogRevision(init, log[..|log| - 1], n, decide);
      var before := Replay(init, log[..|log| - 1], decide);
      assert RevisedBy(before, Last(log).c, decide(before, Last(log).c));
    }
  }

  /** An integer revision counts the successful writes; a refused call leaves the record alone. */
  lemma RevisionCounts(init: Dict<Json>, log: seq<Event>, n: int, env: Env)
    requires Agrees(init, log, Writer(env)) && Get(init, "revision") == Some(Number(n))
    ensures Get(Replay(init, log, Writer(env)), "revision") == Some(Number(n + Writes(log)))
    ensures log != [] && !Last(log).outcome.Written? ==>
              Replay(init, log, Writer(env)) == Replay(init, log[..|log| - 1], Writer(env))
  {
    WriterRevises(env);
    LogRevision(init, log, n, Writer(env));
  }

  lemma {:induction false} LogPrefix(init: Dict<Json>, log: seq<Event>, i: nat, decide: Decider)
    requires Agrees(init, log, decide) && i < |log|
    ensures Agrees(init, log[..i], decide)
    ensures log[i].outcome == decide(Replay(init, log[..i], decide), log[i].c)
    decreases |log|
  {
    AgreesPrefix(init, log, i, decide);
    if i == |log| - 1 {
      assert Last(log) == log[i];
    } else {
      LogPrefix(init, log[..|log| - 1], i, decide);
      assert log[..|log| - 1][..i] == log[..i];
    }
  }

  /** NO CLOBBERING. In a sequential log a call that expects revision k is refused exactly when the start's
      revision and the writes before it do not add up to k. */
  lemma StaleInLog(init: Dict<Json>, log: seq<Event>, n: int, decide: Decider, i: nat)
    requires Revising(decide) && Agrees(init, log, decide) && Get(init, "revision") == Some(Number(n)) && i < |log|
    ensures log[i].c.expected.Number? ==>
              (log[i].outcome.StaleRevision? <==> log[i].c.expected.n != n + Writes(log[..i]))
    ensures log[i].c.expected == Null ==> !log[i].outcome.StaleRevision?
  {
    LogPrefix(init, log, i, decide);
    LogRevision(init, log[..i], n, decide);
    assert RevisedBy(Replay(init, log[..i], decide), log[i].c, log[i].outcome);
  }

  lemma {:induction false} WritesGrow(log: seq<Event>, i: nat, j: nat)
    requires i < j <= |log|
    ensures Writes(log[..i]) + (if log[i].outcome.Written? then 1 else 0) <= Writes(log[..j])
    decreases j
  {
    assert log[..j][..j - 1] == log[..j - 1] && Last(log[..j]) == log[j - 1];
    if i < j - 1 {
      WritesGrow(log, i, j - 1);
    }
  }

  /** Of two writes that both expected a revision the later one expected a higher one. */
  lemma ExpectedRise(init: Dict<Json>, log: seq<Event>, n: int, decide: Decider, i: nat, j: nat)
    requires Revising(decide) && Agrees(init, log, decide) && Get(init, "revision") == Some(Number(n)) && i < j < |log|
    requires log[i].outcome.Written? && log[j].outcome.Written?
    requires log[i].c.expected.Number? && log[j].c.expected.Number?
    ensures log[i].c.expected.n < log[j].c.expected.n
  {
    StaleInLog(init, log, n, decide, i);
    StaleInLog(init, log, n, decide, j);
    WritesGrow(log, i, j);
  }

  /** Every call of the log that expected a revision was refused exactly when there was another one, and of
      two writes that expected one the later expected a higher one. */
  ghost predicate NoClobbering(log: seq<Event>, n: int) {
    && (forall i :: 0 <= i < |log| && log[i].c.expected.Number? ==>
          (log[i].outcome.StaleRevision? <==> log[i].c.expected.n != n + Writes(log[..i])))
    && (forall i, j :: 0 <= i < j < |log| && log[i].outcome.Written? && log[j].outcome.Written?
                       && log[i].c.expected.Number? && log[j].c.expected.Number? ==>
                         log[i].c.expected.n < log[j].c.expected.n)
  }

  lemma LogStale(init: Dict<Json>, log: seq<Event>, n: int, decide: Decider)
    requires Revising(decide) && Agrees(init, log, decide) && Get(init, "revision") == Some(Number(n))
    ensures NoClobbering(log, n)
  {
    forall i | 0 <= i < |log| && log[i].c.expected.Number?
      ensures log[i].outcome.StaleRevision? <==> log[i].c.expected.n != n + Writes(log[..i])
    {
      StaleInLog(init, log, n, decide, i);
    }
    forall i, j | 0 <= i < j < |log| && log[i].outcome.Written? && log[j].outcome.Written?
                  && log[i].c.expected.Number? && log[j].c.expected.Number?
      ensures log[i].c.expected.n < log[j].c.expected.n
    {
      ExpectedRise(init, log, n, decide, i, j);
    }
  }

  /** NO CLOBBERING over any interleaved run with crashes: a write never stands on a revision its caller did not
      read, and no two writes that are still there expected the same one. */
  lemma RunStale(init: Dict<Json>, steps: seq<Step>, mode: Mode, n: int, env: Env)
    requires forall i :: 0 <= i < |steps| ==> Allowed(steps[i], mode)
    requires Get(init, "revision") == Some(Number(n))
    ensures Run(Start(init), steps, Writer(env)).Some? ==> NoClobbering(Run(Start(init), steps, Writer(env)).value.log, n)
  {
    AllowedSequential(init, steps, mode, Writer(env));
    WriterRevises(env);
    if Run(Start(init), steps, Writer(env)).Some? {
      LogStale(init, Run(Start(init), steps, Writer(env)).value.log, n, Writer(env));
    }
  }

  ghost predicate RevisionIs(s: Sys, n: int) {
    Visible(s).Complete? && Get(Visible(s).record, "revision") == Some(Number(n + Writes(s.log)))
  }

  lemma ReplayRevision(init: Dict<Json>, s: Sys, n: int, env: Env)
    requires Visible(s) == Complete(Replay(init, s.log, Writer(env)), true) && Agrees(init, s.log, Writer(env))
    requires Get(init, "revision") == Some(Number(n))
    ensures RevisionIs(s, n)
  {
    RevisionCounts(init, s.log, n, env);
  }

  /** Over any run, with crashes anywhere: an integer revision in the file is the start's plus the number of
      writes the run has made. */
  lemma RunRevision(init: Dict<Json>, steps: seq<Step>, mode: Mode, n: int, env: Env, decide: Decider)
    requires forall i :: 0 <= i < |steps| ==> Allowed(steps[i], mode)
    requires decide == Writer(env) && Get(init, "revision") == Some(Number(n))
    ensures Run(Start(init), steps, decide).Some? ==> RevisionIs(Run(Start(init), steps, decide).value, n)
  {
    AllowedSequential(init, steps, mode, decide);
    if Run(Start(init), steps, decide).Some? {
      ReplayRevision(init, Run(Start(init), steps, decide).value, n, env);
    }
  }

  // ---------------------------------------------------------------- what a power cut can take back

  /** The calls of `base` are in the log, and every directory entry a power cut may bring back is as new as
      they are. */
  ghost predicate OnDisk(base: seq<Event>, s: Sys) {
    && base <= s.log
    && s.renames != []
    && forall i :: 0 <= i < |s.renames| ==> |base| <= s.renames[i].at <= |s.log|
  }

  lemma OnDiskStep(base: seq<Event>, s: Sys, step: Step, s': Sys, decide: Decider)
    requires OnDisk(base, s) && Next(s, step, decide) == Some(s')
    ensures OnDisk(base, s')
  {
  }

  lemma {:induction false} OnDiskRun(base: seq<Event>, s: Sys, steps: seq<Step>, decide: Decider)
    requires OnDisk(base, s)
    ensures Run(s, steps, decide).Some? ==> OnDisk(base, Run(s, steps, decide).value)
    decreases |steps|
  {
    if steps != [] && Next(s, steps[0], decide).Some? {
      OnDiskStep(base, s, steps[0], Next(s, steps[0], decide).value, decide);
      OnDiskRun(base, Next(s, steps[0], decide).value, steps[1..], decide);
    }
  }

  /** No later run, with kills and power cuts anywhere, takes back any of these calls. */
  ghost predicate Durable(base: seq<Event>, s: Sys, decide: Decider) {
    forall steps :: Run(s, steps, decide).Some? ==> base <= Run(s, steps, decide).value.log
  }

  lemma OnDiskDurable(base: seq<Event>, s: Sys, decide: Decider)
    requires OnDisk(base, s)
    ensures Durable(base, s, decide)
  {
    forall steps | Run(s, steps, decide).Some?
      ensures base <= Run(s, steps, decide).value.log
    {
      OnDiskRun(base, s, steps, decide);
    }
  }

  /** DURABLE EXACTLY WHEN. Calls survive every later run if and only if no directory entry that a power
      cut may bring back is older than they are. */
  lemma DurableExactly(base: seq<Event>, s: Sys, decide: Decider)
    requires OnDisk([], s) && base <= s.log
    ensures Durable(base, s, decide) <==> forall i :: 0 <= i < |s.renames| ==> |base| <= s.renames[i].at
  {
    if forall i :: 0 <= i < |s.renames| ==> |base| <= s.renames[i].at {
      OnDiskDurable(base, s, decide);
    } else {
      var i :| 0 <= i < |s.renames| && s.renames[i].at < |base|;
      RunCons(s, PowerCut(i), Next(s, PowerCut(i), decide).value, [], decide);
      assert |Run(s, [PowerCut(i)] + [], decide).value.log| == s.renames[i].at;
    }
  }

  /** A returned directory sync, and a power cut, leave one directory entry. */
  predicate Settles(step: Step) {
    step.SyncDir? || step.PowerCut?
  }

  ghost predicate SomeSettles(steps: seq<Step>) {
    exists i :: 0 <= i < |steps| && Settles(steps[i])
  }

  /** No step of this run takes back any of these calls. */
  ghost predicate Stays(base: seq<Event>, s: Sys, steps: seq<Step>, decide: Decider)
    decreases |steps|
  {
    && base <= s.log
    && (steps != [] && Next(s, steps[0], decide).Some? ==>
          Stays(base, Next(s, steps[0], decide).value, steps[1..], decide))
  }

  /** The newest entry is as new as these calls; the oldest is, exactly if the directory has settled. */
  ghost predicate Since(base: seq<Event>, s: Sys, settled: bool) {
    && s.renames != []
    && |base| <= Last(s.renames).at
    && (if settled then OnDisk(base, s) else s.renames[0].at < |base|)
  }

  lemma SinceStep(base: seq<Event>, s: Sys, step: Step, s': Sys, settled: bool, decide: Decider)
    requires OnDisk([], s) && Since(base, s, settled) && Next(s, step, decide) == Some(s')
    requires base <= s.log && base <= s'.log
    ensures OnDisk([], s') && Since(base, s', settled || Settles(step))
  {
    OnDiskStep([], s, step, s', decide);
  }

  lemma {:induction false} SinceRun(base: seq<Event>, s: Sys, steps: seq<Step>, settled: bool, decide: Decider)
    requires OnDisk([], s) && Since(base, s, settled)
    requires Run(s, steps, decide).Some? && Stays(base, s, steps, decide)
    ensures var end := Run(s, steps, decide).value;
            OnDisk([], end) && base <= end.log && Since(base, end, settled || SomeSettles(steps))
    decreases |steps|
  {
    if steps != [] {
      var s' := Next(s, steps[0], decide).value;
      SinceStep(base, s, steps[0], s', settled, decide);
      SinceRun(base, s', steps[1..], settled || Settles(steps[0]), decide);
      assert SomeSettles(steps) <==> Settles(steps[0]) || SomeSettles(steps[1..]) by {
        if SomeSettles(steps[1..]) {
          var i :| 0 <= i < |steps[1..]| && Settles(steps[1..][i]);
          assert steps[i + 1] == steps[1..][i];
        }
        if SomeSettles(steps) && !Settles(steps[0]) {
          var i :| 0 <= i < |steps| && Settles(steps[i]);
          assert steps[1..][i - 1] == steps[i];
        }
      }
    }
  }

  /** A WRITE CAN BE TAKEN BACK EXACTLY until the directory settles. Take any run from the start, the rename
      of a call in it, and whatever happened since, reports, other calls and kills included, as long as the
      write is still there. It will survive every later run if and only if since its rename a directory
      sync has returned, its own or a later call's, or a power cut has already left it in place. */
  lemma TakenBackExactly(init: Dict<Json>, before: seq<Step>, t: Tid, since: seq<Step>, decide: Decider)
    requires Run(Start(init), before, decide).Some?
    requires Next(Run(Start(init), before, decide).value, Replace(t), decide).Some?
    ensures var renamed := Next(Run(Start(init), before, decide).value, Replace(t), decide).value;
            Run(renamed, since, decide).Some? && Stays(renamed.log, renamed, since, decide) ==>
              (Durable(renamed.log, Run(renamed, since, decide).value, decide) <==> SomeSettles(since))
  {
    OnDiskRun([], Start(init), before, decide);
    var s := Run(Start(init), before, decide).value;
    var renamed := Next(s, Replace(t), decide).value;
    OnDiskStep([], s, Replace(t), renamed, decide);
    if Run(renamed, since, decide).Some? && Stays(renamed.log, renamed, since, decide) {
      SinceRun(renamed.log, renamed, since, false, decide);
      DurableExactly(renamed.log, Run(renamed, since, decide).value, decide);
    }
  }

  lemma SyncOnDisk(s: Sys, t: Tid, synced: Sys, decide: Decider)
    requires WorkOk(s, t, decide) && Next(s, SyncDir(t), decide) == Some(synced)
    ensures OnDisk(synced.log, synced)
  {
  }

  /** With the lock held as it should be, the sync of a call also settles every call decided before it. */
  lemma SyncedSurvives(init: Dict<Json>, before: seq<Step>, t: Tid, mode: Mode, decide: Decider)
    requires forall i :: 0 <= i < |before| ==> Allowed(before[i], mode)
    requires Run(Start(init), before, decide).Some?
    requires Next(Run(Start(init), before, decide).value, SyncDir(t), decide).Some?
    ensures var synced := Next(Run(Start(init), before, decide).value, SyncDir(t), decide).value;
            Durable(synced.log, synced, decide)
  {
    var s := Run(Start(init), before, decide).value;
    StartInv(init, mode, decide);
    RunKeeps(init, Start(init), before, mode, decide);
    assert WorkOk(s, t, decide);
    var synced := Next(s, SyncDir(t), decide).value;
    SyncOnDisk(s, t, synced, decide);
    OnDiskDurable(synced.log, synced, decide);
  }

  /** The call of one thread alone, up to its report, its directory sync failing quietly. */
  function Unsynced(t: Tid, c: Declaration): seq<Step> {
    Enter(t, c, true) + Down(t) + [SkipDirSync(t), Leave(t)]
  }

  lemma UnsyncedRuns(init: Dict<Json>, t: Tid, c: Declaration, decide: Decider)
    requires decide(init, c).Written?
    ensures var end := Run(Start(init), Unsynced(t, c), decide);
            && end.Some?
            && end.value.log == [Event(c, decide(init, c))]
            && end.value.renames == [Rename(Complete(init, true), 0), Rename(Complete(decide(init, c).payload, true), 1)]
  {
    var s := Start(init);
    EnterRuns(s, t, c, true, decide);
    var s1 := Run(s, Enter(t, c, true), decide).value;
    DownRuns(s1, t, decide);
    var s2 := Run(s1, Down(t), decide).value;
    RunAppend(s, Enter(t, c, true), Down(t), decide);
    RunAppend(s, Enter(t, c, true) + Down(t), [SkipDirSync(t), Leave(t)], decide);
    LastSteps(s2, t, decide);
  }

  lemma LastSteps(s: Sys, t: Tid, decide: Decider)
    requires At(s, t) == Thread(NeedDirSync, 1)
    ensures var end := Run(s, [SkipDirSync(t), Leave(t)], decide);
            end.Some? && end.value.log == s.log && end.value.renames == s.renames
  {
    var s1 := Next(s, SkipDirSync(t), decide).value;
    var s2 := Next(s1, Leave(t), decide).value;
    RunCons(s, SkipDirSync(t), s1, [Leave(t)], decide);
    RunCons(s1, Leave(t), s2, [], decide);
    assert [SkipDirSync(t), Leave(t)] == [SkipDirSync(t)] + [Leave(t)] && [Leave(t)] == [Leave(t)] + [];
  }

  /** The shortest such loss: a call alone reports success without its directory sync, and a power cut brings
      the old record back. */
  lemma SkippedSyncLosesWrite(init: Dict<Json>, t: Tid, c: Declaration, decide: Decider)
    requires decide(init, c).Written?
    ensures var reported := Run(Start(init), Unsynced(t, c), decide);
            && reported.Some?
            && reported.value.log == [Event(c, decide(init, c))]
            && var cut := Next(reported.value, PowerCut(0), decide);
               cut.Some? && cut.value.log == [] && Visible(cut.value) == Complete(init, true)
  {
    UnsyncedRuns(init, t, c, decide);
  }

  // ---------------------------------------------------------------- nobody waits for ever

  /** What a thread does next, failures apart. */
  function Onward(s: Sys, t: Tid): Step {
    match At(s, t).pc
    case Idle => Leave(t)
    case Entered => BumpDepth(t)
    case NeedFlock => TakeFlock(t)
    case HasRead(_, _) => Decide(t)
    case Writing(_, _, _, tmp) => if tmp.Partial? then WriteTmp(t) else if tmp.synced then Replace(t) else SyncTmp(t)
    case NeedDirSync => SkipDirSync(t)
    case NeedUnflock => Unflock(t)
    case NeedUnmutex => Unmutex(t)
  }

  lemma OnwardEnabled(s: Sys, t: Tid, mode: Mode, decide: Decider)
    requires LocksOk(s, t, mode) && At(s, t) != Thread(Idle, 0)
    requires At(s, t).pc.NeedFlock? ==> s.flock.None?
    ensures Next(s, Onward(s, t), decide).Some? && Allowed(Onward(s, t), mode)
  {
  }

  /** NO DEADLOCK, nesting included: in every reachable state a thread that is not idle can go on, or the
      thread that holds the flock can. */
  lemma NeverStuck(init: Dict<Json>, steps: seq<Step>, mode: Mode, decide: Decider, t: Tid)
    requires forall i :: 0 <= i < |steps| ==> Allowed(steps[i], mode)
    ensures var end := Run(Start(init), steps, decide);
            end.Some? && At(end.value, t) != Thread(Idle, 0) ==>
              var s := end.value;
              var u := if At(s, t).pc.NeedFlock? && s.flock.Some? then s.flock.value else t;
              Next(s, Onward(s, u), decide).Some? && Allowed(Onward(s, u), mode)
  {
    StartInv(init, mode, decide);
    RunKeeps(init, Start(init), steps, mode, decide);
    var end := Run(Start(init), steps, decide);
    if end.Some? && At(end.value, t) != Thread(Idle, 0) {
      var s := end.value;
      var u := if At(s, t).pc.NeedFlock? && s.flock.Some? then s.flock.value else t;
      assert LocksOk(s, u, mode);
      OnwardEnabled(s, u, mode, decide);
    }
  }

  /** THE LOCK MAY BE TAKEN AGAIN by a thread that is inside: one more way in and out changes nothing. */
  lemma NestedIsFree(s: Sys, t: Tid, mode: Mode, decide: Decider) returns (s1: Sys, s2: Sys, s3: Sys)
    requires LocksOk(s, t, mode) && At(s, t).pc == Idle && At(s, t).depth > 0
    ensures Next(s, EnterMutex(t), decide) == Some(s1)
    ensures Next(s1, BumpDepth(t), decide) == Some(s2) && Inside(At(s2, t)) && At(s2, t).pc == Idle
    ensures Next(s2, Leave(t), decide) == Some(s3)
    ensures Next(s3, Unmutex(t), decide) == Some(s)
  {
    var d := At(s, t).depth;
    s1 := Go(s, t, Thread(Entered, d)).(mutex := s.mutex[t.proc := (t, d + 1)]);
    s2 := Go(s1, t, Thread(Idle, d + 1));
    s3 := Go(s2, t, Thread(NeedUnmutex, d));
    var s4 := Go(s3, t, Thread(Idle, d)).(mutex := s3.mutex[t.proc := (t, d)]);
    assert s4.threads == s.threads && s4.mutex == s.mutex;
  }

  /** A call can break off anywhere between its read and its rename, and then it has not been. */
  lemma FailExactly(s: Sys, t: Tid, decide: Decider)
    ensures var after := Next(s, Fail(t), decide);
            && (after.Some? <==> At(s, t).pc.HasRead? || At(s, t).pc.Writing?)
            && (after.Some? ==>
                  after.value == s.(threads := after.value.threads)
                  && forall u :: At(after.value, u) == if u == t then Thread(Idle, At(s, t).depth) else At(s, u))
  {
  }

  /** A process can be killed anywhere: its threads are gone with their locks, and everything else stays. */
  lemma KillExactly(s: Sys, p: nat, decide: Decider)
    ensures var after := Next(s, Kill(p), decide);
            && after.Some? && after.value.renames == s.renames && after.value.log == s.log
            && (forall t :: At(after.value, t) == if t.proc == p then Thread(Idle, 0) else At(s, t))
            && (forall q :: Owner(after.value, q) == if q == p then None else Owner(s, q))
            && (forall t :: after.value.flock == Some(t) <==> s.flock == Some(t) && t.proc != p)
  {
  }

  /** A power cut takes every thread and lock, and leaves any one of the directory entries that may be on disk. */
  lemma PowerCutExactly(s: Sys, k: nat, decide: Decider)
    ensures var after := Next(s, PowerCut(k), decide);
            && (after.Some? <==> k < |s.renames|)
            && (after.Some? ==>
                  && Visible(after.value) == s.renames[k].image
                  && after.value.log <= s.log
                  && (s.renames[k].at <= |s.log| ==> |after.value.log| == s.renames[k].at)
                  && (forall t :: At(after.value, t) == Thread(Idle, 0))
                  && (forall q :: Owner(after.value, q).None?)
                  && after.value.flock.None?)
  {
  }

  // ---------------------------------------------------------------- why the lock file must open

  /** One thread's way into a call, its lock file open or not, up to the read. */
  function Enter(t: Tid, c: Declaration, opens: bool): seq<Step> {
    [EnterMutex(t), BumpDepth(t), if opens then TakeFlock(t) else NoLockFile(t), Read(t, c)]
  }

  function Down(t: Tid): seq<Step> {
    [Decide(t), WriteTmp(t), SyncTmp(t), Replace(t)]
  }

  lemma {:induction false} RunAppend(s: Sys, a: seq<Step>, b: seq<Step>, decide: Decider)
    ensures Run(s, a + b, decide) ==
            match Run(s, a, decide) case None => None case Some(m) => Run(m, b, decide)
    decreases |a|
  {
    if a == [] {
      assert a + b == b;
    } else {
      assert (a + b)[1..] == a[1..] + b;
      if Next(s, a[0], decide).Some? {
        RunAppend(Next(s, a[0], decide).value, a[1..], b, decide);
      }
    }
  }

  /** A thread waiting for the lock file. */
  function Waiting(s: Sys, t: Tid): Sys {
    Go(s, t, Thread(NeedFlock, 1)).(mutex := s.mutex[t.proc := (t, 1)])
  }

  lemma MutexSteps(s: Sys, t: Tid, rest: seq<Step>, decide: Decider)
    requires At(s, t) == Thread(Idle, 0) && Owner(s, t.proc).None?
    ensures Run(s, [EnterMutex(t)] + ([BumpDepth(t)] + rest), decide) == Run(Waiting(s, t), rest, decide)
  {
    var s1 := Next(s, EnterMutex(t), decide).value;
    var s2 := Next(s1, BumpDepth(t), decide).value;
    GoTwice(s, t, Thread(Entered, 0), Thread(NeedFlock, 1));
    RunCons(s, EnterMutex(t), s1, [BumpDepth(t)] + rest, decide);
    RunCons(s1, BumpDepth(t), s2, rest, decide);
  }

  lemma LockSteps(s: Sys, t: Tid, c: Declaration, opens: bool, decide: Decider)
    requires Visible(s).Complete? && (opens ==> s.flock.None?)
    ensures Run(Waiting(s, t), [if opens then TakeFlock(t) else NoLockFile(t)] + ([Read(t, c)] + []), decide) ==
            Some(Waiting(s, t).(threads := s.threads[t := Thread(HasRead(c, Visible(s).record), 1)],
                                flock := if opens then Some(t) else s.flock))
  {
    var third := if opens then TakeFlock(t) else NoLockFile(t);
    var s3 := Next(Waiting(s, t), third, decide).value;
    var s4 := Next(s3, Read(t, c), decide).value;
    assert s4.threads == s.threads[t := Thread(HasRead(c, Visible(s).record), 1)];
    RunCons(Waiting(s, t), third, s3, [Read(t, c)] + [], decide);
    RunCons(s3, Read(t, c), s4, [], decide);
  }

  lemma EnterRuns(s: Sys, t: Tid, c: Declaration, opens: bool, decide: Decider)
    requires At(s, t) == Thread(Idle, 0) && Owner(s, t.proc).None? && Visible(s).Complete?
    requires opens ==> s.flock.None?
    ensures Run(s, Enter(t, c, opens), decide) ==
            Some(Go(s, t, Thread(HasRead(c, Visible(s).record), 1)).(
                   mutex := s.mutex[t.proc := (t, 1)], flock := if opens then Some(t) else s.flock))
  {
    var last := [if opens then TakeFlock(t) else NoLockFile(t)] + ([Read(t, c)] + []);
    MutexSteps(s, t, last, decide);
    LockSteps(s, t, c, opens, decide);
    assert Enter(t, c, opens) == [EnterMutex(t)] + ([BumpDepth(t)] + last);
  }

  lemma GoTwice(s: Sys, t: Tid, a: Thread, b: Thread)
    ensures At(Go(s, t, a), t) == a && Go(Go(s, t, a), t, b) == Go(s, t, b)
  {
    assert s.threads[t := a][t := b] == s.threads[t := b];
  }

  lemma RunCons(s: Sys, step: Step, s': Sys, rest: seq<Step>, decide: Decider)
    requires Next(s, step, decide) == Some(s')
    ensures Run(s, [step] + rest, decide) == Run(s', rest, decide)
  {
    assert ([step] + rest)[1..] == rest;
  }

  /** The state in mid-write. */
  function WritingAt(s: Sys, t: Tid, payload: Dict<Json>, tmp: Image): Sys
    requires At(s, t).pc.HasRead?
  {
    Go(s, t, At(s, t).(pc := Writing(At(s, t).pc.c, At(s, t).pc.seen, payload, tmp)))
  }

  lemma WriteSteps(s: Sys, t: Tid, payload: Dict<Json>, decide: Decider)
    requires At(s, t).pc.HasRead?
    ensures Next(WritingAt(s, t, payload, Partial), WriteTmp(t), decide)
            == Some(WritingAt(s, t, payload, Complete(payload, false)))
    ensures Next(WritingAt(s, t, payload, Complete(payload, false)), SyncTmp(t), decide)
            == Some(WritingAt(s, t, payload, Complete(payload, true)))
  {
    var none := WritingAt(s, t, payload, Partial);
    var part := WritingAt(s, t, payload, Complete(payload, false));
    var whole := WritingAt(s, t, payload, Complete(payload, true));
    GoTwice(s, t, At(none, t), At(part, t));
    GoTwice(s, t, At(part, t), At(whole, t));
  }

  lemma DownRuns(s: Sys, t: Tid, decide: Decider)
    requires At(s, t).pc.HasRead? && decide(At(s, t).pc.seen, At(s, t).pc.c).Written?
    ensures var c, seen := At(s, t).pc.c, At(s, t).pc.seen;
            var payload := decide(seen, c).payload;
            Run(s, Down(t), decide) ==
            Some(Go(s, t, At(s, t).(pc := NeedDirSync)).(
                   renames := s.renames + [Rename(Complete(payload, true), |s.log| + 1)],
                   log := s.log + [Event(c, Written(payload))]))
  {
    var payload := decide(At(s, t).pc.seen, At(s, t).pc.c).payload;
    var s1 := WritingAt(s, t, payload, Partial);
    var s2 := WritingAt(s, t, payload, Complete(payload, false));
    var s3 := WritingAt(s, t, payload, Complete(payload, true));
    WriteSteps(s, t, payload, decide);
    GoTwice(s, t, At(s3, t), At(s, t).(pc := NeedDirSync));
    var s4 := Next(s3, Replace(t), decide).value;
    RunCons(s, Decide(t), s1, [WriteTmp(t), SyncTmp(t), Replace(t)], decide);
    RunCons(s1, WriteTmp(t), s2, [SyncTmp(t), Replace(t)], decide);
    RunCons(s2, SyncTmp(t), s3, [Replace(t)], decide);
    RunCons(s3, Replace(t), s4, [], decide);
    assert Down(t) == [Decide(t)] + [WriteTmp(t), SyncTmp(t), Replace(t)];
    assert [WriteTmp(t), SyncTmp(t), Replace(t)] == [WriteTmp(t)] + [SyncTmp(t), Replace(t)];
    assert [SyncTmp(t), Replace(t)] == [SyncTmp(t)] + [Replace(t)];
    assert [Replace(t)] == [Replace(t)] + [];
  }

  /** Two calls of two processes that both read before either writes: the lock file of p does not open,
      and that of q may. */
  function Crossing(p: nat, q: nat, opens: bool, c1: Declaration, c2: Declaration): seq<Step> {
    Enter(Tid(q, 0), c2, opens) + Enter(Tid(p, 0), c1, false) + Down(Tid(p, 0)) + Down(Tid(q, 0))
  }

  lemma CrossingRuns(init: Dict<Json>, p: nat, q: nat, opens: bool, c1: Declaration, c2: Declaration, decide: Decider)
    requires p != q && decide(init, c1).Written? && decide(init, c2).Written?
    ensures var end := Run(Start(init), Crossing(p, q, opens, c1, c2), decide);
            && end.Some?
            && end.value.log == [Event(c1, decide(init, c1)), Event(c2, decide(init, c2))]
            && Visible(end.value) == Complete(decide(init, c2).payload, true)
  {
    var t, u := Tid(p, 0), Tid(q, 0);
    var s := Start(init);
    EnterRuns(s, u, c2, opens, decide);
    var s1 := Run(s, Enter(u, c2, opens), decide).value;
    EnterRuns(s1, t, c1, false, decide);
    var s2 := Run(s1, Enter(t, c1, false), decide).value;
    DownRuns(s2, t, decide);
    var s3 := Run(s2, Down(t), decide).value;
    DownRuns(s3, u, decide);
    RunAppend(s, Enter(u, c2, opens), Enter(t, c1, false), decide);
    RunAppend(s, Enter(u, c2, opens) + Enter(t, c1, false), Down(t), decide);
    RunAppend(s, Enter(u, c2, opens) + Enter(t, c1, false) + Down(t), Down(u), decide);
  }

  /** A LOST UPDATE, from any record and for any two processes of which one cannot open the lock file: both
      calls report success, the file is the record of the second one alone, and in neither order do the
      two calls, one at a time, have the outcomes they reported. */
  lemma LostUpdate(init: Dict<Json>, p: nat, q: nat, opens: bool, c1: Declaration, c2: Declaration, env: Env)
    requires p != q && c1.expected == Null && c2.expected == Null
    requires Declare(init, c1, env).Written? && Declare(init, c2, env).Written?
    ensures var end := Run(Start(init), Crossing(p, q, opens, c1, c2), Writer(env));
            var e1, e2 := Event(c1, Declare(init, c1, env)), Event(c2, Declare(init, c2, env));
            && end.Some?
            && end.value.log == [e1, e2]
            && Visible(end.value) == Complete(Declare(init, c2, env).payload, true)
            && !Agrees(init, [e1, e2], Writer(env)) && !Agrees(init, [e2, e1], Writer(env))
  {
    CrossingRuns(init, p, q, opens, c1, c2, Writer(env));
    NotInTurn(init, c1, c2, env);
    NotInTurn(init, c2, c1, env);
  }

  /** Two writes of the same starting record carry the same revision, so they did not run in turn. */
  lemma NotInTurn(init: Dict<Json>, c1: Declaration, c2: Declaration, env: Env)
    requires c2.expected == Null && Declare(init, c1, env).Written? && Declare(init, c2, env).Written?
    ensures !Agrees(init, [Event(c1, Declare(init, c1, env)), Event(c2, Declare(init, c2, env))], Writer(env))
  {
    var decide := Writer(env);
    var o1, o2 := decide(init, c1), decide(init, c2);
    var log := [Event(c1, o1), Event(c2, o2)];
    assert log[..1] == [Event(c1, o1)] && log[..1][..0] == [];
    assert Replay(init, log[..1], decide) == o1.payload;
    NextDiffers(init, c1, c2, env);
  }

  lemma NextDiffers(init: Dict<Json>, c1: Declaration, c2: Declaration, env: Env)
    requires c2.expected == Null && Declare(init, c1, env).Written? && Declare(init, c2, env).Written?
    ensures Declare(Declare(init, c1, env).payload, c2, env) != Declare(init, c2, env)
  {
    var p1 := Declare(init, c1, env).payload;
    WrittenFields(init, c1, env, "revision");
    WrittenFields(init, c2, env, "revision");
    if Declare(p1, c2, env).Written? {
      WrittenFields(p1, c2, env, "revision");
    }
  }

  // ---------------------------------------------------------------- exactly when runs are serialisable

  /** The processes that write, and those whose lock file may fail to open. */
  datatype Setting = Setting(procs: set<nat>, closed: set<nat>)

  predicate Opens(q: nat, g: Setting) {
    q !in g.closed
  }

  predicate Permitted(step: Step, g: Setting) {
    && (step.EnterMutex? ==> step.t.proc in g.procs)
    && (step.NoLockFile? ==> step.t.proc in g.procs && step.t.proc in g.closed)
  }

  predicate PermittedRun(steps: seq<Step>, g: Setting) {
    forall i :: 0 <= i < |steps| ==> Permitted(steps[i], g)
  }

  predicate AtMostOne(procs: set<nat>) {
    forall p, q :: p in procs && q in procs ==> p == q
  }

  /** EXACTLY WHEN. From a record that some call can write to, every run with kills and power cuts anywhere
      is serialisable if and only if at most one process writes or every lock file of a writer opens. */
  lemma SerialisableExactly(init: Dict<Json>, g: Setting, c: Declaration, env: Env)
    requires c.expected == Null && Declare(init, c, env).Written?
    ensures (forall steps :: PermittedRun(steps, g) ==> Sequential(init, steps, Writer(env)))
            <==> AtMostOne(g.procs) || g.procs !! g.closed
  {
    if AtMostOne(g.procs) || g.procs !! g.closed {
      forall steps | PermittedRun(steps, g)
        ensures Sequential(init, steps, Writer(env))
      {
        PermittedSequential(init, steps, g, Writer(env));
      }
    } else {
      var p :| p in g.procs && p in g.closed;
      var a, b :| a in g.procs && b in g.procs && a != b;
      var q := if a == p then b else a;
      var steps := Crossing(p, q, Opens(q, g), c, c);
      CrossingPermitted(p, q, g, c);
      LostUpdate(init, p, q, Opens(q, g), c, c, env);
      assert PermittedRun(steps, g) && !Sequential(init, steps, Writer(env));
    }
  }

  lemma PermittedSequential(init: Dict<Json>, steps: seq<Step>, g: Setting, decide: Decider)
    requires PermittedRun(steps, g) && (AtMostOne(g.procs) || g.procs !! g.closed)
    ensures Sequential(init, steps, decide)
  {
    var mode := if g.procs !! g.closed then Openable
                else OneProcess(SomeOf(g.procs));
    forall i | 0 <= i < |steps|
      ensures Allowed(steps[i], mode)
    {
      assert Permitted(steps[i], g);
    }
    Serialisable(init, steps, mode, decide);
  }

  ghost function SomeOf(procs: set<nat>): (p: nat)
    requires procs != {}
    ensures p in procs
  {
    var p :| p in procs;
    p
  }

  lemma CrossingPermitted(p: nat, q: nat, g: Setting, c: Declaration)
    requires p in g.procs && p in g.closed && q in g.procs
    ensures PermittedRun(Crossing(p, q, Opens(q, g), c, c), g)
  {
    var t, u := Tid(p, 0), Tid(q, 0);
    PermittedParts(Enter(u, c, Opens(q, g)), Enter(t, c, false), g);
    PermittedParts(Enter(u, c, Opens(q, g)) + Enter(t, c, false), Down(t), g);
    PermittedParts(Enter(u, c, Opens(q, g)) + Enter(t, c, false) + Down(t), Down(u), g);
  }

  lemma PermittedParts(a: seq<Step>, b: seq<Step>, g: Setting)
    requires PermittedRun(a, g) && PermittedRun(b, g)
    ensures PermittedRun(a + b, g)
  {
  }
}
