/** The JSON store file shared by several processes: every write is a locked
    read-modify-write, step by step, with failures and crashes at any step. */
module Store {
  import opened Text

  type Data = map<string, string>

  /** put, del and update; an update callback may fail. */
  datatype Op = Put(key: string, value: string) | Del(key: string) | Update(fn: Data -> Option<Data>)

  predicate Refused(op: Op, d: Data) {
    op.Update? && op.fn(d).None?
  }

  function Apply(op: Op, d: Data): Data {
    match op
    case Put(k, v) => d[k := v]
    case Del(k) => d - {k}
    case Update(fn) => if fn(d).Some? then fn(d).value else d
  }

  // ---- State ------------------------------------------------------------------------

  /** The store file. Every replacement gets a stamp of its own. applied records
      which operations, by lock order, the contents are made of. */
  datatype File = File(stamp: nat, data: Data, applied: seq<nat>)

  /** The backup file, likewise. */
  datatype Copy = Copy(data: Data, applied: seq<nat>)

  datatype Phase =
    | Loaded                 // openJSONBackend: load done, Stat to come
    | Ready
    | Locked                 // persistMu and the lock file held
    | Refreshed
    | Changed                // the change is in memory
    | Written                // the primary file is replaced
    | Stamped                // the new stamp is taken, the backup is to come

  /** raced says that the file was replaced between load and Stat when the process
      opened, and that the process has not reloaded since. */
  datatype Proc = Proc(data: Data, stamp: Option<nat>, applied: seq<nat>, phase: Phase,
                       loadedStamp: Option<nat>, raced: bool)

  /** history holds the operations in the order in which they took the lock;
      done the positions of those that returned success. */
  datatype Sys = Sys(file: Option<File>, backup: Option<Copy>, procs: map<nat, Proc>, lock: Option<nat>,
                     history: seq<Op>, done: set<nat>, nextStamp: nat)

  function Fold(history: seq<Op>, idx: seq<nat>): Data
    requires forall i | 0 <= i < |idx| :: idx[i] < |history|
  {
    if idx == [] then map[]
    else Apply(history[idx[|idx| - 1]], Fold(history, idx[..|idx| - 1]))
  }

  function StampOf(f: Option<File>): Option<nat> {
    if f.Some? then Some(f.value.stamp) else None
  }

  function FileData(f: Option<File>): Data { if f.Some? then f.value.data else map[] }

  function FileApplied(f: Option<File>): seq<nat> { if f.Some? then f.value.applied else [] }

  // ---- Steps ------------------------------------------------------------------------

  /** How writeFileAtomically can end: Unsynced replaced the file and then failed
      to sync the directory. */
  datatype Replacement = Replaced | NotReplaced | Unsynced

  datatype Step =
    | Open(p: nat)                  // load
    | OpenStat(p: nat)              // Stat after load
    | Lock(p: nat, op: Op)
    | Refresh(p: nat)               // of the writer holding the lock
    | Read(p: nat)                  // get or list: refresh as one step
    | Change(p: nat)
    | Refuse(p: nat)                // the update callback failed
    | Write(p: nat)
    | WriteFails(p: nat)
    | WriteUnsynced(p: nat)         // replaced, but reported as an error
    | Stamp(p: nat, ok: bool)
    | Finish(p: nat, backup: Replacement)
    | Crash(p: nat)

  /** refresh: reload when another process replaced the file. */
  function RefreshProc(f: Option<File>, q: Proc): Proc {
    if f.Some? && q.stamp != Some(f.value.stamp)
    then q.(data := f.value.data, stamp := Some(f.value.stamp), applied := f.value.applied, raced := false)
    else q
  }

  predicate At(s: Sys, p: nat, phase: Phase) {
    p in s.procs && s.procs[p].phase == phase
  }

  predicate Holds(s: Sys, p: nat, phase: Phase) {
    At(s, p, phase) && s.lock == Some(p) && s.history != []
  }

  predicate Enabled(s: Sys, step: Step) {
    match step
    case Open(p) => p !in s.procs
    case OpenStat(p) => At(s, p, Loaded)
    case Lock(p, _) => At(s, p, Ready) && s.lock == None
    case Refresh(p) => Holds(s, p, Locked)
    case Read(p) => p in s.procs && !At(s, p, Loaded)
    case Change(p) => Holds(s, p, Refreshed) && !Refused(s.history[|s.history| - 1], s.procs[p].data)
    case Refuse(p) => Holds(s, p, Refreshed) && Refused(s.history[|s.history| - 1], s.procs[p].data)
    case Write(p) => Holds(s, p, Changed)
    case WriteFails(p) => Holds(s, p, Changed)
    case WriteUnsynced(p) => Holds(s, p, Changed)
    case Stamp(p, _) => Holds(s, p, Written)
    case Finish(p, _) => Holds(s, p, Stamped)
    case Crash(p) => p in s.procs
  }

  function SetProc(s: Sys, p: nat, q: Proc): Sys { s.(procs := s.procs[p := q]) }

  function Do(s: Sys, step: Step): Sys
    requires Enabled(s, step)
  {
    match step
    case Open(p) =>
      SetProc(s, p, Proc(FileData(s.file), None, FileApplied(s.file), Loaded, StampOf(s.file), false))
    case OpenStat(p) =>
      SetProc(s, p, s.procs[p].(stamp := StampOf(s.file), phase := Ready,
                                 raced := s.procs[p].loadedStamp != StampOf(s.file)))
    case Lock(p, op) =>
      SetProc(s, p, s.procs[p].(phase := Locked)).(lock := Some(p), history := s.history + [op])
    case Refresh(p) =>
      SetProc(s, p, RefreshProc(s.file, s.procs[p]).(phase := Refreshed))
    case Read(p) =>
      SetProc(s, p, RefreshProc(s.file, s.procs[p]))
    case Change(p) =>
      var n, q := |s.history| - 1, s.procs[p];
      SetProc(s, p, q.(data := Apply(s.history[n], q.data), applied := q.applied + [n], phase := Changed))
    case Refuse(p) =>
      SetProc(s, p, s.procs[p].(phase := Ready)).(lock := None)
    case Write(p) =>
      var q := s.procs[p];
      SetProc(s, p, q.(phase := Written)).(
        file := Some(File(s.nextStamp, q.data, q.applied)), nextStamp := s.nextStamp + 1)
    case WriteFails(p) =>
      SetProc(s, p, s.procs[p].(phase := Ready)).(lock := None)
    case WriteUnsynced(p) =>
      var q := s.procs[p];
      SetProc(s, p, q.(phase := Ready)).(
        file := Some(File(s.nextStamp, q.data, q.applied)), nextStamp := s.nextStamp + 1, lock := None)
    case Stamp(p, ok) =>
      var q := s.procs[p].(phase := Stamped);
      SetProc(s, p, if ok then q.(stamp := StampOf(s.file)) else q)
    case Finish(p, backup) =>
      var s' := SetProc(s, p, s.procs[p].(phase := Ready)).(lock := None);
      s'.(done := if backup.Replaced? then s.done + {|s.history| - 1} else s.done,
          backup := if backup.NotReplaced? then s.backup else Some(Copy(s.procs[p].data, s.procs[p].applied)))
    case Crash(p) =>
      s.(procs := s.procs - {p}, lock := if s.lock == Some(p) then None else s.lock)
  }

  const Empty: Sys := Sys(None, None, map[], None, [], {}, 0)

  /** A process whose open raced a writer makes no change before it has reloaded
      the file. */
  predicate Fresh(s: Sys, step: Step) {
    step.Change? && step.p in s.procs ==> !s.procs[step.p].raced
  }

  function Exec(s: Sys, steps: seq<Step>): Option<Sys> {
    if steps == [] then Some(s)
    else
      var before, last := Exec(s, steps[..|steps| - 1]), steps[|steps| - 1];
      if before.Some? && Enabled(before.value, last) then Some(Do(before.value, last)) else None
  }

  /** A run from an empty directory. */
  predicate Runs(steps: seq<Step>) {
    && Exec(Empty, steps).Some?
    && forall i | 0 <= i < |steps| ::
         Exec(Empty, steps[..i]).Some? ==> Fresh(Exec(Empty, steps[..i]).value, steps[i])
  }

  function Final(steps: seq<Step>): Sys
    requires Runs(steps)
  {
    Exec(Empty, steps).value
  }

  // ---- Invariant --------------------------------------------------------------------

  predicate Increasing(idx: seq<nat>) {
    forall i, j | 0 <= i < j < |idx| :: idx[i] < idx[j]
  }

  predicate Below(idx: seq<nat>, n: nat) {
    forall i | 0 <= i < |idx| :: idx[i] < n
  }

  /** A state of the store that some subsequence of the history explains. */
  predicate Explains(history: seq<Op>, n: nat, idx: seq<nat>, d: Data) {
    n <= |history| && Increasing(idx) && Below(idx, n) && d == Fold(history, idx)
  }

  /** The lock holder that has not yet changed its memory: its operation is the
      newest in history and in nobody's state. */
  predicate Pending(s: Sys) {
    s.lock.Some? && s.lock.value in s.procs && s.procs[s.lock.value].phase in {Locked, Refreshed}
  }

  function Bound(s: Sys): nat {
    if Pending(s) && s.history != [] then |s.history| - 1 else |s.history|
  }

  predicate Explained(s: Sys, idx: seq<nat>, d: Data) {
    Explains(s.history, Bound(s), idx, d)
  }

  /** What a process of each phase knows; n operations have taken the lock. */
  predicate InPhase(file: Option<File>, lock: Option<nat>, n: nat, p: nat, q: Proc) {
    && (q.stamp.Some? ==> file.Some? && q.stamp.value <= file.value.stamp)
    // In step with the file: it has everything the file has.
    && (q.phase != Loaded && !q.raced && q.stamp == StampOf(file) ==> FileApplied(file) <= q.applied)
    && (q.raced ==> !q.phase.Loaded? && |q.applied| < |FileApplied(file)|)
    && (q.phase == Loaded ==>
          && (q.loadedStamp.Some? ==> file.Some? && q.loadedStamp.value <= file.value.stamp)
          && (q.loadedStamp == StampOf(file) ==> FileApplied(file) == q.applied)
          && (q.loadedStamp != StampOf(file) ==> |q.applied| < |FileApplied(file)|))
    && (Busy(q) ==> lock == Some(p) && n > 0)
    && (q.phase.Refreshed? || q.phase.Changed? ==> q.stamp == StampOf(file))
    && (q.phase.Changed? ==> |q.applied| > |FileApplied(file)|)
    && (q.phase.Changed? || q.phase.Written? || q.phase.Stamped? ==> n - 1 in q.applied)
    && (q.phase.Written? || q.phase.Stamped? ==> file.Some? && file.value.applied == q.applied)
  }

  predicate Busy(q: Proc) { !q.phase.Loaded? && !q.phase.Ready? }

  predicate Phases(s: Sys) {
    && (s.file.Some? ==> s.file.value.stamp < s.nextStamp)
    && (s.lock.Some? ==> s.lock.value in s.procs && Busy(s.procs[s.lock.value]))
    && (forall p | p in s.procs :: InPhase(s.file, s.lock, |s.history|, p, s.procs[p]))
  }

  /** The file holds every operation that returned success, and so does the
      backup. */
  predicate Acknowledged(s: Sys) {
    && (forall n | n in s.done :: n in FileApplied(s.file))
    && (s.done != {} ==> s.backup.Some?)
    && (s.backup.Some? ==> forall n | n in s.done :: n in s.backup.value.applied)
  }

  predicate AllExplained(s: Sys) {
    && Explained(s, FileApplied(s.file), FileData(s.file))
    && (s.backup.Some? ==> Explained(s, s.backup.value.applied, s.backup.value.data))
    && (forall p | p in s.procs :: Explained(s, s.procs[p].applied, s.procs[p].data))
  }

  predicate Inv(s: Sys) {
    Phases(s) && Acknowledged(s) && AllExplained(s)
  }

  // ---- Each step keeps the invariant ---------------------------------------------------

  lemma {:induction false} FoldExtends(history: seq<Op>, op: Op, idx: seq<nat>)
    requires Below(idx, |history|)
    ensures Below(idx, |history + [op]|) && Fold(history + [op], idx) == Fold(history, idx)
  {
    if idx != [] {
      FoldExtends(history, op, idx[..|idx| - 1]);
    }
  }

  lemma ExplainsLater(history: seq<Op>, op: Op, n: nat, idx: seq<nat>, d: Data)
    requires Explains(history, n, idx, d)
    ensures Explains(history + [op], n, idx, d)
  {
    FoldExtends(history, op, idx);
  }

  lemma ExplainsSnoc(history: seq<Op>, n: nat, idx: seq<nat>, d: Data)
    requires Explains(history, n, idx, d) && n < |history|
    ensures Explains(history, n + 1, idx + [n], Apply(history[n], d))
  {
  }

  /** Two processes are never busy at the same time. */
  lemma OthersIdle(s: Sys, p: nat, i: nat)
    requires Phases(s) && i in s.procs && i != p && (s.lock == None || s.lock == Some(p))
    ensures !Busy(s.procs[i])
  {
    assert InPhase(s.file, s.lock, |s.history|, i, s.procs[i]);
  }

  /** A process that is not busy does not care about the lock. */
  lemma IdleInPhase(file: Option<File>, lock: Option<nat>, lock': Option<nat>, n: nat, n': nat, p: nat, q: Proc)
    requires InPhase(file, lock, n, p, q) && !Busy(q)
    ensures InPhase(file, lock', n', p, q)
  {
  }

  /** Phases after a step of p that leaves the file alone. */
  lemma OneProcMoves(s: Sys, p: nat, s': Sys)
    requires Phases(s) && s'.file == s.file && s'.nextStamp == s.nextStamp
    requires p in s'.procs && s'.procs == s.procs[p := s'.procs[p]]
    requires (s'.lock == s.lock && s'.history == s.history) || s.lock == None || s.lock == Some(p)
    requires InPhase(s'.file, s'.lock, |s'.history|, p, s'.procs[p])
    requires s'.lock == Some(p) ==> Busy(s'.procs[p])
    requires s'.lock == Some(p) || s'.lock == None || (s'.lock == s.lock && s.lock != Some(p))
    ensures Phases(s')
  {
    forall i | i in s'.procs ensures InPhase(s'.file, s'.lock, |s'.history|, i, s'.procs[i]) {
      if i != p {
        assert InPhase(s.file, s.lock, |s.history|, i, s.procs[i]);
        if s.lock == None || s.lock == Some(p) {
          OthersIdle(s, p, i);
          IdleInPhase(s.file, s.lock, s'.lock, |s.history|, |s'.history|, i, s.procs[i]);
        }
      }
    }
  }

  // Phases, step by step.

  lemma OpenPhase(s: Sys, p: nat)
    requires Phases(s) && Enabled(s, Open(p))
    ensures Phases(Do(s, Open(p)))
  {
    OneProcMoves(s, p, Do(s, Open(p)));
  }

  lemma OpenStatPhase(s: Sys, p: nat)
    requires Phases(s) && Enabled(s, OpenStat(p))
    ensures Phases(Do(s, OpenStat(p)))
  {
    assert InPhase(s.file, s.lock, |s.history|, p, s.procs[p]);
    OneProcMoves(s, p, Do(s, OpenStat(p)));
  }

  lemma LockPhase(s: Sys, p: nat, op: Op)
    requires Phases(s) && Enabled(s, Lock(p, op))
    ensures Phases(Do(s, Lock(p, op)))
  {
    assert InPhase(s.file, s.lock, |s.history|, p, s.procs[p]);
    OneProcMoves(s, p, Do(s, Lock(p, op)));
  }

  lemma RefreshPhase(s: Sys, p: nat)
    requires Phases(s) && Enabled(s, Refresh(p))
    ensures Phases(Do(s, Refresh(p)))
  {
    assert InPhase(s.file, s.lock, |s.history|, p, s.procs[p]);
    OneProcMoves(s, p, Do(s, Refresh(p)));
  }

  lemma ReadInPhase(file: Option<File>, lock: Option<nat>, n: nat, p: nat, q: Proc)
    requires InPhase(file, lock, n, p, q) && !q.phase.Loaded?
    ensures InPhase(file, lock, n, p, RefreshProc(file, q))
  {
  }

  lemma ReadPhase(s: Sys, p: nat)
    requires Phases(s) && Enabled(s, Read(p))
    ensures Phases(Do(s, Read(p)))
  {
    assert InPhase(s.file, s.lock, |s.history|, p, s.procs[p]);
    ReadInPhase(s.file, s.lock, |s.history|, p, s.procs[p]);
    OneProcMoves(s, p, Do(s, Read(p)));
  }

  lemma ChangePhase(s: Sys, p: nat)
    requires Phases(s) && Enabled(s, Change(p)) && Fresh(s, Change(p))
    ensures Phases(Do(s, Change(p)))
  {
    var q, n := s.procs[p], |s.history| - 1;
    assert InPhase(s.file, s.lock, |s.history|, p, q);
    assert (q.applied + [n])[|q.applied|] == n;
    OneProcMoves(s, p, Do(s, Change(p)));
  }

  lemma StampPhase(s: Sys, p: nat, ok: bool)
    requires Phases(s) && Enabled(s, Stamp(p, ok))
    ensures Phases(Do(s, Stamp(p, ok)))
  {
    assert InPhase(s.file, s.lock, |s.history|, p, s.procs[p]);
    OneProcMoves(s, p, Do(s, Stamp(p, ok)));
  }

  lemma EndPhase(s: Sys, step: Step)
    requires Phases(s) && Enabled(s, step) && (step.Refuse? || step.WriteFails? || step.Finish?)
    ensures Phases(Do(s, step))
  {
    assert InPhase(s.file, s.lock, |s.history|, step.p, s.procs[step.p]);
    OneProcMoves(s, step.p, Do(s, step));
  }

  lemma CrashPhase(s: Sys, p: nat)
    requires Phases(s) && Enabled(s, Crash(p))
    ensures Phases(Do(s, Crash(p)))
  {
    var s' := Do(s, Crash(p));
    forall i | i in s'.procs ensures InPhase(s'.file, s'.lock, |s'.history|, i, s'.procs[i]) {
      assert InPhase(s.file, s.lock, |s.history|, i, s.procs[i]);
      if s.lock == Some(p) {
        OthersIdle(s, p, i);
        IdleInPhase(s.file, s.lock, s'.lock, |s.history|, |s'.history|, i, s.procs[i]);
      }
    }
  }

  /** A newer file with more in it leaves the processes that are not busy valid. */
  lemma IdleSeesNewFile(file: Option<File>, file': File, lock: Option<nat>, lock': Option<nat>, n: nat, p: nat, q: Proc)
    requires InPhase(file, lock, n, p, q) && !Busy(q)
    requires file.Some? ==> file.value.stamp < file'.stamp
    requires |FileApplied(file)| < |file'.applied|
    ensures InPhase(Some(file'), lock', n, p, q)
  {
  }

  lemma WritePhase(s: Sys, step: Step)
    requires Phases(s) && Enabled(s, step) && (step.Write? || step.WriteUnsynced?)
    ensures Phases(Do(s, step))
    ensures FileApplied(s.file) <= FileApplied(Do(s, step).file)
  {
    var s', p := Do(s, step), step.p;
    assert InPhase(s.file, s.lock, |s.history|, p, s.procs[p]);
    forall i | i in s'.procs ensures InPhase(s'.file, s'.lock, |s'.history|, i, s'.procs[i]) {
      if i != p {
        assert InPhase(s.file, s.lock, |s.history|, i, s.procs[i]);
        OthersIdle(s, p, i);
        IdleSeesNewFile(s.file, s'.file.value, s.lock, s'.lock, |s.history|, i, s.procs[i]);
      }
    }
  }

  lemma StepPhases(s: Sys, step: Step)
    requires Phases(s) && Enabled(s, step) && Fresh(s, step)
    ensures Phases(Do(s, step))
  {
    match step
    case Open(p) => OpenPhase(s, p);
    case OpenStat(p) => OpenStatPhase(s, p);
    case Lock(p, op) => LockPhase(s, p, op);
    case Refresh(p) => RefreshPhase(s, p);
    case Read(p) => ReadPhase(s, p);
    case Change(p) => ChangePhase(s, p);
    case Write(_) => WritePhase(s, step);
    case WriteUnsynced(_) => WritePhase(s, step);
    case Stamp(p, ok) => StampPhase(s, p, ok);
    case Crash(p) => CrashPhase(s, p);
    case _ => EndPhase(s, step);
  }

  /** Files lose nothing that was acknowledged. */
  lemma StepAcknowledges(s: Sys, step: Step)
    requires Phases(s) && Acknowledged(s) && Enabled(s, step)
    ensures Acknowledged(Do(s, step))
  {
    if step.Write? || step.WriteUnsynced? {
      WritePhase(s, step);
      forall n | n in s.done ensures n in FileApplied(Do(s, step).file) {
        assert n in FileApplied(s.file);
      }
    } else if step.Finish? {
      assert InPhase(s.file, s.lock, |s.history|, step.p, s.procs[step.p]);
    }
  }

  // What explains the states, step by step.

  lemma BoundAfter(s: Sys, step: Step)
    requires Phases(s) && Enabled(s, step) && !step.Lock?
    ensures var s' := Do(s, step);
            s'.history == s.history && Bound(s) <= Bound(s') && (step.Change? ==> Bound(s) == |s.history| - 1)
  {
  }

  lemma LockExplains(s: Sys, p: nat, op: Op)
    requires Phases(s) && AllExplained(s) && Enabled(s, Lock(p, op))
    ensures AllExplained(Do(s, Lock(p, op)))
  {
    var s' := Do(s, Lock(p, op));
    assert Bound(s) == Bound(s') == |s.history|;
    forall idx, d | Explained(s, idx, d) ensures Explained(s', idx, d) {
      ExplainsLater(s.history, op, |s.history|, idx, d);
    }
  }

  /** Under a higher bound everything stays explained. */
  lemma ExplainedLater(s: Sys, s': Sys, idx: seq<nat>, d: Data)
    requires Explained(s, idx, d) && s'.history == s.history && Bound(s) <= Bound(s')
    ensures Explained(s', idx, d)
  {
  }

  lemma ChangeAdds(s: Sys, p: nat)
    requires Phases(s) && Enabled(s, Change(p))
    ensures var s', q, n := Do(s, Change(p)), s.procs[p], |s.history| - 1;
            && s'.history == s.history && Bound(s) == n && Bound(s') == n + 1
            && s'.procs[p].applied == q.applied + [n] && s'.procs[p].data == Apply(s.history[n], q.data)
  {
  }

  lemma ChangedIsExplained(s: Sys, p: nat)
    requires Phases(s) && AllExplained(s) && Enabled(s, Change(p))
    ensures var s' := Do(s, Change(p)); Explained(s', s'.procs[p].applied, s'.procs[p].data)
  {
    var q, n, s' := s.procs[p], |s.history| - 1, Do(s, Change(p));
    ChangeAdds(s, p);
    ExplainsSnoc(s.history, n, q.applied, q.data);
    ExplainedAt(s', s.history, n + 1, s'.procs[p].applied, s'.procs[p].data);
  }

  lemma ExplainedAt(s: Sys, history: seq<Op>, n: nat, idx: seq<nat>, d: Data)
    requires s.history == history && Bound(s) == n && Explains(history, n, idx, d)
    ensures Explained(s, idx, d)
  {
  }

  /** Only p has something new, and that is explained. */
  lemma OneMoreExplained(s: Sys, s': Sys, p: nat)
    requires AllExplained(s) && s'.history == s.history && Bound(s) <= Bound(s')
    requires s'.file == s.file && s'.backup == s.backup
    requires p in s'.procs && s'.procs == s.procs[p := s'.procs[p]]
    requires Explained(s', s'.procs[p].applied, s'.procs[p].data)
    ensures AllExplained(s')
  {
    ExplainedLater(s, s', FileApplied(s.file), FileData(s.file));
    if s.backup.Some? {
      ExplainedLater(s, s', s.backup.value.applied, s.backup.value.data);
    }
    forall i | i in s'.procs && i != p ensures Explained(s', s'.procs[i].applied, s'.procs[i].data) {
      ExplainedLater(s, s', s.procs[i].applied, s.procs[i].data);
    }
  }

  lemma ChangeExplains(s: Sys, p: nat)
    requires Phases(s) && AllExplained(s) && Enabled(s, Change(p))
    ensures AllExplained(Do(s, Change(p)))
  {
    BoundAfter(s, Change(p));
    ChangedIsExplained(s, p);
    OneMoreExplained(s, Do(s, Change(p)), p);
  }

  /** A state whose parts are all taken from an explained one. */
  ghost predicate TakenFrom(s: Sys, s': Sys) {
    && s'.history == s.history && Bound(s) <= Bound(s')
    && Known(s, FileApplied(s'.file), FileData(s'.file))
    && (s'.backup.Some? ==> Known(s, s'.backup.value.applied, s'.backup.value.data))
    && (forall p | p in s'.procs :: Known(s, s'.procs[p].applied, s'.procs[p].data))
  }

  /** A pair of operations and data that s holds somewhere. */
  predicate Known(s: Sys, idx: seq<nat>, d: Data) {
    || (idx == FileApplied(s.file) && d == FileData(s.file))
    || (s.backup.Some? && idx == s.backup.value.applied && d == s.backup.value.data)
    || exists p | p in s.procs :: idx == s.procs[p].applied && d == s.procs[p].data
  }

  lemma TakenIsExplained(s: Sys, s': Sys)
    requires AllExplained(s) && TakenFrom(s, s')
    ensures AllExplained(s')
  {
    forall idx, d | Known(s, idx, d) ensures Explained(s', idx, d) {
      assert Explained(s, idx, d);
    }
  }

  lemma StepExplains(s: Sys, step: Step)
    requires Phases(s) && AllExplained(s) && Enabled(s, step)
    ensures AllExplained(Do(s, step))
  {
    if step.Lock? {
      LockExplains(s, step.p, step.op);
    } else if step.Change? {
      ChangeExplains(s, step.p);
    } else {
      BoundAfter(s, step);
      StepTakes(s, step);
      TakenIsExplained(s, Do(s, step));
    }
  }

  lemma StepTakes(s: Sys, step: Step)
    requires Phases(s) && Enabled(s, step) && !step.Lock? && !step.Change?
    requires Bound(s) <= Bound(Do(s, step))
    ensures TakenFrom(s, Do(s, step))
  {
    var s', p := Do(s, step), step.p;
    forall i | i in s'.procs ensures Known(s, s'.procs[i].applied, s'.procs[i].data) {
      if i != p {
        assert s'.procs[i] == s.procs[i];
      }
    }
    if step.Write? || step.WriteUnsynced? || step.Finish? {
      assert Known(s, s.procs[p].applied, s.procs[p].data);
    }
  }

  lemma {:induction false} RunKeeps(steps: seq<Step>)
    requires Runs(steps)
    ensures Inv(Final(steps))
  {
    if steps != [] {
      var init, last := steps[..|steps| - 1], steps[|steps| - 1];
      assert forall i | 0 <= i < |init| :: init[..i] == steps[..i] && init[i] == steps[i];
      RunKeeps(init);
      var s := Final(init);
      assert Fresh(s, last);
      StepPhases(s, last);
      StepAcknowledges(s, last);
      StepExplains(s, last);
    }
  }

  /** Cross-process serializability: in every interleaving, the store file is
      the result of applying, in lock order, a subsequence of the operations
      that contains every one that returned success. */
  lemma Serializable(steps: seq<Step>)
    requires Runs(steps)
    ensures var s := Final(steps);
            && Increasing(FileApplied(s.file)) && Below(FileApplied(s.file), |s.history|)
            && FileData(s.file) == Fold(s.history, FileApplied(s.file))
            && (forall n | n in s.done :: n in FileApplied(s.file))
  {
    RunKeeps(steps);
  }

  /** When an open is in step with the file: exactly when nobody replaced the
      file between its load and its Stat. */
  lemma OpenInStep(steps: seq<Step>, p: nat)
    requires Runs(steps) && Enabled(Final(steps), OpenStat(p))
    ensures var s := Final(steps);
            var q := Do(s, OpenStat(p)).procs[p];
            FileApplied(s.file) <= q.applied <==> s.procs[p].loadedStamp == StampOf(s.file)
  {
    RunKeeps(steps);
    var s := Final(steps);
    assert InPhase(s.file, s.lock, |s.history|, p, s.procs[p]);
  }

  /** And when a writer works on what is in the file: exactly when its open did not
      race another writer, or it has reloaded since. */
  lemma WriterInStep(steps: seq<Step>, p: nat)
    requires Runs(steps) && Holds(Final(steps), p, Refreshed)
    ensures var s := Final(steps);
            FileApplied(s.file) <= s.procs[p].applied <==> !s.procs[p].raced
  {
    RunKeeps(steps);
    var s := Final(steps);
    assert InPhase(s.file, s.lock, |s.history|, p, s.procs[p]);
  }

  // ---- The open that races a writer -----------------------------------------------------

  lemma Push(steps: seq<Step>, s: Sys, step: Step) returns (steps': seq<Step>, s': Sys)
    requires Exec(Empty, steps) == Some(s) && Enabled(s, step)
    ensures steps' == steps + [step] && s' == Do(s, step) && Exec(Empty, steps') == Some(s')
  {
    steps', s' := steps + [step], Do(s, step);
    assert steps'[..|steps|] == steps;
  }

  lemma PushChange(steps: seq<Step>, s: Sys, p: nat, k: string, v: string) returns (steps': seq<Step>, s': Sys)
    requires Exec(Empty, steps) == Some(s) && At(s, p, Ready) && s.lock == None
    requires s.procs[p].stamp == StampOf(s.file)
    ensures Exec(Empty, steps') == Some(s')
    ensures var q, n := s.procs[p], |s.history|;
            var q' := q.(data := q.data[k := v], applied := q.applied + [n], phase := Changed);
            s' == s.(procs := s.procs[p := q'], lock := Some(p), history := s.history + [Put(k, v)])
  {
    steps', s' := Push(steps, s, Lock(p, Put(k, v)));
    steps', s' := Push(steps', s', Refresh(p));
    assert s'.procs == s.procs[p := s.procs[p].(phase := Refreshed)];
    steps', s' := Push(steps', s', Change(p));
    var q := s.procs[p];
    assert s'.procs == s.procs[p := q.(data := q.data[k := v], applied := q.applied + [|s.history|], phase := Changed)];
  }

  lemma PushFlush(steps: seq<Step>, s: Sys, p: nat) returns (steps': seq<Step>, s': Sys)
    requires Exec(Empty, steps) == Some(s) && Holds(s, p, Changed)
    ensures Exec(Empty, steps') == Some(s')
    ensures var q := s.procs[p];
            s' == s.(file := Some(File(s.nextStamp, q.data, q.applied)), backup := Some(Copy(q.data, q.applied)),
                     procs := s.procs[p := q.(stamp := Some(s.nextStamp), phase := Ready)],
                     lock := None, done := s.done + {|s.history| - 1}, nextStamp := s.nextStamp + 1)
  {
    var q := s.procs[p];
    var f := Some(File(s.nextStamp, q.data, q.applied));
    var written := s.(file := f, procs := s.procs[p := q.(phase := Written)], nextStamp := s.nextStamp + 1);
    steps', s' := Push(steps, s, Write(p));
    assert s' == written;
    steps', s' := Push(steps', written, Stamp(p, true));
    var q2 := q.(stamp := Some(s.nextStamp), phase := Stamped);
    assert written.procs[p := q2] == s.procs[p := q2];
    var stamped := written.(procs := s.procs[p := q2]);
    assert s' == stamped;
    steps', s' := Push(steps', stamped, Finish(p, Replaced));
    assert stamped.procs[p := q2.(phase := Ready)] == s.procs[p := q.(stamp := Some(s.nextStamp), phase := Ready)];
  }

  /** A whole successful put by a process that is in step with the file. */
  lemma PushPut(steps: seq<Step>, s: Sys, p: nat, k: string, v: string) returns (steps': seq<Step>, s': Sys)
    requires Exec(Empty, steps) == Some(s) && At(s, p, Ready) && s.lock == None
    requires s.procs[p].stamp == StampOf(s.file)
    ensures Exec(Empty, steps') == Some(s')
    ensures var q, n := s.procs[p], |s.history|;
            var d, idx := q.data[k := v], q.applied + [n];
            && s'.file == Some(File(s.nextStamp, d, idx))
            && s'.procs == s.procs[p := q.(data := d, applied := idx, stamp := Some(s.nextStamp))]
            && s'.lock == None && s'.history == s.history + [Put(k, v)]
            && s'.done == s.done + {n} && s'.nextStamp == s.nextStamp + 1
  {
    steps', s' := PushChange(steps, s, p, k, v);
    steps', s' := PushFlush(steps', s', p);
    var q := s.procs[p];
    var q' := q.(data := q.data[k := v], applied := q.applied + [|s.history|], stamp := Some(s.nextStamp));
    assert s'.procs == s.procs[p := q'];
  }

  /** Without that condition the property fails: process 2 loads, process 1
      writes and succeeds, process 2 takes the new stamp for its old data, and
      its own write then erases the successful one. */
  lemma RacedOpenLosesAnUpdate() returns (steps: seq<Step>)
    ensures Exec(Empty, steps).Some?
    ensures var s := Exec(Empty, steps).value;
            0 in s.done && 0 !in FileApplied(s.file) && "a" !in FileData(s.file)
  {
    var s := Empty;
    steps := [];
    steps, s := Push(steps, s, Open(1));
    steps, s := Push(steps, s, OpenStat(1));
    steps, s := Push(steps, s, Open(2));
    steps, s := PushPut(steps, s, 1, "a", "1");
    steps, s := Push(steps, s, OpenStat(2));
    steps, s := PushPut(steps, s, 2, "b", "2");
    assert FileData(s.file) == map["b" := "2"];
    assert FileApplied(s.file) == [1];
  }

  // ---- Crash recovery ------------------------------------------------------------------

  /** A store file as load finds it; Bad is truncated or undecodable, and Special is
      something that is not a regular file. */
  datatype Image = Missing | Bad | Special | Good(data: Data)

  datatype Disk = Disk(primary: Image, backup: Image)

  datatype LoadResult = LoadedAs(data: Data) | LoadError

  /** load: the primary if it can be read, else the backup, else an empty store
      if neither exists. */
  function Load(d: Disk): LoadResult {
    if d.primary.Good? then LoadedAs(d.primary.data)
    else if d.backup.Good? then LoadedAs(d.backup.data)
    else if d.primary.Missing? && d.backup.Missing? then LoadedAs(map[])
    else LoadError
  }

  /** load also restores the primary from the backup. */
  function AfterLoad(d: Disk): Disk {
    if !d.primary.Good? && d.backup.Good? then d.(primary := d.backup) else d
  }

  datatype Stage = NothingWritten | PrimaryWritten | BackupWritten

  /** flush, stopped after some of its two atomic file replacements. */
  function Flush(d: Disk, data: Data, stage: Stage): Disk {
    match stage
    case NothingWritten => d
    case PrimaryWritten => d.(primary := Good(data))
    case BackupWritten => Disk(Good(data), Good(data))
  }

  /** Stopping flush anywhere and loading yields the state before or after. */
  lemma CrashRecovers(d: Disk, before: Data, after: Data, stage: Stage)
    requires Load(d) == LoadedAs(before)
    ensures Load(Flush(d, after, stage)) == LoadedAs(if stage.NothingWritten? then before else after)
    ensures Load(AfterLoad(Flush(d, after, stage))) == Load(Flush(d, after, stage))
  {
  }

  /** If the primary is then lost or damaged, loading still yields one of the
      two exactly when the backup was not already behind. */
  lemma DamageRecovers(d: Disk, before: Data, after: Data, stage: Stage, damage: Image)
    requires Load(d) == LoadedAs(before) && !damage.Good?
    ensures var r := Load(Flush(d, after, stage).(primary := damage));
            r in {LoadedAs(before), LoadedAs(after)} <==>
              || stage.BackupWritten?
              || (d.backup.Good? && d.backup.data in {before, after})
              || (d.backup.Missing? && damage.Missing? && map[] in {before, after})
  {
  }

  function BackupImage(backup: Option<Copy>): Image { if backup.Some? then Good(backup.value.data) else Missing }

  /** Losing the primary never loses an acknowledged update: in every run, what
      load then finds in the backup is a fold, in lock order, of operations among
      which is every one that returned success. */
  lemma LostPrimaryKeepsAcknowledged(steps: seq<Step>, damage: Image)
    requires Runs(steps) && !damage.Good?
    ensures var s := Final(steps);
            if s.backup.Some? then
              var idx := s.backup.value.applied;
              && Increasing(idx) && Below(idx, |s.history|)
              && Load(Disk(damage, BackupImage(s.backup))) == LoadedAs(Fold(s.history, idx))
              && forall n | n in s.done :: n in idx
            else s.done == {}
  {
    RunKeeps(steps);
  }

  datatype Try = Try(data: Data, stage: Stage)

  /** Several flushes, each stopped at some stage. */
  function Flushes(d: Disk, tries: seq<Try>): Disk {
    if tries == [] then d
    else
      var t := tries[|tries| - 1];
      Flush(Flushes(d, tries[..|tries| - 1]), t.data, t.stage)
  }

  /** The newest update that reached the backup, or the primary. */
  function LastWith(tries: seq<Try>, backup: bool): Image {
    if tries == [] then Missing
    else
      var t := tries[|tries| - 1];
      if t.stage.BackupWritten? || (t.stage.PrimaryWritten? && !backup) then Good(t.data)
      else LastWith(tries[..|tries| - 1], backup)
  }

  /** After any sequence of stopped flushes, the backup holds the last update
      whose flush completed and the primary the last one that was written. */
  lemma {:induction false} BackupIsLastCompleted(tries: seq<Try>)
    ensures Flushes(Disk(Missing, Missing), tries) == Disk(LastWith(tries, false), LastWith(tries, true))
  {
    if tries != [] {
      BackupIsLastCompleted(tries[..|tries| - 1]);
    }
  }

  /** Two flushes in a row that stop before the backup leave a backup that is
      two updates old, so a lost primary is then not recoverable to either
      side of the last update. */
  lemma TwoStopsLoseTheBackup(a: Data, b: Data, c: Data)
    requires a != b && a != c
    ensures var d := Flushes(Disk(Missing, Missing),
                             [Try(a, BackupWritten), Try(b, PrimaryWritten), Try(c, PrimaryWritten)]);
            Load(d) == LoadedAs(c) && Load(d.(primary := Missing)) !in {LoadedAs(b), LoadedAs(c)}
  {
    var t := [Try(a, BackupWritten), Try(b, PrimaryWritten), Try(c, PrimaryWritten)];
    BackupIsLastCompleted(t);
    assert t[..2][..1] == [Try(a, BackupWritten)];
    assert LastWith(t[..2], true) == LastWith(t[..2][..1], true) == Good(a);
  }
}
