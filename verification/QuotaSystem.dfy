/** Runs of the quota system: any number of changes in flight, re-measurement in
    its separate steps, limits changed at any time, and files changed outside
    the server. */
module QuotaSystem {
  import opened Text
  import opened Quota
  import opened QuotaRun
  import opened Sums

  /** A storage walk in progress (refresh between its two critical sections). It
      lists the directory once and then looks at one entry at a time. */
  datatype Walk = Walk(gen: nat, stuck: bool, ext: nat, moves: nat, wasMeasured: bool,
                       listed: bool, todo: seq<Path>, bytes: int, files: int)

  /** ext counts changes made outside the server and moves the steps of changes
      made by it; exact says that the tracker is known to agree with storage.
      handed says that some ForUser call has returned the tracker to a session. */
  datatype Sys = Sys(t: Figures, st: Storage, ops: map<nat, Op>, walk: Option<Walk>,
                     handed: bool, ext: nat, moves: nat, exact: bool)

  datatype Step =
    | BeginOp(i: nat, op: Op)
    | MoveOp(i: nat)
    | EndOp(i: nat)                        // Close, Release, or the end of a call
    | SetLimits(maxStorage: int, maxFiles: int)
    | HandOut                              // ForUser returns without a walk
    | WalkStart(stuck: bool)               // refresh: snapshot
    | WalkList(todo: seq<Path>)
    | WalkVisit
    | WalkCommit                           // refresh: adopt or discard
    | WalkFail                             // the walk returned an error
    | Outside(st: Storage)                 // files changed outside the server

  /** A step of a change to the files. */
  predicate IsChange(step: Step) { step.BeginOp? || step.MoveOp? || step.EndOp? }

  predicate Starts(op: Op) { op.Opening? || op.Removing? || op.Renaming? }

  predicate Ends(op: Op) { op.Finished? || (op.Handle? && op.io.Idle?) }

  predicate Distinct(ps: seq<Path>) {
    forall i, j | 0 <= i < j < |ps| :: ps[i] != ps[j]
  }

  ghost predicate Lists(todo: seq<Path>, st: Storage) {
    Distinct(todo) && forall p :: p in todo <==> p in st
  }

  predicate Adopts(t: Figures, w: Walk) {
    MayAdopt(t, w.gen, w.stuck)
  }

  ghost predicate Begins(s: Sys, i: nat, op: Op, s': Sys) {
    && s.handed && i !in s.ops && Starts(op)
    && (forall j | j in s.ops :: Paths(s.ops[j]) !! Paths(op))    // disjoint paths
    && s' == s.(t := Begin(s.t), ops := s.ops[i := op], moves := s.moves + 1)
  }

  ghost predicate Moves(s: Sys, i: nat, s': Sys) {
    && i in s.ops && i in s'.ops
    && OpStep(s.t, s.st, s.ops[i], s'.t, s'.st, s'.ops[i])
    && s' == s.(t := s'.t, st := s'.st, ops := s.ops[i := s'.ops[i]], moves := s.moves + 1,
                exact := s.exact && !Missed(s.st, s.ops[i], s'.st, s'.ops[i]))
  }

  predicate Finishes(s: Sys, i: nat, s': Sys) {
    i in s.ops && Ends(s.ops[i]) && s' == s.(t := End(s.t), ops := s.ops - {i}, moves := s.moves + 1)
  }

  predicate Snapshots(s: Sys, stuck: bool, s': Sys) {
    && s.walk.None? && (s.t.measured ==> s.t.inflight == 0 || stuck) && (stuck ==> s.t.inflight > 0)
    && s' == s.(walk := Some(Walk(s.t.gen, stuck, s.ext, s.moves, s.t.measured, false, [], 0, 0)))
  }

  ghost predicate ListsFiles(s: Sys, todo: seq<Path>, s': Sys) {
    && s.walk.Some? && !s.walk.value.listed && Lists(todo, s.st)
    && s' == s.(walk := Some(s.walk.value.(listed := true, todo := todo)))
  }

  predicate Visits(s: Sys, s': Sys) {
    && s.walk.Some? && s.walk.value.todo != []
    && var w := s.walk.value;
       var p := w.todo[0];
       var w' := w.(todo := w.todo[1..]);
       s' == s.(walk := Some(
                  if p in s.st then w'.(bytes := w.bytes + s.st[p], files := w.files + 1) else w'))
  }

  predicate Commits(s: Sys, s': Sys) {
    && s.walk.Some? && s.walk.value.listed && s.walk.value.todo == []
    && var w := s.walk.value;
       s' == if Adopts(s.t, w)
             then s.(t := s.t.(usedBytes := w.bytes, usedFiles := w.files, measured := true),
                     walk := None, handed := true, exact := !w.stuck && w.ext == s.ext)
             else s.(walk := None, handed := true)
  }

  predicate GivesUp(s: Sys, s': Sys) {
    s.walk.Some? && s' == s.(walk := None, handed := s.handed || s.walk.value.wasMeasured)
  }

  ghost predicate Disturbs(s: Sys, st: Storage, s': Sys) {
    && (forall i, p | i in s.ops && p in Paths(s.ops[i]) ::
          (p in st <==> p in s.st) && (p in st ==> st[p] == s.st[p]))
    && s' == s.(st := st, ext := s.ext + 1, exact := false)
  }

  ghost predicate Next(s: Sys, step: Step, s': Sys) {
    match step
    case BeginOp(i, op) => Begins(s, i, op, s')
    case MoveOp(i) => Moves(s, i, s')
    case EndOp(i) => Finishes(s, i, s')
    case SetLimits(b, f) => s' == s.(t := s.t.(maxStorage := b, maxFiles := f))
    case HandOut => s.t.measured && s' == s.(handed := true)
    case WalkStart(stuck) => Snapshots(s, stuck, s')
    case WalkList(todo) => ListsFiles(s, todo, s')
    case WalkVisit => Visits(s, s')
    case WalkCommit => Commits(s, s')
    case WalkFail => GivesUp(s, s')
    case Outside(st) => Disturbs(s, st, s')
  }

  predicate Initial(s: Sys) {
    && s.t == Figures(0, 0, s.t.maxStorage, s.t.maxFiles, 0, 0, false)
    && s.ops == map[] && s.walk == None && !s.handed && s.ext == 0 && s.moves == 0 && !s.exact
  }

  /** A run: the states it goes through and the steps between them. */
  ghost predicate Run(trace: seq<Sys>, steps: seq<Step>) {
    && |trace| == |steps| + 1 && Initial(trace[0])
    && forall k | 0 <= k < |steps| :: Next(trace[k], steps[k], trace[k + 1])
  }

  // ---- Invariant -------------------------------------------------------------------

  ghost function AllBytes(ops: map<nat, Op>): map<nat, int> {
    map i | i in ops :: PendingBytes(ops[i])
  }

  ghost function AllFiles(ops: map<nat, Op>): map<nat, int> {
    map i | i in ops :: PendingFiles(ops[i])
  }

  /** Conservation: what the tracker counts is what is stored, plus growth that
      is reserved and not yet written, plus what is removed and not yet
      released. */
  ghost predicate Conserved(s: Sys) {
    && s.t.usedBytes == Sum(s.st) + Sum(AllBytes(s.ops))
    && s.t.usedFiles == |s.st| + Sum(AllFiles(s.ops))
  }

  ghost function SumOf(st: Storage, todo: seq<Path>): int {
    if todo == [] then 0 else (if todo[0] in st then st[todo[0]] else 0) + SumOf(st, todo[1..])
  }

  /** Nothing has changed since the walk took its snapshot. */
  predicate Undisturbed(s: Sys, w: Walk) {
    w.moves == s.moves && w.ext == s.ext
  }

  ghost predicate WalkOk(s: Sys, w: Walk) {
    && w.gen <= s.t.gen && w.ext <= s.ext && w.moves <= s.moves
    && (!s.t.measured ==> w.gen == s.t.gen && !w.stuck)
    && (w.wasMeasured ==> s.t.measured)
    && (!w.stuck && w.gen == s.t.gen ==> s.ops == map[] && w.moves == s.moves)
    && (!w.listed ==> w.bytes == 0 && w.files == 0 && w.todo == [])
    && (w.listed && Undisturbed(s, w) ==>
          && w.bytes + SumOf(s.st, w.todo) == Sum(s.st)
          && w.files + |w.todo| == |s.st|
          && forall p | p in w.todo :: p in s.st)
  }

  ghost predicate Inv(s: Sys) {
    && s.t.inflight == |s.ops|
    && (forall i, j | i in s.ops && j in s.ops && i != j :: Paths(s.ops[i]) !! Paths(s.ops[j]))
    && (forall i | i in s.ops :: Knows(s.ops[i], s.st))
    && (s.handed ==> s.t.measured)
    && (!s.handed ==> s.ops == map[])
    && (s.exact ==> Conserved(s) && s.t.measured)
    && (s.walk.Some? ==> WalkOk(s, s.walk.value))
  }

  // ---- Sums over the changes in flight -------------------------------------------------

  lemma PendingMapsUpdate(ops: map<nat, Op>, i: nat, op: Op)
    ensures AllBytes(ops[i := op]) == AllBytes(ops)[i := PendingBytes(op)]
    ensures AllFiles(ops[i := op]) == AllFiles(ops)[i := PendingFiles(op)]
  {
  }

  lemma PendingMapsRemove(ops: map<nat, Op>, i: nat)
    ensures AllBytes(ops - {i}) == AllBytes(ops) - {i}
    ensures AllFiles(ops - {i}) == AllFiles(ops) - {i}
  {
  }

  lemma PendingUpdate(ops: map<nat, Op>, i: nat, op: Op)
    ensures Sum(AllBytes(ops[i := op])) ==
            Sum(AllBytes(ops)) + PendingBytes(op) - (if i in ops then PendingBytes(ops[i]) else 0)
    ensures Sum(AllFiles(ops[i := op])) ==
            Sum(AllFiles(ops)) + PendingFiles(op) - (if i in ops then PendingFiles(ops[i]) else 0)
  {
    PendingMapsUpdate(ops, i, op);
    SumUpdate(AllBytes(ops), i, PendingBytes(op));
    SumUpdate(AllFiles(ops), i, PendingFiles(op));
  }

  lemma PendingRemove(ops: map<nat, Op>, i: nat)
    requires i in ops
    ensures Sum(AllBytes(ops - {i})) == Sum(AllBytes(ops)) - PendingBytes(ops[i])
    ensures Sum(AllFiles(ops - {i})) == Sum(AllFiles(ops)) - PendingFiles(ops[i])
    ensures |ops - {i}| == |ops| - 1
  {
    PendingMapsRemove(ops, i);
    SumRemove(AllBytes(ops), i);
    SumRemove(AllFiles(ops), i);
    assert (ops - {i}).Keys == ops.Keys - {i};
  }

  /** The tracker counts at least what is pending for each change, so the clamp
      at zero never cuts a release short. */
  lemma NoClamp(s: Sys, i: nat)
    requires Conserved(s) && i in s.ops
    ensures PendingBytes(s.ops[i]) <= s.t.usedBytes
    ensures PendingFiles(s.ops[i]) <= s.t.usedFiles
  {
    SumNonNegative(s.st);
    SumNonNegative(AllBytes(s.ops));
    SumNonNegative(AllFiles(s.ops));
    assert AllBytes(s.ops)[i] == PendingBytes(s.ops[i]);
    assert AllFiles(s.ops)[i] == PendingFiles(s.ops[i]);
  }

  // ---- Each step keeps the invariant ---------------------------------------------------

  lemma KnowsElsewhere(op: Op, st: Storage, st': Storage)
    requires Knows(op, st)
    requires forall p | p in Paths(op) :: (p in st' <==> p in st) && (p in st ==> st'[p] == st[p])
    ensures Knows(op, st')
  {
    if op.RemoveReady? {
      assert Restrict(st', op.seen) == Restrict(st, op.seen);
    }
  }

  lemma MoveKeepsPaths(s: Sys, i: nat, s': Sys)
    requires Inv(s) && Moves(s, i, s') && Paths(s'.ops[i]) == Paths(s.ops[i])
    ensures |s'.ops| == |s.ops|
    ensures forall a, b | a in s'.ops && b in s'.ops && a != b :: Paths(s'.ops[a]) !! Paths(s'.ops[b])
  {
    assert s'.ops.Keys == s.ops.Keys;
    forall a | a in s'.ops ensures Paths(s'.ops[a]) == Paths(s.ops[a]) {
    }
  }

  lemma MoveKeepsOps(s: Sys, i: nat, s': Sys)
    requires Inv(s) && Moves(s, i, s')
    ensures Framed(s.t, s.st, s.ops[i], s'.t, s'.st, s'.ops[i])
    ensures forall a | a in s'.ops :: Knows(s'.ops[a], s'.st)
  {
    OpStepFramed(s.t, s.st, s.ops[i], s'.t, s'.st, s'.ops[i]);
    forall a | a in s'.ops ensures Knows(s'.ops[a], s'.st) {
      if a != i {
        assert s'.ops[a] == s.ops[a];
        KnowsElsewhere(s.ops[a], s.st, s'.st);
      }
    }
  }

  /** A step of a change keeps the books if and only if the code knew what it was
      doing. */
  lemma MoveConserves(s: Sys, i: nat, s': Sys)
    requires Conserved(s) && i in s.ops && Knows(s.ops[i], s.st) && Moves(s, i, s')
    ensures Conserved(s') <==> !Missed(s.st, s.ops[i], s'.st, s'.ops[i])
  {
    NoClamp(s, i);
    OpStepBalanced(s.t, s.st, s.ops[i], s'.t, s'.st, s'.ops[i]);
    PendingUpdate(s.ops, i, s'.ops[i]);
  }

  lemma MoveKeeps(s: Sys, i: nat, s': Sys)
    requires Inv(s) && Moves(s, i, s')
    ensures Inv(s')
  {
    MoveKeepsOps(s, i, s');
    MoveKeepsPaths(s, i, s');
    if s.exact {
      MoveConserves(s, i, s');
    }
    assert i in s.ops;
  }

  lemma BeginKeeps(s: Sys, i: nat, op: Op, s': Sys)
    requires Inv(s) && Begins(s, i, op, s')
    ensures Inv(s')
  {
    BeginBooks(s, i, op, s');
    forall a, b | a in s'.ops && b in s'.ops && a != b ensures Paths(s'.ops[a]) !! Paths(s'.ops[b]) {
      assert a != i ==> s'.ops[a] == s.ops[a];
      assert b != i ==> s'.ops[b] == s.ops[b];
    }
  }

  /** A change begins with nothing pending. */
  lemma BeginBooks(s: Sys, i: nat, op: Op, s': Sys)
    requires Begins(s, i, op, s')
    ensures |s'.ops| == |s.ops| + 1
    ensures Conserved(s) ==> Conserved(s')
  {
    assert s'.ops.Keys == s.ops.Keys + {i};
    NothingAdded(s.ops, i, op);
  }

  /** A change with nothing pending adds nothing to what is pending. */
  lemma NothingAdded(ops: map<nat, Op>, i: nat, op: Op)
    requires i !in ops && Starts(op)
    ensures Sum(AllBytes(ops[i := op])) == Sum(AllBytes(ops))
    ensures Sum(AllFiles(ops[i := op])) == Sum(AllFiles(ops))
  {
    assert PendingBytes(op) == 0 && PendingFiles(op) == 0;
    PendingUpdate(ops, i, op);
  }

  lemma EndKeeps(s: Sys, i: nat, s': Sys)
    requires Inv(s) && Finishes(s, i, s')
    ensures Inv(s')
  {
    EndBooks(s, i, s');
    forall a | a in s'.ops ensures s'.ops[a] == s.ops[a] && Knows(s'.ops[a], s'.st) {
    }
  }

  /** A change ends with nothing pending. */
  lemma EndBooks(s: Sys, i: nat, s': Sys)
    requires Finishes(s, i, s')
    ensures |s'.ops| == |s.ops| - 1
    ensures Conserved(s) ==> Conserved(s')
  {
    assert PendingBytes(s.ops[i]) == 0 && PendingFiles(s.ops[i]) == 0;
    PendingRemove(s.ops, i);
  }

  lemma {:induction false} SumOfListing(st: Storage, todo: seq<Path>)
    requires Lists(todo, st)
    ensures SumOf(st, todo) == Sum(st) && |todo| == |st|
  {
    if todo == [] {
      assert st == map[];
    } else {
      var p, st' := todo[0], st - {todo[0]};
      assert p in st;
      SumRemoveSize(st, p);
      assert Lists(todo[1..], st');
      SumOfListing(st', todo[1..]);
      SumOfElsewhere(st, p, todo[1..]);
    }
  }

  lemma {:induction false} SumOfElsewhere(st: Storage, p: Path, todo: seq<Path>)
    requires p !in todo
    ensures SumOf(st - {p}, todo) == SumOf(st, todo)
  {
    if todo != [] {
      SumOfElsewhere(st, p, todo[1..]);
    }
  }

  lemma SnapshotKeeps(s: Sys, stuck: bool, s': Sys)
    requires Inv(s) && Snapshots(s, stuck, s')
    ensures Inv(s')
  {
    assert s.t.inflight == 0 ==> s.ops == map[];
  }

  lemma ListKeeps(s: Sys, todo: seq<Path>, s': Sys)
    requires Inv(s) && ListsFiles(s, todo, s')
    ensures Inv(s')
  {
    SumOfListing(s.st, todo);
  }

  lemma VisitKeeps(s: Sys, s': Sys)
    requires Inv(s) && Visits(s, s')
    ensures Inv(s')
  {
    var w, w' := s.walk.value, s'.walk.value;
    if w.listed && Undisturbed(s, w) {
      assert w.todo[0] in s.st;
      assert forall p | p in w'.todo :: p in w.todo;
    }
  }

  /** What an adopted walk outside the stuck case finds. */
  lemma AdoptedWalk(s: Sys)
    requires Inv(s) && s.walk.Some? && s.walk.value.listed && s.walk.value.todo == []
    requires Adopts(s.t, s.walk.value) && !s.walk.value.stuck
    ensures s.ops == map[] && s.walk.value.moves == s.moves
    ensures s.walk.value.ext == s.ext ==>
              s.walk.value.bytes == Sum(s.st) && s.walk.value.files == |s.st|
  {
  }

  lemma {:induction false} SumOfZeros<K>(m: map<K, int>)
    requires forall k | k in m :: m[k] == 0
    ensures Sum(m) == 0
    decreases |m|
  {
    if k :| k in m {
      SumRemove(m, k);
      assert |(m - {k}).Keys| == |m.Keys - {k}|;
      SumOfZeros(m - {k});
    }
  }

  lemma CommitKeeps(s: Sys, s': Sys)
    requires Inv(s) && Commits(s, s')
    ensures Inv(s')
  {
    if Adopts(s.t, s.walk.value) && !s.walk.value.stuck {
      AdoptedWalk(s);
      assert AllBytes(map[]) == map[] && AllFiles(map[]) == map[];
    }
  }

  lemma OutsideKeeps(s: Sys, st: Storage, s': Sys)
    requires Inv(s) && Disturbs(s, st, s')
    ensures Inv(s')
  {
    forall i | i in s'.ops ensures Knows(s'.ops[i], s'.st) {
      KnowsElsewhere(s.ops[i], s.st, st);
    }
  }

  lemma ChangeStepKeeps(s: Sys, step: Step, s': Sys)
    requires Inv(s) && Next(s, step, s') && IsChange(step)
    ensures Inv(s')
  {
    match step
    case BeginOp(i, op) => BeginKeeps(s, i, op, s');
    case MoveOp(i) => MoveKeeps(s, i, s');
    case EndOp(i) => EndKeeps(s, i, s');
  }

  lemma WalkStepKeeps(s: Sys, step: Step, s': Sys)
    requires Inv(s) && Next(s, step, s')
    requires step.WalkStart? || step.WalkList? || step.WalkVisit? || step.WalkCommit? || step.WalkFail?
    ensures Inv(s')
  {
    match step
    case WalkStart(stuck) => SnapshotKeeps(s, stuck, s');
    case WalkList(todo) => ListKeeps(s, todo, s');
    case WalkVisit => VisitKeeps(s, s');
    case WalkCommit => CommitKeeps(s, s');
    case WalkFail =>
  }

  lemma StepKeeps(s: Sys, step: Step, s': Sys)
    requires Inv(s) && Next(s, step, s')
    ensures Inv(s')
  {
    if IsChange(step) {
      ChangeStepKeeps(s, step, s');
    } else {
      match step
      case SetLimits(_, _) =>
      case HandOut =>
      case Outside(st) => OutsideKeeps(s, st, s');
      case _ => WalkStepKeeps(s, step, s');
    }
  }

  /** What holds at the start and is kept by every step holds throughout. */
  lemma {:induction false} HoldsThroughout(next: (Sys, Step, Sys) -> bool, good: Sys -> bool,
                                           trace: seq<Sys>, steps: seq<Step>, k: nat)
    requires |trace| == |steps| + 1 && k <= |steps| && good(trace[0])
    requires forall i | 0 <= i < |steps| :: next(trace[i], steps[i], trace[i + 1])
    requires forall s, l, s' {:trigger next(s, l, s')} | next(s, l, s') && good(s) :: good(s')
    ensures good(trace[k])
  {
    if k > 0 {
      HoldsThroughout(next, good, trace, steps, k - 1);
      assert next(trace[k - 1], steps[k - 1], trace[k - 1 + 1]);
    }
  }

  lemma RunKeeps(trace: seq<Sys>, steps: seq<Step>, k: nat)
    requires Run(trace, steps) && k <= |steps|
    ensures Inv(trace[k])
  {
    forall s, l, s' | Next(s, l, s') && Inv(s) ensures Inv(s') {
      StepKeeps(s, l, s');
    }
    HoldsThroughout((s, l, s') => Next(s, l, s'), s => Inv(s), trace, steps, k);
  }

  /** Quota conservation, in every interleaving: as long as nothing outside the
      server disturbed the figures since they were last measured, the tracker
      accounts for every byte and file, and with no change in flight it equals
      what a measurement would return. No session ever holds an unmeasured
      tracker. */
  lemma TrackerAgreesWithStorage(trace: seq<Sys>, steps: seq<Step>)
    requires Run(trace, steps)
    ensures var s := trace[|steps|];
            && (s.exact ==> Conserved(s))
            && (s.exact && s.ops == map[] ==> s.t.usedBytes == Sum(s.st) && s.t.usedFiles == |s.st|)
            && (s.handed ==> s.t.measured)
            && (s.ops != map[] ==> s.t.measured)
  {
    RunKeeps(trace, steps, |steps|);
    assert AllBytes(map[]) == map[] && AllFiles(map[]) == map[];
  }

  // ---- Re-measurement over a run ---------------------------------------------------------

  /** Steps i and j are the snapshot and the commit of one walk. */
  predicate SameWalk(steps: seq<Step>, i: nat, j: nat) {
    && i < j < |steps| && steps[i].WalkStart? && steps[j].WalkCommit?
    && forall k | i < k < j :: !steps[k].WalkCommit? && !steps[k].WalkFail?
  }

  lemma WalkOneMore(s: Sys, step: Step, s': Sys)
    requires Next(s, step, s') && s.walk.Some? && !step.WalkCommit? && !step.WalkFail?
    ensures s'.walk.Some?
    ensures var w, w' := s.walk.value, s'.walk.value;
            w'.gen == w.gen && w'.stuck == w.stuck && w'.ext == w.ext && w'.moves == w.moves
  {
  }

  /** The walk found at the commit is the one that began with the snapshot. */
  lemma {:induction false} WalkLasts(trace: seq<Sys>, steps: seq<Step>, i: nat, j: nat, k: nat)
    requires Run(trace, steps) && SameWalk(steps, i, j) && i < k <= j
    ensures trace[k].walk.Some?
    ensures var s, w := trace[i], trace[k].walk.value;
            w.gen == s.t.gen && w.stuck == steps[i].stuck && w.ext == s.ext && w.moves == s.moves
  {
    assert Next(trace[k - 1], steps[k - 1], trace[k]);
    if k > i + 1 {
      WalkLasts(trace, steps, i, j, k - 1);
      WalkOneMore(trace[k - 1], steps[k - 1], trace[k]);
    }
  }

  lemma CountsGrow(s: Sys, step: Step, s': Sys)
    requires Next(s, step, s')
    ensures s'.moves == s.moves + if IsChange(step) then 1 else 0
    ensures s'.ext == s.ext + if step.Outside? then 1 else 0
    ensures !IsChange(step) && !step.Outside? ==> s'.st == s.st && s'.ops == s.ops
  {
  }

  /** The two counters tell what happened between two states of a run. */
  lemma {:induction false} CountsTell(trace: seq<Sys>, steps: seq<Step>, i: nat, j: nat)
    requires Run(trace, steps) && i <= j <= |steps|
    ensures trace[i].moves <= trace[j].moves && trace[i].ext <= trace[j].ext
    ensures trace[i].moves == trace[j].moves <==> forall k | i <= k < j :: !IsChange(steps[k])
    ensures trace[i].ext == trace[j].ext <==> forall k | i <= k < j :: !steps[k].Outside?
    ensures trace[i].moves == trace[j].moves && trace[i].ext == trace[j].ext ==>
              trace[j].st == trace[i].st && trace[j].ops == trace[i].ops
  {
    if i < j {
      CountsTell(trace, steps, i, j - 1);
      assert Next(trace[j - 1], steps[j - 1], trace[j]);
      CountsGrow(trace[j - 1], steps[j - 1], trace[j]);
    }
  }

  /** Re-measurement is safe: between the snapshot and the commit of a walk that
      is adopted outside the stuck case, no change of a session began, moved or
      ended, and none is open; and if nothing changed outside the server either,
      the figures adopted are those of storage, then and at the snapshot. No
      reservation is erased, for there is none. */
  lemma AdoptionIsSafe(trace: seq<Sys>, steps: seq<Step>, i: nat, j: nat)
    requires Run(trace, steps) && SameWalk(steps, i, j) && !steps[i].stuck
    requires trace[j].walk.Some? && Adopts(trace[j].t, trace[j].walk.value)
    ensures trace[j].moves == trace[i].moves && forall k | i <= k <= j :: !IsChange(steps[k])
    ensures trace[j].ops == map[] && trace[j].t.inflight == 0
    ensures (forall k | i <= k <= j :: !steps[k].Outside?) ==>
              && trace[j].st == trace[i].st
              && trace[j + 1].t.usedBytes == Sum(trace[j].st) && trace[j + 1].t.usedFiles == |trace[j].st|
  {
    RunKeeps(trace, steps, j);
    WalkLasts(trace, steps, i, j, j);
    CountsTell(trace, steps, i, j);
    CommitOf(trace, steps, j);
    AdoptionGives(trace[j], trace[j + 1]);
  }

  lemma AdoptionGives(s: Sys, s': Sys)
    requires Inv(s) && Commits(s, s') && Adopts(s.t, s.walk.value) && !s.walk.value.stuck
    ensures s.ops == map[] && s.t.inflight == 0 && s.walk.value.moves == s.moves
    ensures s.walk.value.ext == s.ext ==> s'.t.usedBytes == Sum(s.st) && s'.t.usedFiles == |s.st|
  {
    AdoptedWalk(s);
  }

  lemma CommitOf(trace: seq<Sys>, steps: seq<Step>, j: nat)
    requires Run(trace, steps) && j < |steps| && steps[j].WalkCommit?
    ensures Commits(trace[j], trace[j + 1])
  {
    assert Next(trace[j], steps[j], trace[j + 1]);
  }

  ghost predicate NothingPending(ops: map<nat, Op>) {
    forall i | i in ops :: PendingBytes(ops[i]) == PendingFiles(ops[i]) == 0
  }

  lemma PendingSums(ops: map<nat, Op>)
    ensures Sum(AllBytes(ops)) >= 0 && Sum(AllFiles(ops)) >= 0
    ensures Sum(AllBytes(ops)) == Sum(AllFiles(ops)) == 0 <==> NothingPending(ops)
  {
    var b, f := AllBytes(ops), AllFiles(ops);
    SumNonNegative(b);
    SumNonNegative(f);
    assert forall i | i in ops :: b[i] == PendingBytes(ops[i]) && f[i] == PendingFiles(ops[i]);
    if NothingPending(ops) {
      SumOfZeros(b);
      SumOfZeros(f);
    }
  }

  // ---- A forced walk beside moving changes ---------------------------------------------------

  /** A step behind the back of a walk: once the walk has its list, no file comes or
      goes, and only files it has yet to look at change their size. */
  predicate UnseenOnly(s: Sys, s': Sys) {
    s.walk.Some? && s.walk.value.listed ==>
      && s'.st.Keys == s.st.Keys
      && forall p | p in s.st && s'.st[p] != s.st[p] :: p in s.walk.value.todo
  }

  /** What the walk has added up and what it has still to look at make up storage. */
  ghost predicate WalkTrue(s: Sys) {
    && s.walk.Some?
    && var w := s.walk.value;
       if w.listed then
         && Distinct(w.todo) && (forall p | p in w.todo :: p in s.st)
         && w.bytes + SumOf(s.st, w.todo) == Sum(s.st) && w.files + |w.todo| == |s.st|
       else w.bytes == 0 && w.files == 0 && w.todo == []
  }

  lemma {:induction false} SumOfSame(st: Storage, st': Storage, todo: seq<Path>)
    requires forall p | p in todo :: (p in st <==> p in st') && (p in st ==> st[p] == st'[p])
    ensures SumOf(st, todo) == SumOf(st', todo)
  {
    if todo != [] {
      SumOfSame(st, st', todo[1..]);
    }
  }

  /** Changes of files that are still on the list change both sums alike. */
  lemma {:induction false} SumOfUnseen(st: Storage, st': Storage, todo: seq<Path>)
    requires st'.Keys == st.Keys && Distinct(todo) && forall p | p in todo :: p in st
    requires forall p | p in st && st'[p] != st[p] :: p in todo
    ensures SumOf(st', todo) - SumOf(st, todo) == Sum(st') - Sum(st)
  {
    if todo == [] {
      assert st' == st;
    } else {
      var p, tail := todo[0], todo[1..];
      var st1 := st[p := st'[p]];
      SumPutSize(st, p, st'[p]);
      SumOfSame(st, st1, tail);
      SumOfUnseen(st1, st', tail);
    }
  }

  lemma VisitStaysTrue(s: Sys, s': Sys)
    requires WalkTrue(s) && Visits(s, s')
    ensures WalkTrue(s')
  {
    var w, w' := s.walk.value, s'.walk.value;
    assert w.todo[0] in s.st;
    assert forall p | p in w'.todo :: p in w.todo;
  }

  lemma OthersStayTrue(s: Sys, s': Sys)
    requires WalkTrue(s) && s'.walk == s.walk && UnseenOnly(s, s')
    ensures WalkTrue(s')
  {
    if s.walk.value.listed {
      SumOfUnseen(s.st, s'.st, s.walk.value.todo);
      assert |s.st| == |s.st.Keys| && |s'.st| == |s'.st.Keys|;
    }
  }

  lemma StepStaysTrue(s: Sys, step: Step, s': Sys)
    requires WalkTrue(s) && Next(s, step, s') && UnseenOnly(s, s') && !step.WalkCommit? && !step.WalkFail?
    ensures WalkTrue(s')
  {
    if step.WalkList? {
      SumOfListing(s.st, step.todo);
    } else if step.WalkVisit? {
      VisitStaysTrue(s, s');
    } else {
      OthersStayTrue(s, s');
    }
  }

  lemma {:induction false} WalkStaysTrue(trace: seq<Sys>, steps: seq<Step>, i: nat, j: nat, k: nat)
    requires Run(trace, steps) && SameWalk(steps, i, j) && i < k <= j
    requires forall q | i < q < j :: UnseenOnly(trace[q], trace[q + 1])
    ensures WalkTrue(trace[k])
  {
    assert Next(trace[k - 1], steps[k - 1], trace[k]);
    if k > i + 1 {
      WalkStaysTrue(trace, steps, i, j, k - 1);
      assert UnseenOnly(trace[k - 1], trace[k - 1 + 1]);
      StepStaysTrue(trace[k - 1], steps[k - 1], trace[k]);
    }
  }

  lemma ForcedAdoption(s: Sys, s': Sys)
    requires WalkTrue(s) && Commits(s, s') && Adopts(s.t, s.walk.value)
    ensures Conserved(s') <==> NothingPending(s.ops)
  {
    PendingSums(s.ops);
  }

  /** The stuck case is the exception the code accepts. A forced walk behind whose
      back only files change that it has yet to look at keeps the books if and
      only if no change in flight has anything pending at the commit. */
  lemma StuckAdoption(trace: seq<Sys>, steps: seq<Step>, i: nat, j: nat)
    requires Run(trace, steps) && SameWalk(steps, i, j) && steps[i].stuck
    requires trace[j].walk.Some? && Adopts(trace[j].t, trace[j].walk.value)
    requires forall k | i < k < j :: UnseenOnly(trace[k], trace[k + 1])
    ensures Conserved(trace[j + 1]) <==> NothingPending(trace[j].ops)
  {
    WalkStaysTrue(trace, steps, i, j, j);
    CommitOf(trace, steps, j);
    ForcedAdoption(trace[j], trace[j + 1]);
  }

  // ---- Conservation without proviso -------------------------------------------------------

  /** Steps of a server whose changes do not get stuck, whose files nobody else
      touches, and whose look-ups tell it what it needs to know. */
  ghost predicate Calm(s: Sys, step: Step, s': Sys) {
    && !step.Outside? && (step.WalkStart? ==> !step.stuck)
    && (step.MoveOp? && step.i in s.ops && step.i in s'.ops ==>
          !Missed(s.st, s.ops[step.i], s'.st, s'.ops[step.i]))
  }

  ghost predicate CalmRun(trace: seq<Sys>, steps: seq<Step>) {
    && Run(trace, steps)
    && forall k | 0 <= k < |steps| :: Calm(trace[k], steps[k], trace[k + 1])
  }

  ghost predicate Settled(s: Sys) {
    && s.ext == 0
    && (s.walk.Some? ==> !s.walk.value.stuck && s.walk.value.ext == 0)
    && (s.t.measured ==> s.exact)
  }

  lemma StepSettled(s: Sys, step: Step, s': Sys)
    requires Inv(s) && Settled(s) && Next(s, step, s') && Calm(s, step, s')
    ensures Settled(s')
  {
    if step.MoveOp? {
      OpStepFramed(s.t, s.st, s.ops[step.i], s'.t, s'.st, s'.ops[step.i]);
    }
  }

  ghost predicate CalmNext(s: Sys, step: Step, s': Sys) { Next(s, step, s') && Calm(s, step, s') }

  ghost predicate InvSettled(s: Sys) { Inv(s) && Settled(s) }

  lemma CalmRunSettled(trace: seq<Sys>, steps: seq<Step>, k: nat)
    requires CalmRun(trace, steps) && k <= |steps|
    ensures InvSettled(trace[k])
  {
    forall s, l, s' | CalmNext(s, l, s') && InvSettled(s) ensures InvSettled(s') {
      StepKeeps(s, l, s');
      StepSettled(s, l, s');
    }
    HoldsThroughout((s, l, s') => CalmNext(s, l, s'), s => InvSettled(s), trace, steps, k);
  }

  /** From the first measurement on, through any interleaving of changes, failed
      backend calls, later measurements and limit changes, the tracker is exact;
      and when no change is in flight it equals storage. */
  lemma CalmRunConserves(trace: seq<Sys>, steps: seq<Step>)
    requires CalmRun(trace, steps)
    ensures var s := trace[|steps|];
            && (s.t.measured ==> Conserved(s))
            && (s.t.measured && s.ops == map[] ==> s.t.usedBytes == Sum(s.st) && s.t.usedFiles == |s.st|)
  {
    CalmRunSettled(trace, steps, |steps|);
    assert AllBytes(map[]) == map[] && AllFiles(map[]) == map[];
  }

  // ---- No parallel overrun ---------------------------------------------------------------

  predicate NotLowered(before: int, after: int) {
    after <= 0 || (before > 0 && after >= before)
  }

  /** Steps that do not lower a limit. */
  predicate NotLowering(s: Sys, step: Step) {
    step.SetLimits? ==> NotLowered(s.t.maxStorage, step.maxStorage) && NotLowered(s.t.maxFiles, step.maxFiles)
  }

  ghost predicate QuietRun(trace: seq<Sys>, steps: seq<Step>) {
    CalmRun(trace, steps) && forall k | 0 <= k < |steps| :: NotLowering(trace[k], steps[k])
  }

  predicate Within(limit: int, used: int, initial: int) {
    limit <= 0 || used <= Max(limit, initial)
  }

  ghost predicate Bounded(s: Sys, s0: Sys) {
    && (!s.t.measured ==> s.st == s0.st)
    && (s.t.measured ==>
          && Within(s.t.maxStorage, s.t.usedBytes, Sum(s0.st))
          && Within(s.t.maxFiles, s.t.usedFiles, |s0.st|))
  }

  /** A figure goes up only under its limit. */
  predicate Checked(t: Figures, t': Figures) {
    && (t'.usedBytes <= t.usedBytes || t.maxStorage <= 0 || t'.usedBytes <= t.maxStorage)
    && (t'.usedFiles <= t.usedFiles || t.maxFiles <= 0 || t'.usedFiles <= t.maxFiles)
  }

  lemma OpenIsChecked(t: Figures, st: Storage, op: Op, t': Figures, st': Storage, op': Op)
    requires OpenStep(t, st, op, t', st', op') && t.usedBytes >= 0 && t.usedFiles >= 0
    ensures Checked(t, t')
  {
  }

  lemma HandleIsChecked(t: Figures, st: Storage, op: Op, t': Figures, st': Storage, op': Op)
    requires op.Handle? && HandleStep(t, st, op, t', st', op') && t.usedBytes >= 0 && t.usedFiles >= 0
    ensures Checked(t, t')
  {
  }

  /** No step of a change takes the figures up except under the limit. */
  lemma GrowthIsChecked(t: Figures, st: Storage, op: Op, t': Figures, st': Storage, op': Op)
    requires OpStep(t, st, op, t', st', op') && t.usedBytes >= 0 && t.usedFiles >= 0
    ensures Checked(t, t')
  {
    if IsOpen(op) {
      OpenIsChecked(t, st, op, t', st', op');
    } else if op.Handle? {
      HandleIsChecked(t, st, op, t', st', op');
    }
  }

  lemma UsedNonNegative(s: Sys)
    requires Conserved(s)
    ensures s.t.usedBytes >= Sum(s.st) >= 0 && s.t.usedFiles >= |s.st|
  {
    SumNonNegative(s.st);
    SumNonNegative(AllBytes(s.ops));
    SumNonNegative(AllFiles(s.ops));
  }

  lemma MoveBounded(s: Sys, i: nat, s': Sys, s0: Sys)
    requires Inv(s) && Settled(s) && Bounded(s, s0) && Moves(s, i, s')
    ensures Bounded(s', s0)
  {
    assert s.handed;
    UsedNonNegative(s);
    GrowthIsChecked(s.t, s.st, s.ops[i], s'.t, s'.st, s'.ops[i]);
    OpStepFramed(s.t, s.st, s.ops[i], s'.t, s'.st, s'.ops[i]);
  }

  lemma CommitBounded(s: Sys, s': Sys, s0: Sys)
    requires Inv(s) && Settled(s) && Bounded(s, s0) && Commits(s, s')
    ensures Bounded(s', s0)
  {
    if Adopts(s.t, s.walk.value) {
      AdoptedWalk(s);
      if s.t.measured {
        UsedNonNegative(s);
      }
    }
  }

  /** The other steps leave usage, storage and the measured flag alone. */
  lemma OthersLeaveFigures(s: Sys, step: Step, s': Sys)
    requires Next(s, step, s') && !step.MoveOp? && !step.WalkCommit? && !step.SetLimits? && !step.Outside?
    ensures s'.t == s.t.(inflight := s'.t.inflight, gen := s'.t.gen) && s'.st == s.st
  {
  }

  lemma StepBounded(s: Sys, step: Step, s': Sys, s0: Sys)
    requires Inv(s) && Settled(s) && Bounded(s, s0)
    requires Next(s, step, s') && Calm(s, step, s') && NotLowering(s, step)
    ensures Bounded(s', s0)
  {
    if step.MoveOp? {
      MoveBounded(s, step.i, s', s0);
    } else if step.WalkCommit? {
      CommitBounded(s, s', s0);
    } else if !step.SetLimits? {
      OthersLeaveFigures(s, step, s');
    }
  }

  ghost predicate QuietNext(s: Sys, step: Step, s': Sys) { CalmNext(s, step, s') && NotLowering(s, step) }

  ghost predicate InvBounded(s: Sys, s0: Sys) { InvSettled(s) && Bounded(s, s0) }

  lemma QuietRunBounded(trace: seq<Sys>, steps: seq<Step>, k: nat)
    requires QuietRun(trace, steps) && k <= |steps|
    ensures InvBounded(trace[k], trace[0])
  {
    var s0 := trace[0];
    forall s, l, s' | QuietNext(s, l, s') && InvBounded(s, s0) ensures InvBounded(s', s0) {
      StepKeeps(s, l, s');
      StepSettled(s, l, s');
      StepBounded(s, l, s', s0);
    }
    HoldsThroughout((s, l, s') => QuietNext(s, l, s'), s => InvBounded(s, s0), trace, steps, k);
  }

  /** No parallel overrun: whatever the sessions do in parallel, neither the
      figures nor the files actually stored ever exceed the limits (or what was
      there to begin with, if that was more). */
  lemma NoOverrun(trace: seq<Sys>, steps: seq<Step>)
    requires QuietRun(trace, steps)
    ensures var s, s0 := trace[|steps|], trace[0];
            && Within(s.t.maxStorage, Sum(s.st), Sum(s0.st))
            && Within(s.t.maxFiles, |s.st|, |s0.st|)
            && (s.t.measured ==>
                  && Within(s.t.maxStorage, s.t.usedBytes, Sum(s0.st))
                  && Within(s.t.maxFiles, s.t.usedFiles, |s0.st|))
  {
    QuietRunBounded(trace, steps, |steps|);
    if trace[|steps|].t.measured {
      UsedNonNegative(trace[|steps|]);
    }
  }
}
