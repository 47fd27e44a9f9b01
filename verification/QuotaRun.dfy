/** Many sessions of one user, interleaved step by step over one shared tracker
    and one storage tree, together with the two-phase re-measurement. Every
    tracker call and every backend call is one step. */
module QuotaRun {
  import opened Quota
  import opened Sums

  type Path = seq<string>          // path components
  type Storage = map<Path, nat>    // regular files and their sizes

  // ---- Changes in flight ---------------------------------------------------------

  datatype IO =
    | Idle
    | Reserved(len: nat, growth: nat)           // Write: OnGrow done, backend not called
    | Truncating(newSize: nat, growth: nat)     // Truncate: likewise
    | Refund(bytes: nat)                        // backend done, OnShrink still to come

  /** One change between BeginChange and EndChange, with its program counter.
      looked says that the look-up before the backend call gave an answer; seen
      are the paths that the measurement before a remove got to see. size is the
      size a handle tracks, which need not be the size stored. */
  datatype Op =
    | Opening(path: Path, create: bool, trunc: bool)
    | OpenReady(path: Path, create: bool, trunc: bool, looked: bool, reserved: bool, truncated: nat)
    | OpenFailed(path: Path, reserved: bool)
    | Opened(path: Path, trunc: bool, truncated: nat)
    | Handle(path: Path, size: nat, offset: nat, io: IO)
    | Removing(paths: set<Path>)
    | RemoveReady(paths: set<Path>, seen: set<Path>, bytes: nat, files: nat)
    | Renaming(from: Path, to: Path)
    | RenameReady(from: Path, to: Path, looked: bool, bytes: nat, files: nat)
    | Releasing(paths: set<Path>, bytes: nat, files: nat)    // gone from storage, still charged
    | ReleasingFiles(paths: set<Path>, files: nat)
    | Finished(paths: set<Path>)

  function Paths(op: Op): set<Path> {
    match op
    case Opening(p, _, _) => {p}
    case OpenReady(p, _, _, _, _, _) => {p}
    case OpenFailed(p, _) => {p}
    case Opened(p, _, _) => {p}
    case Handle(p, _, _, _) => {p}
    case Removing(ps) => ps
    case RemoveReady(ps, _, _, _) => ps
    case Renaming(a, b) => {a, b}
    case RenameReady(a, b, _, _, _) => {a, b}
    case Releasing(ps, _, _) => ps
    case ReleasingFiles(ps, _) => ps
    case Finished(ps) => ps
  }

  /** Bytes the tracker counts for op that storage does not (yet, or any more). */
  function PendingBytes(op: Op): nat {
    match op
    case Opened(_, _, truncated) => truncated
    case Handle(_, _, _, Reserved(_, g)) => g
    case Handle(_, _, _, Truncating(_, g)) => g
    case Handle(_, _, _, Refund(b)) => b
    case Releasing(_, b, _) => b
    case _ => 0
  }

  function PendingFiles(op: Op): nat {
    match op
    case OpenReady(_, _, _, _, reserved, _) => if reserved then 1 else 0
    case OpenFailed(_, reserved) => if reserved then 1 else 0
    case Releasing(_, _, f) => f
    case ReleasingFiles(_, f) => f
    case _ => 0
  }

  /** What an op knows about its own paths in storage. */
  ghost predicate Knows(op: Op, st: Storage) {
    match op
    case OpenReady(p, create, trunc, looked, reserved, truncated) =>
      && reserved == (looked && create && p !in st)
      && truncated == (if looked && trunc && p in st then st[p] else 0)
    case Opened(p, trunc, _) => p in st && (trunc ==> st[p] == 0)
    case Handle(p, size, offset, io) =>
      && p in st
      && (io.Reserved? ==> io.growth == ProjectedGrowth(size, offset, io.len))
      && (io.Truncating? ==> io.growth == Max(io.newSize, size) - size)
    case RemoveReady(ps, seen, bytes, files) =>
      seen <= ps && bytes == Sum(Restrict(st, seen)) && files == |Restrict(st, seen)|
    case RenameReady(a, b, looked, bytes, files) =>
      && bytes == (if looked && a != b && b in st then st[b] else 0)
      && files == (if looked && a != b && b in st then 1 else 0)
    case _ => true
  }

  // Each kind of change, step by step. A look-up may fail and the code then goes
  // on without what it would have told; a backend call may fail.

  ghost predicate OpenStep(t: Figures, st: Storage, op: Op, t': Figures, st': Storage, op': Op) {
    match op
    // Stat, and OnFileCreated for a file that is known to be new.
    case Opening(p, create, trunc) =>
      && st' == st
      && (|| (t' == t && op' == OpenReady(p, create, trunc, false, false, 0))
          || if create && p !in st then
               if CanCreate(t) then t' == Create(t) && op' == OpenReady(p, create, trunc, true, true, 0)
               else t' == t && op' == Finished({p})
             else
               t' == t && op' == OpenReady(p, create, trunc, true, false, if trunc && p in st then st[p] else 0))
    // The backend call.
    case OpenReady(p, create, trunc, looked, reserved, truncated) =>
      && t' == t
      && (|| (st' == st && op' == OpenFailed(p, reserved))
          || ((p in st || create) && op' == Opened(p, trunc, truncated)
              && st' == if p !in st || trunc then st[p := 0] else st))
    case OpenFailed(p, reserved) =>
      && st' == st && op' == Finished({p})
      && t' == if reserved then RemoveFiles(t, 1) else t
    // Release the truncated bytes, hand out the handle; its Stat may fail too.
    case Opened(p, trunc, truncated) =>
      && st' == st && p in st
      && t' == Shrink(t, truncated)
      && op'.Handle? && op'.path == p && op'.io == Idle
      && (op'.size == 0 || (!trunc && op'.size == st[p]))
    case _ => false
  }

  ghost predicate HandleStep(t: Figures, st: Storage, op: Op, t': Figures, st': Storage, op': Op)
    requires op.Handle?
  {
    match op.io
    case Idle => IdleStep(t, st, op, t', st', op')
    case Reserved(_, _) => WriteStep(t, st, op, t', st', op')
    case Truncating(_, _) => TruncateStep(t, st, op, t', st', op')
    case Refund(b) => st' == st && t' == Shrink(t, b) && op' == op.(io := Idle)
  }

  ghost predicate IdleStep(t: Figures, st: Storage, op: Op, t': Figures, st': Storage, op': Op)
    requires op.Handle?
  {
    && st' == st
    && (|| (t' == t && op'.Handle? && op' == op.(offset := op'.offset))    // Read, Seek, refused calls
        || (exists len: nat ::
              var g := ProjectedGrowth(op.size, op.offset, len);
              CanGrow(t, g) && t' == Grow(t, g) && op' == op.(io := Reserved(len, g)))
        || (exists n: nat ::
              var g := Max(n, op.size) - op.size;
              CanGrow(t, g) && t' == Grow(t, g) && op' == op.(io := Truncating(n, g))))
  }

  /** The backend takes n of len bytes. */
  ghost predicate WriteStep(t: Figures, st: Storage, op: Op, t': Figures, st': Storage, op': Op)
    requires op.Handle? && op.io.Reserved?
  {
    && t' == t && op.path in st
    && exists n: nat | n <= op.io.len ::
         var size' := Max(op.size, op.offset + n);
         && st' == st[op.path := StoredAfterWrite(st[op.path], op.offset, n)]
         && size' - op.size <= op.io.growth
         && op' == Handle(op.path, size', op.offset + n, Refund(op.io.growth - (size' - op.size)))
  }

  ghost predicate TruncateStep(t: Figures, st: Storage, op: Op, t': Figures, st': Storage, op': Op)
    requires op.Handle? && op.io.Truncating?
  {
    var n := op.io.newSize;
    && t' == t
    && (|| (st' == st && op' == op.(io := Refund(op.io.growth)))
        || (st' == st[op.path := n]
            && op'.Handle? && op'.path == op.path && op'.size == n && op'.offset <= n
            && op'.io == Refund(if n < op.size then op.size - n else 0)))
  }

  ghost predicate RemoveStep(t: Figures, st: Storage, op: Op, t': Figures, st': Storage, op': Op) {
    match op
    // Remove and RemoveAll: measure, then remove. An error ends the measurement
    // and what was added up so far is used.
    case Removing(ps) =>
      && st' == st && t' == t && op'.RemoveReady? && op'.paths == ps && op'.seen <= ps
      && op'.bytes == Sum(Restrict(st, op'.seen)) && op'.files == |Restrict(st, op'.seen)|
    case RemoveReady(ps, seen, bytes, files) =>
      && t' == t
      && (|| (st' == st && op' == Finished(ps))
          || (st' == st - ps && op' == Releasing(ps, bytes, files)))
    case _ => false
  }

  ghost predicate RenameStep(t: Figures, st: Storage, op: Op, t': Figures, st': Storage, op': Op) {
    match op
    // Rename: look at the target, then rename.
    case Renaming(a, b) =>
      && st' == st && t' == t
      && (|| op' == RenameReady(a, b, false, 0, 0)
          || op' == if a != b && b in st then RenameReady(a, b, true, st[b], 1) else RenameReady(a, b, true, 0, 0))
    case RenameReady(a, b, looked, bytes, files) =>
      && t' == t
      && (|| (st' == st && op' == Finished({a, b}))
          || (a in st && op' == Releasing({a, b}, bytes, files) && st' == Renamed(st, a, b)))
    case _ => false
  }

  ghost predicate ReleaseStep(t: Figures, st: Storage, op: Op, t': Figures, st': Storage, op': Op) {
    match op
    // After a remove or a rename: release what is gone.
    case Releasing(ps, bytes, files) =>
      st' == st && t' == Shrink(t, bytes) && op' == ReleasingFiles(ps, files)
    case ReleasingFiles(ps, files) =>
      st' == st && t' == RemoveFiles(t, files) && op' == Finished(ps)
    case _ => false
  }

  function Renamed(st: Storage, a: Path, b: Path): Storage
    requires a in st
  {
    if a == b then st else (st - {a})[b := st[a]]
  }

  predicate IsOpen(op: Op) { op.Opening? || op.OpenReady? || op.OpenFailed? || op.Opened? }

  /** One step of a change: its own program counter, the tracker, and storage at
      its own paths. */
  ghost predicate OpStep(t: Figures, st: Storage, op: Op, t': Figures, st': Storage, op': Op) {
    if IsOpen(op) then OpenStep(t, st, op, t', st', op')
    else if op.Handle? then HandleStep(t, st, op, t', st', op')
    else if op.Removing? || op.RemoveReady? then RemoveStep(t, st, op, t', st', op')
    else if op.Renaming? || op.RenameReady? then RenameStep(t, st, op, t', st', op')
    else ReleaseStep(t, st, op, t', st', op')
  }

  // ---- One step conserves -------------------------------------------------------------

  ghost predicate Balanced(t: Figures, st: Storage, op: Op, t': Figures, st': Storage, op': Op) {
    && t'.usedBytes - t.usedBytes == Sum(st') - Sum(st) + PendingBytes(op') - PendingBytes(op)
    && t'.usedFiles - t.usedFiles == |st'| - |st| + PendingFiles(op') - PendingFiles(op)
  }

  /** A backend call that succeeds although the code does not know what it is
      doing to the stored bytes and files: the look-up failed and there was
      something to count, or a handle writes or truncates while its size is not
      that of the file, or a write past the end stores nothing. */
  ghost predicate Missed(st: Storage, op: Op, st': Storage, op': Op) {
    match op
    case OpenReady(p, _, trunc, looked, _, _) =>
      op'.Opened? && !looked && (p in st ==> trunc && st[p] > 0)
    case RemoveReady(ps, seen, _, _) =>
      op'.Releasing? && exists p :: p in st && p in ps && p !in seen
    case RenameReady(a, b, looked, _, _) =>
      op'.Releasing? && !looked && a != b && b in st
    case Handle(p, size, offset, Reserved(_, _)) =>
      p in st && op'.Handle? &&
      if op'.offset == offset then offset > size
      else size != st[p] && (op'.offset > size || op'.offset > st[p])
    case Handle(p, size, _, Truncating(n, _)) =>
      p in st && op'.Handle? && p in st' && size != st[p] && op'.size == n && st'[p] == n
    case _ => false
  }

  /** What a step leaves alone, with or without balance. */
  ghost predicate Framed(t: Figures, st: Storage, op: Op, t': Figures, st': Storage, op': Op) {
    && Knows(op', st') && Paths(op') == Paths(op)
    && (forall p | p !in Paths(op) :: (p in st' <==> p in st) && (p in st ==> st'[p] == st[p]))
    && t'.inflight == t.inflight && t'.measured == t.measured && t'.gen >= t.gen
    && t'.maxStorage == t.maxStorage && t'.maxFiles == t.maxFiles
  }

  lemma SumRemoveSize(st: Storage, p: Path)
    requires p in st
    ensures Sum(st - {p}) == Sum(st) - st[p] && |st - {p}| == |st| - 1
  {
    SumRemove(st, p);
    assert (st - {p}).Keys == st.Keys - {p};
  }

  lemma SumPutSize(st: Storage, p: Path, n: nat)
    ensures Sum(st[p := n]) == Sum(st) + n - (if p in st then st[p] else 0)
    ensures |st[p := n]| == |st| + (if p in st then 0 else 1)
  {
    SumUpdate(st, p, n);
    assert st[p := n].Keys == st.Keys + {p};
  }

  lemma OpStepFramed(t: Figures, st: Storage, op: Op, t': Figures, st': Storage, op': Op)
    requires Knows(op, st) && OpStep(t, st, op, t', st', op')
    ensures Framed(t, st, op, t', st', op')
  {
    if IsOpen(op) {
      OpenFramed(t, st, op, t', st', op');
    } else if op.Handle? {
      HandleFramed(t, st, op, t', st', op');
    } else if op.Removing? || op.RemoveReady? {
      RemoveFramed(t, st, op, t', st', op');
    } else if op.Renaming? || op.RenameReady? {
      RenameFramed(t, st, op, t', st', op');
    }
  }

  lemma OpenFramed(t: Figures, st: Storage, op: Op, t': Figures, st': Storage, op': Op)
    requires Knows(op, st) && OpenStep(t, st, op, t', st', op')
    ensures Framed(t, st, op, t', st', op')
  {
  }

  lemma HandleFramed(t: Figures, st: Storage, op: Op, t': Figures, st': Storage, op': Op)
    requires op.Handle? && Knows(op, st) && HandleStep(t, st, op, t', st', op')
    ensures Framed(t, st, op, t', st', op')
  {
  }

  lemma RemoveFramed(t: Figures, st: Storage, op: Op, t': Figures, st': Storage, op': Op)
    requires Knows(op, st) && RemoveStep(t, st, op, t', st', op')
    ensures Framed(t, st, op, t', st', op')
  {
  }

  lemma RenameFramed(t: Figures, st: Storage, op: Op, t': Figures, st': Storage, op': Op)
    requires Knows(op, st) && RenameStep(t, st, op, t', st', op')
    ensures Framed(t, st, op, t', st', op')
  {
  }

  lemma OpenReadyBalanced(t: Figures, st: Storage, op: Op, st': Storage, op': Op)
    requires op.OpenReady? && Knows(op, st) && OpenStep(t, st, op, t, st', op')
    ensures Balanced(t, st, op, t, st', op') <==> !Missed(st, op, st', op')
  {
    SumPutSize(st, op.path, 0);
  }

  lemma OpenBalanced(t: Figures, st: Storage, op: Op, t': Figures, st': Storage, op': Op)
    requires Knows(op, st) && OpenStep(t, st, op, t', st', op')
    requires PendingBytes(op) <= t.usedBytes && PendingFiles(op) <= t.usedFiles
    ensures Balanced(t, st, op, t', st', op') <==> !Missed(st, op, st', op')
  {
    if op.OpenReady? {
      OpenReadyBalanced(t, st, op, st', op');
    }
  }

  lemma WriteBalanced(t: Figures, st: Storage, op: Op, t': Figures, st': Storage, op': Op)
    requires op.Handle? && op.io.Reserved? && Knows(op, st) && WriteStep(t, st, op, t', st', op')
    ensures Balanced(t, st, op, t', st', op') <==> !Missed(st, op, st', op')
  {
    SumPutSize(st, op.path, st'[op.path]);
  }

  lemma TruncateBalanced(t: Figures, st: Storage, op: Op, t': Figures, st': Storage, op': Op)
    requires op.Handle? && op.io.Truncating? && Knows(op, st) && TruncateStep(t, st, op, t', st', op')
    ensures Balanced(t, st, op, t', st', op') <==> !Missed(st, op, st', op')
  {
    SumPutSize(st, op.path, op.io.newSize);
  }

  lemma HandleBalanced(t: Figures, st: Storage, op: Op, t': Figures, st': Storage, op': Op)
    requires op.Handle? && Knows(op, st) && HandleStep(t, st, op, t', st', op')
    requires PendingBytes(op) <= t.usedBytes
    ensures Balanced(t, st, op, t', st', op') <==> !Missed(st, op, st', op')
  {
    match op.io
    case Reserved(_, _) => WriteBalanced(t, st, op, t', st', op');
    case Truncating(_, _) => TruncateBalanced(t, st, op, t', st', op');
    case _ =>
  }

  lemma SumRenamed(st: Storage, a: Path, b: Path)
    requires a in st
    ensures Sum(Renamed(st, a, b)) == Sum(st) - (if a != b && b in st then st[b] else 0)
    ensures |Renamed(st, a, b)| == |st| - (if a != b && b in st then 1 else 0)
  {
    if a != b {
      SumRemoveSize(st, a);
      SumPutSize(st - {a}, b, st[a]);
    }
  }

  /** A measurement that did not see every file comes out with fewer files. */
  lemma SeenLess(st: Storage, seen: set<Path>, ps: set<Path>)
    requires seen <= ps
    ensures |Restrict(st, seen)| == |Restrict(st, ps)| <==> forall p | p in st && p in ps :: p in seen
    ensures (forall p | p in st && p in ps :: p in seen) ==> Restrict(st, seen) == Restrict(st, ps)
  {
    var a, b := Restrict(st, seen).Keys, Restrict(st, ps).Keys;
    assert a <= b;
    if p :| p in st && p in ps && p !in seen {
      assert p in b && a <= b - {p};
      SubsetSize(a, b - {p});
    } else {
      assert Restrict(st, seen) == Restrict(st, ps);
    }
  }

  lemma {:induction false} SubsetSize<T>(a: set<T>, b: set<T>)
    requires a <= b
    ensures |a| <= |b|
  {
    assert b == a + (b - a);
  }

  /** What a measurement of the seen paths says of removing all of them. */
  lemma RemovedTotals(st: Storage, seen: set<Path>, ps: set<Path>)
    requires seen <= ps
    ensures (Sum(st) == Sum(st - ps) + Sum(Restrict(st, seen)) && |st| == |st - ps| + |Restrict(st, seen)|)
            <==> forall p | p in st && p in ps :: p in seen
  {
    SumSplit(st, ps);
    SizeSplit(st, ps);
    SeenLess(st, seen, ps);
  }

  lemma RemoveDone(t: Figures, st: Storage, ps: set<Path>, seen: set<Path>, bytes: nat, files: nat)
    requires seen <= ps && bytes == Sum(Restrict(st, seen)) && files == |Restrict(st, seen)|
    ensures Balanced(t, st, RemoveReady(ps, seen, bytes, files), t, st - ps, Releasing(ps, bytes, files))
            <==> forall p | p in st && p in ps :: p in seen
  {
    RemovedTotals(st, seen, ps);
    BalancedRelease(t, st, RemoveReady(ps, seen, bytes, files), st - ps, ps, bytes, files);
  }

  /** Balance of a backend call after which bytes and files are to be released. */
  lemma BalancedRelease(t: Figures, st: Storage, op: Op, st': Storage, ps: set<Path>, bytes: nat, files: nat)
    requires PendingBytes(op) == PendingFiles(op) == 0
    ensures Balanced(t, st, op, t, st', Releasing(ps, bytes, files)) <==>
            Sum(st) == Sum(st') + bytes && |st| == |st'| + files
  {
  }

  lemma RemoveBalanced(t: Figures, st: Storage, op: Op, t': Figures, st': Storage, op': Op)
    requires Knows(op, st) && RemoveStep(t, st, op, t', st', op')
    ensures Balanced(t, st, op, t', st', op') <==> !Missed(st, op, st', op')
  {
    if op.RemoveReady? && op'.Releasing? {
      RemoveDone(t, st, op.paths, op.seen, op.bytes, op.files);
    }
  }

  lemma RenameDone(t: Figures, st: Storage, a: Path, b: Path, looked: bool, bytes: nat, files: nat)
    requires a in st && Knows(RenameReady(a, b, looked, bytes, files), st)
    ensures Balanced(t, st, RenameReady(a, b, looked, bytes, files), t, Renamed(st, a, b), Releasing({a, b}, bytes, files))
            <==> (looked || a == b || b !in st)
  {
    SumRenamed(st, a, b);
    BalancedRelease(t, st, RenameReady(a, b, looked, bytes, files), Renamed(st, a, b), {a, b}, bytes, files);
  }

  lemma RenameBalanced(t: Figures, st: Storage, op: Op, t': Figures, st': Storage, op': Op)
    requires Knows(op, st) && RenameStep(t, st, op, t', st', op')
    ensures Balanced(t, st, op, t', st', op') <==> !Missed(st, op, st', op')
  {
    if op.RenameReady? && op'.Releasing? {
      RenameDone(t, st, op.from, op.to, op.looked, op.bytes, op.files);
    }
  }

  /** Every step moves bytes and files between storage, reservations and
      pending releases without creating or losing any, if and only if the code
      knew what it was doing; as long as the tracker counts at least what is
      pending for this op. */
  lemma OpStepBalanced(t: Figures, st: Storage, op: Op, t': Figures, st': Storage, op': Op)
    requires Knows(op, st) && OpStep(t, st, op, t', st', op')
    requires PendingBytes(op) <= t.usedBytes && PendingFiles(op) <= t.usedFiles
    ensures Balanced(t, st, op, t', st', op') <==> !Missed(st, op, st', op')
  {
    if IsOpen(op) {
      OpenBalanced(t, st, op, t', st', op');
    } else if op.Handle? {
      HandleBalanced(t, st, op, t', st', op');
    } else if op.Removing? || op.RemoveReady? {
      RemoveBalanced(t, st, op, t', st', op');
    } else if op.Renaming? || op.RenameReady? {
      RenameBalanced(t, st, op, t', st', op');
    }
  }
}
