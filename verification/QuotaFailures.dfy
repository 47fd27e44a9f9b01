/** Runs of the quota system that end with the wrong figures: the conditions under
    which the tracker is exact cannot be dropped. */
module QuotaFailures {
  import opened Text
  import opened Quota
  import opened QuotaRun
  import opened QuotaSystem
  import opened Sums

  /** No limit is changed, no walk forced and no file touched from outside. */
  predicate Ordinary(steps: seq<Step>) {
    forall k | 0 <= k < |steps| :: OrdinaryStep(steps[k])
  }

  predicate OrdinaryStep(step: Step) {
    !step.SetLimits? && !step.Outside? && (step.WalkStart? ==> !step.stuck)
  }

  lemma Extend(trace: seq<Sys>, steps: seq<Step>, step: Step, s': Sys)
      returns (trace': seq<Sys>, steps': seq<Step>)
    requires Run(trace, steps) && Next(trace[|steps|], step, s')
    ensures trace' == trace + [s'] && steps' == steps + [step] && Run(trace', steps')
    ensures Ordinary(steps) && OrdinaryStep(step) ==> Ordinary(steps')
  {
    trace', steps' := trace + [s'], steps + [step];
    forall k | 0 <= k < |steps'| ensures Next(trace'[k], steps'[k], trace'[k + 1]) {
      if k < |steps| {
        assert Next(trace[k], steps[k], trace[k + 1]);
      }
    }
  }

  /** An empty tree, measured. */
  function Fresh(maxStorage: int, maxFiles: int): Sys {
    Sys(Figures(0, 0, maxStorage, maxFiles, 0, 0, true), map[], map[], None, true, 0, 0, true)
  }

  lemma FirstMeasurement(maxStorage: int, maxFiles: int) returns (trace: seq<Sys>, steps: seq<Step>)
    ensures Run(trace, steps) && trace[|steps|] == Fresh(maxStorage, maxFiles) && trace[0].st == map[]
    ensures trace[0].t.maxFiles == maxFiles && Ordinary(steps)
  {
    var s0 := Sys(Figures(0, 0, maxStorage, maxFiles, 0, 0, false), map[], map[], None, false, 0, 0, false);
    trace, steps := [s0], [];
    var s := s0.(walk := Some(Walk(0, false, 0, 0, false, false, [], 0, 0)));
    trace, steps := Extend(trace, steps, WalkStart(false), s);
    s := s.(walk := Some(s.walk.value.(listed := true)));
    trace, steps := Extend(trace, steps, WalkList([]), s);
    trace, steps := Extend(trace, steps, WalkCommit, Fresh(maxStorage, maxFiles));
  }

  lemma Move(trace: seq<Sys>, steps: seq<Step>, t': Figures, st': Storage, op': Op)
      returns (trace': seq<Sys>, steps': seq<Step>)
    requires Run(trace, steps) && trace[|steps|].ops.Keys == {0}
    requires var s := trace[|steps|]; OpStep(s.t, s.st, s.ops[0], t', st', op')
    ensures Run(trace', steps') && |steps'| == |steps| + 1 && trace'[0] == trace[0]
    ensures var s := trace[|steps|];
            trace'[|steps'|] == s.(t := t', st := st', ops := map[0 := op'], moves := s.moves + 1,
                                   exact := s.exact && !Missed(s.st, s.ops[0], st', op'))
    ensures Ordinary(steps) ==> Ordinary(steps')
  {
    var s := trace[|steps|];
    var s' := s.(t := t', st := st', ops := map[0 := op'], moves := s.moves + 1,
                 exact := s.exact && !Missed(s.st, s.ops[0], st', op'));
    assert s.ops[0 := op'] == map[0 := op'];
    trace', steps' := Extend(trace, steps, MoveOp(0), s');
  }

  /** A change begins and its look-up is done, or has failed. */
  lemma BeginOpen(trace: seq<Sys>, steps: seq<Step>, p: Path, looked: bool)
      returns (trace': seq<Sys>, steps': seq<Step>)
    requires Run(trace, steps)
    requires var s := trace[|steps|]; s.handed && s.ops == map[] && p !in s.st && (looked ==> CanCreate(s.t))
    ensures Run(trace', steps') && trace'[0] == trace[0]
    ensures Ordinary(steps) ==> Ordinary(steps')
    ensures var s := trace[|steps|];
            trace'[|steps'|] ==
            s.(t := if looked then Create(Begin(s.t)) else Begin(s.t),
               ops := map[0 := OpenReady(p, true, false, looked, looked, 0)], moves := s.moves + 2)
  {
    var s := trace[|steps|];
    var t' := if looked then Create(Begin(s.t)) else Begin(s.t);
    trace', steps' := Extend(trace, steps, BeginOp(0, Opening(p, true, false)),
                             s.(t := Begin(s.t), ops := map[0 := Opening(p, true, false)], moves := s.moves + 1));
    trace', steps' := Move(trace', steps', t', s.st, OpenReady(p, true, false, looked, looked, 0));
  }

  /** Opening a new file, with or without the look-up before it. */
  lemma OpenNew(trace: seq<Sys>, steps: seq<Step>, p: Path, looked: bool)
      returns (trace': seq<Sys>, steps': seq<Step>)
    requires Run(trace, steps)
    requires var s := trace[|steps|]; s.handed && s.ops == map[] && p !in s.st && (looked ==> CanCreate(s.t))
    ensures Run(trace', steps') && trace'[0] == trace[0]
    ensures Ordinary(steps) ==> Ordinary(steps')
    ensures var s := trace[|steps|];
            trace'[|steps'|] ==
            s.(t := if looked then Create(Begin(s.t)) else Begin(s.t), st := s.st[p := 0],
               ops := map[0 := Handle(p, 0, 0, Idle)], moves := s.moves + 4, exact := s.exact && looked)
  {
    var s := trace[|steps|];
    var t' := if looked then Create(Begin(s.t)) else Begin(s.t);
    trace', steps' := BeginOpen(trace, steps, p, looked);
    trace', steps' := Move(trace', steps', t', s.st[p := 0], Opened(p, false, 0));
    trace', steps' := Move(trace', steps', t', s.st[p := 0], Handle(p, 0, 0, Idle));
  }

  lemma CloseHandle(trace: seq<Sys>, steps: seq<Step>) returns (trace': seq<Sys>, steps': seq<Step>)
    requires Run(trace, steps) && trace[|steps|].ops.Keys == {0} && Ends(trace[|steps|].ops[0])
    ensures Run(trace', steps') && trace'[0] == trace[0]
    ensures Ordinary(steps) ==> Ordinary(steps')
    ensures var s := trace[|steps|];
            trace'[|steps'|] == s.(t := End(s.t), ops := map[], moves := s.moves + 1)
  {
    var s := trace[|steps|];
    assert s.ops - {0} == map[];
    trace', steps' := Extend(trace, steps, EndOp(0), s.(t := End(s.t), ops := map[], moves := s.moves + 1));
  }

  /** A file is opened and five bytes are reserved for it. */
  lemma ReserveFive(p: Path) returns (trace: seq<Sys>, steps: seq<Step>)
    ensures Run(trace, steps)
    ensures trace[|steps|] == Sys(Figures(5, 1, 0, 0, 1, 3, true), map[p := 0],
                                  map[0 := Handle(p, 0, 0, Reserved(5, 5))], None, true, 0, 5, true)
  {
    trace, steps := FirstMeasurement(0, 0);
    trace, steps := OpenNew(trace, steps, p, true);
    var s := trace[|steps|];
    assert IdleStep(s.t, s.st, s.ops[0], Grow(s.t, 5), s.st, Handle(p, 0, 0, Reserved(5, 5))) by {
      var len: nat := 5;
      assert ProjectedGrowth(0, 0, len) == 5;
    }
    trace, steps := Move(trace, steps, Grow(s.t, 5), s.st, Handle(p, 0, 0, Reserved(5, 5)));
  }

  /** The walk is forced, and visits the file before the write lands. */
  lemma ForceWalk(trace: seq<Sys>, steps: seq<Step>, p: Path) returns (trace': seq<Sys>, steps': seq<Step>)
    requires Run(trace, steps)
    requires var s := trace[|steps|]; s.walk.None? && s.t.measured && s.t.inflight > 0 && s.st == map[p := 0]
    ensures Run(trace', steps')
    ensures var s := trace[|steps|];
            trace'[|steps'|] == s.(walk := Some(Walk(s.t.gen, true, s.ext, s.moves, true, true, [], 0, 1)))
  {
    var s := trace[|steps|];
    var w := Walk(s.t.gen, true, s.ext, s.moves, true, false, [], 0, 0);
    trace', steps' := Extend(trace, steps, WalkStart(true), s.(walk := Some(w)));
    w := w.(listed := true, todo := [p]);
    trace', steps' := Extend(trace', steps', WalkList([p]), s.(walk := Some(w)));
    assert [p][1..] == [];
    w := w.(todo := [], files := 1);
    trace', steps' := Extend(trace', steps', WalkVisit, s.(walk := Some(w)));
  }

  lemma WriteFive(trace: seq<Sys>, steps: seq<Step>, p: Path) returns (trace': seq<Sys>, steps': seq<Step>)
    requires Run(trace, steps)
    requires var s := trace[|steps|];
             s.st == map[p := 0] && s.ops == map[0 := Handle(p, 0, 0, Reserved(5, 5))] && s.exact
    ensures Run(trace', steps')
    ensures var s := trace[|steps|];
            trace'[|steps'|] == s.(st := map[p := 5], ops := map[0 := Handle(p, 5, 5, Idle)], moves := s.moves + 2)
  {
    var s := trace[|steps|];
    assert WriteStep(s.t, s.st, s.ops[0], s.t, map[p := 5], Handle(p, 5, 5, Refund(0))) by {
      var n: nat := 5;
      assert n <= 5 && StoredAfterWrite(0, 0, n) == 5;
      assert s.st[p := 5] == map[p := 5];
    }
    trace', steps' := Move(trace, steps, s.t, map[p := 5], Handle(p, 5, 5, Refund(0)));
    trace', steps' := Move(trace', steps', s.t, map[p := 5], Handle(p, 5, 5, Idle));
  }

  lemma FiveAreStored(s: Sys, p: Path)
    requires s.st == map[p := 5] && s.ops == map[0 := Handle(p, 5, 5, Idle)]
    ensures NothingPending(s.ops) && Sum(s.st) == 5 && |s.st| == 1
    ensures Conserved(s) <==> s.t.usedBytes == 5 && s.t.usedFiles == 1
  {
    SumUpdate(map[], p, 5);
    assert s.st == map[][p := 5];
    IdlePendsNothing(s.ops, Handle(p, 5, 5, Idle));
  }

  lemma IdlePendsNothing(ops: map<nat, Op>, op: Op)
    requires ops == map[0 := op] && PendingBytes(op) == PendingFiles(op) == 0
    ensures NothingPending(ops) && Sum(AllBytes(ops)) == Sum(AllFiles(ops)) == 0
  {
    PendingSums(ops);
  }

  /** A forced walk during which a write lands: the books are in order before it
      is adopted and nothing is pending, and adopting it loses the five bytes.
      The generation does not tell, because a write that was reserved in full
      tells the tracker nothing when it is done. */
  lemma StaleForcedWalk() returns (trace: seq<Sys>, steps: seq<Step>)
    ensures Run(trace, steps) && steps != [] && steps[|steps| - 1] == WalkCommit
    ensures var s, s' := trace[|steps| - 1], trace[|steps|];
            && s.walk.Some? && s.walk.value.stuck && Adopts(s.t, s.walk.value)
            && NothingPending(s.ops) && Conserved(s) && !Conserved(s')
            && s'.t.usedBytes == 0 && Sum(s'.st) == 5
  {
    var p := ["f"];
    trace, steps := ReserveFive(p);
    trace, steps := ForceWalk(trace, steps, p);
    trace, steps := WriteFive(trace, steps, p);
    var s := trace[|steps|];
    var s' := s.(t := s.t.(usedBytes := 0, usedFiles := 1), walk := None, exact := false);
    trace, steps := Extend(trace, steps, WalkCommit, s');
    FiveAreStored(s, p);
    FiveAreStored(s', p);
  }

  /** A look-up that fails before a file is created: one file is stored beyond the
      limit, although no limit was lowered, no walk forced and no file touched
      from outside. */
  lemma FailedLookupOverruns() returns (trace: seq<Sys>, steps: seq<Step>)
    ensures Run(trace, steps) && Ordinary(steps) && trace[0].st == map[] && trace[0].t.maxFiles == 1
    ensures var s := trace[|steps|];
            s.t.maxFiles == 1 && s.t.usedFiles == 1 && |s.st| == 2 && s.ops == map[] && s.ext == 0 && !s.exact
  {
    trace, steps := FirstMeasurement(0, 1);
    trace, steps := OpenNew(trace, steps, ["a"], true);
    trace, steps := CloseHandle(trace, steps);
    trace, steps := OpenNew(trace, steps, ["b"], false);
    trace, steps := CloseHandle(trace, steps);
    assert trace[|steps|].st.Keys == {["a"], ["b"]};
  }
}
